/** What the reference evaluator means, keyword by keyword over the literal document:
    its acceptance is the reading of JSON Schema 2020-12 (Core, sections 8.2.3.1, 10
    and 11) written out below, and nothing about its edges is taken for granted. */
module EvaluationRules {
  import opened Wrappers
  import opened JsonModel
  import opened FiniteSums
  import opened Pointers
  import opened SchemaGraph
  import opened ClosureRules
  import opened Evaluator
  import opened SchemaWork
  import opened InstanceWork
  import opened EvaluationStability

  /** How a subschema answers a value. */
  type Answers = (Json, Json) -> Outcome

  // ---------- objects ----------

  ghost predicate PropertiesHold(s: Schema, inst: Json, says: Answers)
  {
    forall n | n in MembersAt(s, "properties") && n in MembersOf(inst) :: says(MembersAt(s, "properties")[n], MembersOf(inst)[n]).valid
  }

  ghost predicate DependentsHold(s: Schema, inst: Json, says: Answers)
  {
    forall n | n in MembersAt(s, "dependentSchemas") && n in MembersOf(inst) :: says(MembersAt(s, "dependentSchemas")[n], inst).valid
  }

  ghost predicate AdditionalHold(assertions: Assertions, s: Schema, inst: Json, says: Answers)
  {
    "additionalProperties" in s ==>
      forall n | n in MembersOf(inst) && n !in MembersAt(s, "properties") && !PatternMatched(assertions, s, n) ::
        says(s["additionalProperties"], MembersOf(inst)[n]).valid
  }

  ghost predicate NamesHold(s: Schema, inst: Json, says: Answers)
  {
    "propertyNames" in s ==> forall n | n in MembersOf(inst) :: says(s["propertyNames"], Str(n)).valid
  }

  // ---------- arrays ----------

  ghost predicate PrefixHolds(s: Schema, inst: Json, says: Answers)
  {
    forall i | 0 <= i < |ItemsAt(s, "prefixItems")| && i < |ItemsOf(inst)| :: says(ItemsAt(s, "prefixItems")[i], ItemsOf(inst)[i]).valid
  }

  ghost predicate RestHolds(s: Schema, inst: Json, says: Answers)
  {
    "items" in s ==> forall i | |ItemsAt(s, "prefixItems")| <= i < |ItemsOf(inst)| :: says(s["items"], ItemsOf(inst)[i]).valid
  }

  /** The positions whose item the `contains` schema accepts. */
  ghost function Contained(s: Schema, inst: Json, says: Answers): set<nat>
  {
    if "contains" in s then set i: nat | i in Indices(|ItemsOf(inst)|) && i < |ItemsOf(inst)| && says(s["contains"], ItemsOf(inst)[i]).valid
    else {}
  }

  function NumberAt(s: Schema, key: string, otherwise: real): real
  {
    if key in s && s[key].Num? then s[key].n else otherwise
  }

  /** At least `minContains` items, by default one, and at most `maxContains`. */
  ghost predicate ContainsEnough(s: Schema, inst: Json, says: Answers)
  {
    "contains" in s && inst.Arr? ==>
      && NumberAt(s, "minContains", 1.0) <= |Contained(s, inst, says)| as real
      && ("maxContains" in s && s["maxContains"].Num? ==> |Contained(s, inst, says)| as real <= s["maxContains"].n)
  }

  // ---------- in place ----------

  ghost predicate NotHolds(s: Schema, inst: Json, says: Answers)
  {
    "not" in s ==> !says(s["not"], inst).valid
  }

  /** `then` and `else` speak only beside an `if`. */
  ghost predicate ConditionHolds(s: Schema, inst: Json, says: Answers)
  {
    "if" in s ==>
      if says(s["if"], inst).valid then "then" in s ==> says(s["then"], inst).valid
      else "else" in s ==> says(s["else"], inst).valid
  }

  ghost predicate AllHold(s: Schema, inst: Json, says: Answers)
  {
    forall i | 0 <= i < |ItemsAt(s, "allOf")| :: says(ItemsAt(s, "allOf")[i], inst).valid
  }

  ghost predicate AnyHolds(s: Schema, inst: Json, says: Answers)
  {
    "anyOf" in s ==> exists i | 0 <= i < |ItemsAt(s, "anyOf")| :: says(ItemsAt(s, "anyOf")[i], inst).valid
  }

  ghost predicate ExactlyOneHolds(s: Schema, inst: Json, says: Answers)
  {
    "oneOf" in s ==>
      exists i | 0 <= i < |ItemsAt(s, "oneOf")| ::
        says(ItemsAt(s, "oneOf")[i], inst).valid
        && forall j | 0 <= j < |ItemsAt(s, "oneOf")| && says(ItemsAt(s, "oneOf")[j], inst).valid :: j == i
  }

  ghost predicate ReferenceHolds(root: Json, s: Schema, inst: Json, says: Answers)
  {
    "$ref" in s ==>
      s["$ref"].Str? && Resolve(root, s["$ref"].s).Some? && says(Resolve(root, s["$ref"].s).value.value, inst).valid
  }

  // ---------- annotations ----------

  ghost predicate SpeaksWhenPresent(s: Schema, inst: Json, child: Json)
  {
    exists n | n in MembersAt(s, "dependentSchemas") && n in MembersOf(inst) :: child == MembersAt(s, "dependentSchemas")[n]
  }

  ghost predicate SpeaksConditionally(s: Schema, inst: Json, says: Answers, child: Json)
  {
    "if" in s
    && (child == s["if"]
        || ("then" in s && says(s["if"], inst).valid && child == s["then"])
        || ("else" in s && !says(s["if"], inst).valid && child == s["else"]))
  }

  ghost predicate SpeaksAsBranch(s: Schema, key: string, child: Json)
  {
    exists i | 0 <= i < |ItemsAt(s, key)| :: child == ItemsAt(s, key)[i]
  }

  ghost predicate SpeaksByReference(root: Json, s: Schema, child: Json)
  {
    "$ref" in s && s["$ref"].Str? && Resolve(root, s["$ref"].s).Some? && child == Resolve(root, s["$ref"].s).value.value
  }

  /** The subschemas that speak about the value itself, where they apply. */
  ghost predicate SpeaksInPlace(root: Json, s: Schema, inst: Json, says: Answers, child: Json)
  {
    || SpeaksWhenPresent(s, inst, child) || SpeaksConditionally(s, inst, says, child)
    || SpeaksAsBranch(s, "allOf", child) || SpeaksAsBranch(s, "anyOf", child) || SpeaksAsBranch(s, "oneOf", child)
    || SpeaksByReference(root, s, child)
  }

  ghost predicate NameIsEvaluated(root: Json, assertions: Assertions, s: Schema, inst: Json, says: Answers, n: string)
  {
    || (n in MembersOf(inst) && (n in MembersAt(s, "properties") || PatternMatched(assertions, s, n) || "additionalProperties" in s))
    || exists child :: SpeaksInPlace(root, s, inst, says, child) && says(child, inst).valid && n in says(child, inst).members
  }

  ghost predicate ItemIsEvaluated(root: Json, s: Schema, inst: Json, says: Answers, i: nat)
  {
    || (i < |ItemsOf(inst)| && (i < |ItemsAt(s, "prefixItems")| || "items" in s || i in Contained(s, inst, says)))
    || exists child :: SpeaksInPlace(root, s, inst, says, child) && says(child, inst).valid && i in says(child, inst).items
  }

  ghost predicate UnevaluatedMembersHold(root: Json, assertions: Assertions, s: Schema, inst: Json, says: Answers)
  {
    "unevaluatedProperties" in s ==>
      forall n | n in MembersOf(inst) && !NameIsEvaluated(root, assertions, s, inst, says, n) ::
        says(s["unevaluatedProperties"], MembersOf(inst)[n]).valid
  }

  ghost predicate UnevaluatedItemsHold(root: Json, s: Schema, inst: Json, says: Answers)
  {
    "unevaluatedItems" in s ==>
      forall i: nat | i < |ItemsOf(inst)| && !ItemIsEvaluated(root, s, inst, says, i) ::
        says(s["unevaluatedItems"], ItemsOf(inst)[i]).valid
  }

  ghost predicate UnevaluatedHold(root: Json, assertions: Assertions, s: Schema, inst: Json, says: Answers)
  {
    UnevaluatedMembersHold(root, assertions, s, inst, says) && UnevaluatedItemsHold(root, s, inst, says)
  }

  // ---------- a schema object ----------

  /** The schema object holds of the value, `says` telling what its subschemas say. */
  ghost predicate Holds(root: Json, assertions: Assertions, s: Schema, inst: Json, says: Answers)
  {
    && AssertionsHold(assertions, s, inst)
    && PropertiesHold(s, inst, says) && DependentsHold(s, inst, says) && AdditionalHold(assertions, s, inst, says) && NamesHold(s, inst, says)
    && PrefixHolds(s, inst, says) && RestHolds(s, inst, says) && ContainsEnough(s, inst, says)
    && NotHolds(s, inst, says) && ConditionHolds(s, inst, says)
    && AllHold(s, inst, says) && AnyHolds(s, inst, says) && ExactlyOneHolds(s, inst, says) && ReferenceHolds(root, s, inst, says)
    && UnevaluatedHold(root, assertions, s, inst, says)
  }

  ghost function Below(root: Json, assertions: Assertions, fuel: nat): Answers
  {
    (child: Json, part: Json) => Eval(root, assertions, child, part, fuel)
  }

  // ---------- one edge ----------

  /** What an edge answers is what the subschema it leads to says of the part. */
  lemma EdgeSays(root: Json, assertions: Assertions, s: Schema, inst: Json, fuel: nat, e: InstanceEdge)
    ensures Target(root, s, e.edge).Some? ==>
              EvalEdges(root, assertions, s, inst, fuel)(e) == Below(root, assertions, fuel)(Target(root, s, e.edge).value, Select(inst, e.part))
    ensures Target(root, s, e.edge).None? ==> EvalEdges(root, assertions, s, inst, fuel)(e) == FAILED
  {
    hide Eval, Target, Select;
  }

  /** The applied edges of one keyword are all valid. */
  ghost predicate KeywordHolds(assertions: Assertions, s: Schema, inst: Json, sub: InstanceEdge -> Outcome, k: Keyword)
  {
    forall e | e in InstanceEdgesUnder(s, k, inst) && e in Applied(assertions, s, inst, sub) :: sub(e).valid
  }

  lemma ConjunctionByKeyword(assertions: Assertions, s: Schema, inst: Json, sub: InstanceEdge -> Outcome)
    ensures ConjunctionHolds(assertions, s, inst, sub) <==>
            && KeywordHolds(assertions, s, inst, sub, Properties) && KeywordHolds(assertions, s, inst, sub, DependentSchemas)
            && KeywordHolds(assertions, s, inst, sub, AdditionalProperties) && KeywordHolds(assertions, s, inst, sub, PropertyNames)
            && KeywordHolds(assertions, s, inst, sub, PrefixItems) && KeywordHolds(assertions, s, inst, sub, Items)
            && KeywordHolds(assertions, s, inst, sub, AllOf) && KeywordHolds(assertions, s, inst, sub, Ref)
            && KeywordHolds(assertions, s, inst, sub, Then) && KeywordHolds(assertions, s, inst, sub, Else)
            && KeywordHolds(assertions, s, inst, sub, UnevaluatedProperties) && KeywordHolds(assertions, s, inst, sub, UnevaluatedItems)
  {
    hide InstanceEdgesUnder, InstanceEdges, EvaluatedMembers, EvaluatedItems, Branch;
    forall k, e | e in InstanceEdgesUnder(s, k, inst) ensures e.edge.keyword == k {
      InstanceEdgesKnowTheirKeyword(s, k, inst);
    }
    forall e | e in Applied(assertions, s, inst, sub) ensures e in InstanceEdgesUnder(s, e.edge.keyword, inst) {
      EdgesAreUnder(s, inst, e);
    }
  }

  lemma EdgesAreUnder(s: Schema, inst: Json, e: InstanceEdge)
    requires e in InstanceEdges(s, inst)
    ensures e in InstanceEdgesUnder(s, e.edge.keyword, inst)
  {
    hide InstanceEdgesUnder;
  }

  /** An edge of an unconditional keyword is applied. */
  lemma PlainIsApplied(assertions: Assertions, s: Schema, inst: Json, sub: InstanceEdge -> Outcome, k: Keyword, e: InstanceEdge)
    requires WorkKeyword(k) && e in InstanceEdgesUnder(s, k, inst)
    ensures e.edge.keyword == k
    ensures k !in {Then, Else, AdditionalProperties, UnevaluatedProperties, UnevaluatedItems} ==> e in Applied(assertions, s, inst, sub)
    ensures k == AdditionalProperties && e.part.Member? ==>
              (e in Applied(assertions, s, inst, sub) <==> !PatternMatched(assertions, s, e.part.name))
    ensures k == UnevaluatedProperties && e.part.Member? ==>
              (e in Applied(assertions, s, inst, sub) <==> e.part.name !in EvaluatedMembers(assertions, s, inst, sub))
    ensures k == UnevaluatedItems && e.part.Element? ==>
              (e in Applied(assertions, s, inst, sub) <==> e.part.index !in EvaluatedItems(s, inst, sub))
    ensures k == Then ==> (e in Applied(assertions, s, inst, sub) <==> Has(s, If) && sub(At(Single(If), Self)).valid)
    ensures k == Else ==> (e in Applied(assertions, s, inst, sub) <==> Has(s, If) && !sub(At(Single(If), Self)).valid)
  {
    hide InstanceEdgesUnder, InstanceEdges, EvaluatedMembers, EvaluatedItems, PatternMatched;
    ListedEdge(s, inst, k, e);
  }

  // ---------- keyword by keyword ----------

  lemma PropertiesIff(root: Json, assertions: Assertions, s: Schema, inst: Json, fuel: nat)
    ensures KeywordHolds(assertions, s, inst, EvalEdges(root, assertions, s, inst, fuel), Properties) <==>
            PropertiesHold(s, inst, Below(root, assertions, fuel))
    ensures KeywordHolds(assertions, s, inst, EvalEdges(root, assertions, s, inst, fuel), DependentSchemas) <==>
            DependentsHold(s, inst, Below(root, assertions, fuel))
  {
    hide Eval, Text, Applied, EvaluatedMembers, EvaluatedItems, EvalEdges, Below;
    KeywordTexts();
    var sub := EvalEdges(root, assertions, s, inst, fuel);
    forall n | n in MembersAt(s, "properties") && n in MembersOf(inst)
      ensures At(Named(Properties, n), Member(n)) in InstanceEdgesUnder(s, Properties, inst)
      ensures At(Named(Properties, n), Member(n)) in Applied(assertions, s, inst, sub)
      ensures sub(At(Named(Properties, n), Member(n))) == Below(root, assertions, fuel)(MembersAt(s, "properties")[n], MembersOf(inst)[n])
    {
      PlainIsApplied(assertions, s, inst, sub, Properties, At(Named(Properties, n), Member(n)));
      EdgeSays(root, assertions, s, inst, fuel, At(Named(Properties, n), Member(n)));
    }
    forall n | n in MembersAt(s, "dependentSchemas") && n in MembersOf(inst)
      ensures At(Named(DependentSchemas, n), Self) in InstanceEdgesUnder(s, DependentSchemas, inst)
      ensures At(Named(DependentSchemas, n), Self) in Applied(assertions, s, inst, sub)
      ensures sub(At(Named(DependentSchemas, n), Self)) == Below(root, assertions, fuel)(MembersAt(s, "dependentSchemas")[n], inst)
    {
      PlainIsApplied(assertions, s, inst, sub, DependentSchemas, At(Named(DependentSchemas, n), Self));
      EdgeSays(root, assertions, s, inst, fuel, At(Named(DependentSchemas, n), Self));
    }
  }

  lemma AdditionalIff(root: Json, assertions: Assertions, s: Schema, inst: Json, fuel: nat)
    ensures KeywordHolds(assertions, s, inst, EvalEdges(root, assertions, s, inst, fuel), AdditionalProperties) <==>
            AdditionalHold(assertions, s, inst, Below(root, assertions, fuel))
    ensures KeywordHolds(assertions, s, inst, EvalEdges(root, assertions, s, inst, fuel), PropertyNames) <==>
            NamesHold(s, inst, Below(root, assertions, fuel))
  {
    hide Eval, Text, Applied, EvaluatedMembers, EvaluatedItems, EvalEdges, Below, PatternMatched;
    KeywordTexts();
    var sub := EvalEdges(root, assertions, s, inst, fuel);
    if "additionalProperties" in s {
      forall n | n in MembersOf(inst) && n !in MembersAt(s, "properties")
        ensures var e := At(Single(AdditionalProperties), Member(n));
                && e in InstanceEdgesUnder(s, AdditionalProperties, inst)
                && (e in Applied(assertions, s, inst, sub) <==> !PatternMatched(assertions, s, n))
                && sub(e) == Below(root, assertions, fuel)(s["additionalProperties"], MembersOf(inst)[n])
      {
        PlainIsApplied(assertions, s, inst, sub, AdditionalProperties, At(Single(AdditionalProperties), Member(n)));
        EdgeSays(root, assertions, s, inst, fuel, At(Single(AdditionalProperties), Member(n)));
      }
    }
    if "propertyNames" in s {
      forall n | n in MembersOf(inst)
        ensures var e := At(Single(PropertyNames), NameOf(n));
                && e in InstanceEdgesUnder(s, PropertyNames, inst) && e in Applied(assertions, s, inst, sub)
                && sub(e) == Below(root, assertions, fuel)(s["propertyNames"], Str(n))
      {
        PlainIsApplied(assertions, s, inst, sub, PropertyNames, At(Single(PropertyNames), NameOf(n)));
        EdgeSays(root, assertions, s, inst, fuel, At(Single(PropertyNames), NameOf(n)));
      }
    }
  }

  lemma PositionsIff(root: Json, assertions: Assertions, s: Schema, inst: Json, fuel: nat)
    ensures KeywordHolds(assertions, s, inst, EvalEdges(root, assertions, s, inst, fuel), PrefixItems) <==>
            PrefixHolds(s, inst, Below(root, assertions, fuel))
    ensures KeywordHolds(assertions, s, inst, EvalEdges(root, assertions, s, inst, fuel), Items) <==>
            RestHolds(s, inst, Below(root, assertions, fuel))
  {
    hide Eval, Text, Applied, EvaluatedMembers, EvaluatedItems, EvalEdges, Below;
    KeywordTexts();
    var sub := EvalEdges(root, assertions, s, inst, fuel);
    forall i: nat | i < |ItemsAt(s, "prefixItems")| && i < |ItemsOf(inst)|
      ensures var e := At(Indexed(PrefixItems, i), Element(i));
              && e in InstanceEdgesUnder(s, PrefixItems, inst) && e in Applied(assertions, s, inst, sub)
              && sub(e) == Below(root, assertions, fuel)(ItemsAt(s, "prefixItems")[i], ItemsOf(inst)[i])
    {
      assert i in Indices(|ListUnder(s, PrefixItems)|);
      PlainIsApplied(assertions, s, inst, sub, PrefixItems, At(Indexed(PrefixItems, i), Element(i)));
      EdgeSays(root, assertions, s, inst, fuel, At(Indexed(PrefixItems, i), Element(i)));
    }
    if "items" in s {
      forall i: nat | |ItemsAt(s, "prefixItems")| <= i < |ItemsOf(inst)|
        ensures var e := At(Single(Items), Element(i));
                && e in InstanceEdgesUnder(s, Items, inst) && e in Applied(assertions, s, inst, sub)
                && sub(e) == Below(root, assertions, fuel)(s["items"], ItemsOf(inst)[i])
      {
        assert i in Indices(|ItemsOf(inst)|);
        PlainIsApplied(assertions, s, inst, sub, Items, At(Single(Items), Element(i)));
        EdgeSays(root, assertions, s, inst, fuel, At(Single(Items), Element(i)));
      }
    }
  }

  /** An edge that applies a keyword's only subschema to the value itself. */
  lemma SelfSays(root: Json, assertions: Assertions, s: Schema, inst: Json, fuel: nat, k: Keyword)
    requires k in {Not, If, Then, Else}
    ensures At(Single(k), Self) in InstanceEdgesUnder(s, k, inst) <==> Text(k) in s
    ensures forall e | e in InstanceEdgesUnder(s, k, inst) :: e == At(Single(k), Self)
    ensures Text(k) in s ==> EvalEdges(root, assertions, s, inst, fuel)(At(Single(k), Self)) == Below(root, assertions, fuel)(s[Text(k)], inst)
  {
    hide Text, Eval, EvalEdges, Below;
    EdgeSays(root, assertions, s, inst, fuel, At(Single(k), Self));
  }

  lemma NegationIff(root: Json, assertions: Assertions, s: Schema, inst: Json, fuel: nat)
    ensures NegationHolds(s, EvalEdges(root, assertions, s, inst, fuel)) <==> NotHolds(s, inst, Below(root, assertions, fuel))
  {
    hide Eval, Text, EvalEdges, Below, InstanceEdgesUnder;
    KeywordTexts();
    SelfSays(root, assertions, s, inst, fuel, Not);
  }

  lemma ConditionIff(root: Json, assertions: Assertions, s: Schema, inst: Json, fuel: nat)
    ensures var sub := EvalEdges(root, assertions, s, inst, fuel);
            && (KeywordHolds(assertions, s, inst, sub, Then) && KeywordHolds(assertions, s, inst, sub, Else) <==>
                ConditionHolds(s, inst, Below(root, assertions, fuel)))
            && (NegationHolds(s, sub) <==> NotHolds(s, inst, Below(root, assertions, fuel)))
  {
    hide Eval, Text, Applied, EvaluatedMembers, EvaluatedItems, EvalEdges, Below, InstanceEdgesUnder, NegationHolds, NotHolds;
    KeywordTexts();
    var sub := EvalEdges(root, assertions, s, inst, fuel);
    NegationIff(root, assertions, s, inst, fuel);
    SelfSays(root, assertions, s, inst, fuel, If);
    SelfSays(root, assertions, s, inst, fuel, Then);
    SelfSays(root, assertions, s, inst, fuel, Else);
    if "then" in s {
      PlainIsApplied(assertions, s, inst, sub, Then, At(Single(Then), Self));
    }
    if "else" in s {
      PlainIsApplied(assertions, s, inst, sub, Else, At(Single(Else), Self));
    }
  }

  lemma ReferenceIff(root: Json, assertions: Assertions, s: Schema, inst: Json, fuel: nat)
    ensures KeywordHolds(assertions, s, inst, EvalEdges(root, assertions, s, inst, fuel), Ref) <==>
            ReferenceHolds(root, s, inst, Below(root, assertions, fuel))
  {
    hide Eval, Text, Applied, EvaluatedMembers, EvaluatedItems, EvalEdges, Below, Resolve;
    KeywordTexts();
    var sub, e := EvalEdges(root, assertions, s, inst, fuel), At(Single(Ref), Self);
    EdgeSays(root, assertions, s, inst, fuel, e);
    if "$ref" in s {
      PlainIsApplied(assertions, s, inst, sub, Ref, e);
    }
  }

  lemma BranchSays(root: Json, assertions: Assertions, s: Schema, inst: Json, fuel: nat, k: Keyword, i: nat)
    requires k in {AllOf, AnyOf, OneOf} && i < |ItemsAt(s, Text(k))|
    ensures var e := At(Indexed(k, i), Self);
            && e in InstanceEdgesUnder(s, k, inst)
            && EvalEdges(root, assertions, s, inst, fuel)(e) == Below(root, assertions, fuel)(ItemsAt(s, Text(k))[i], inst)
  {
    hide Text, Eval, EvalEdges, Below;
    assert i in Indices(|ListUnder(s, k)|);
    EdgeSays(root, assertions, s, inst, fuel, At(Indexed(k, i), Self));
  }

  lemma BranchesIff(root: Json, assertions: Assertions, s: Schema, inst: Json, fuel: nat)
    ensures var sub := EvalEdges(root, assertions, s, inst, fuel);
            && (KeywordHolds(assertions, s, inst, sub, AllOf) <==> AllHold(s, inst, Below(root, assertions, fuel)))
            && (SomeBranchHolds(s, sub) <==> AnyHolds(s, inst, Below(root, assertions, fuel)))
            && (OneBranchHolds(s, sub) <==> ExactlyOneHolds(s, inst, Below(root, assertions, fuel)))
  {
    hide Eval, Text, EvalEdges, Below, Applied, InstanceEdgesUnder, KeywordHolds;
    KeywordTexts();
    var sub := EvalEdges(root, assertions, s, inst, fuel);
    forall k: Keyword, i: nat | k in {AnyOf, OneOf} && i < |ItemsAt(s, Text(k))|
      ensures sub(At(Indexed(k, i), Self)) == Below(root, assertions, fuel)(ItemsAt(s, Text(k))[i], inst)
    {
      BranchSays(root, assertions, s, inst, fuel, k, i);
    }
    AllIff(root, assertions, s, inst, fuel);
  }

  lemma AllIff(root: Json, assertions: Assertions, s: Schema, inst: Json, fuel: nat)
    ensures KeywordHolds(assertions, s, inst, EvalEdges(root, assertions, s, inst, fuel), AllOf) <==>
            AllHold(s, inst, Below(root, assertions, fuel))
  {
    hide Eval, Text, EvalEdges, Below, Applied, EvaluatedMembers, EvaluatedItems;
    KeywordTexts();
    var sub := EvalEdges(root, assertions, s, inst, fuel);
    forall i: nat | i < |ItemsAt(s, "allOf")|
      ensures var e := At(Indexed(AllOf, i), Self);
              && e in InstanceEdgesUnder(s, AllOf, inst) && e in Applied(assertions, s, inst, sub)
              && sub(e) == Below(root, assertions, fuel)(ItemsAt(s, "allOf")[i], inst)
    {
      BranchSays(root, assertions, s, inst, fuel, AllOf, i);
      PlainIsApplied(assertions, s, inst, sub, AllOf, At(Indexed(AllOf, i), Self));
    }
    forall e | e in InstanceEdgesUnder(s, AllOf, inst) ensures e.edge.Indexed? && e.edge.index < |ItemsAt(s, "allOf")| && e == At(Indexed(AllOf, e.edge.index), Self) {
    }
  }

  // ---------- contains ----------

  lemma ContainsSays(root: Json, assertions: Assertions, s: Schema, inst: Json, fuel: nat, i: nat)
    requires "contains" in s && i < |ItemsOf(inst)|
    ensures At(Single(Contains), Element(i)) in InstanceEdgesUnder(s, Contains, inst)
    ensures EvalEdges(root, assertions, s, inst, fuel)(At(Single(Contains), Element(i))) ==
            Below(root, assertions, fuel)(s["contains"], ItemsOf(inst)[i])
  {
    hide Text, Eval, EvalEdges, Below;
    KeywordTexts();
    assert i in Indices(|ItemsOf(inst)|);
    EdgeSays(root, assertions, s, inst, fuel, At(Single(Contains), Element(i)));
  }

  /** The matches of `contains` are one for each position that is accepted. */
  lemma MatchesArePositions(root: Json, assertions: Assertions, s: Schema, inst: Json, fuel: nat)
    ensures |Matches(s, inst, EvalEdges(root, assertions, s, inst, fuel))| == |Contained(s, inst, Below(root, assertions, fuel))|
  {
    hide Text, Eval, EvalEdges, Below;
    KeywordTexts();
    var sub := EvalEdges(root, assertions, s, inst, fuel);
    var positions := Contained(s, inst, Below(root, assertions, fuel));
    forall i: nat | "contains" in s && i < |ItemsOf(inst)|
      ensures sub(At(Single(Contains), Element(i))) == Below(root, assertions, fuel)(s["contains"], ItemsOf(inst)[i])
    {
      ContainsSays(root, assertions, s, inst, fuel, i);
    }
    var image := set i | i in positions :: At(Single(Contains), Element(i));
    forall e ensures e in Matches(s, inst, sub) <==> e in image {
      if e in image {
        assert e.part.index in Indices(|ItemsOf(inst)|);
      }
    }
    assert Matches(s, inst, sub) == image;
    SameSize(positions, image);
  }

  lemma {:induction false} SameSize(positions: set<nat>, image: set<InstanceEdge>)
    requires image == set i | i in positions :: At(Single(Contains), Element(i))
    ensures |image| == |positions|
    decreases positions
  {
    if positions != {} {
      var i :| i in positions;
      var rest := positions - {i};
      var edges := set j | j in rest :: At(Single(Contains), Element(j));
      SameSize(rest, edges);
      assert image == edges + {At(Single(Contains), Element(i))};
    }
  }

  lemma ContainsIff(root: Json, assertions: Assertions, s: Schema, inst: Json, fuel: nat)
    ensures ContainsHolds(s, inst, EvalEdges(root, assertions, s, inst, fuel)) <==> ContainsEnough(s, inst, Below(root, assertions, fuel))
  {
    hide Eval, EvalEdges, Below, Matches, Contained, Text;
    KeywordTexts();
    MatchesArePositions(root, assertions, s, inst, fuel);
    if "contains" in s && inst.Arr? {
      AtMostAll(s, inst, Below(root, assertions, fuel));
    }
  }

  lemma AtMostAll(s: Schema, inst: Json, says: Answers)
    ensures |Contained(s, inst, says)| <= |ItemsOf(inst)|
  {
    IndicesSize(|ItemsOf(inst)|);
    Subset(Contained(s, inst, says), Indices(|ItemsOf(inst)|));
  }

  lemma {:induction false} IndicesSize(n: nat)
    ensures |Indices(n)| == n
  {
    if n > 0 {
      IndicesSize(n - 1);
    }
  }

  lemma Subset(some: set<nat>, all: set<nat>)
    requires some <= all
    ensures |some| <= |all|
  {
    assert |all - some| + |some| == |all|;
  }

  // ---------- annotations ----------

  /** An edge of an in-place keyword that applies. */
  ghost predicate InPlaceEdge(s: Schema, inst: Json, sub: InstanceEdge -> Outcome, e: InstanceEdge)
  {
    e in InstanceEdges(s, inst) && InPlace(e.edge.keyword) && Branch(s, e.edge.keyword, sub)
  }

  lemma InPlaceSpeaks(root: Json, assertions: Assertions, s: Schema, inst: Json, fuel: nat, e: InstanceEdge)
    requires InPlaceEdge(s, inst, EvalEdges(root, assertions, s, inst, fuel), e) && Target(root, s, e.edge).Some?
    ensures e.part == Self && SpeaksInPlace(root, s, inst, Below(root, assertions, fuel), Target(root, s, e.edge).value)
  {
    hide Text, Eval, EvalEdges, Below, InstanceEdges, Resolve;
    KeywordTexts();
    EdgesAreUnder(s, inst, e);
    SelfSays(root, assertions, s, inst, fuel, If);
    match e.edge
    case Named(k, n) =>
    case Indexed(k, i) => assert ListUnder(s, k)[i] == ItemsAt(s, Text(k))[i];
    case Single(k) =>
  }

  lemma SelfListed(root: Json, s: Schema, inst: Json, k: Keyword)
    requires k in {If, Then, Else, Ref} && Text(k) in s
    ensures At(Single(k), Self) in InstanceEdges(s, inst)
    ensures k != Ref ==> Target(root, s, Single(k)) == Some(s[Text(k)])
  {
    hide Text, InstanceEdges;
    ListedEdge(s, inst, k, At(Single(k), Self));
  }

  lemma DependentListed(root: Json, s: Schema, inst: Json, n: string)
    requires n in MembersAt(s, "dependentSchemas") && n in MembersOf(inst)
    ensures At(Named(DependentSchemas, n), Self) in InstanceEdges(s, inst)
    ensures Target(root, s, Named(DependentSchemas, n)) == Some(MembersAt(s, "dependentSchemas")[n])
  {
    hide Text, InstanceEdges;
    KeywordTexts();
    ListedEdge(s, inst, DependentSchemas, At(Named(DependentSchemas, n), Self));
  }

  lemma RefTarget(root: Json, s: Schema)
    requires "$ref" in s && s["$ref"].Str? && Resolve(root, s["$ref"].s).Some?
    ensures Target(root, s, Single(Ref)) == Some(Resolve(root, s["$ref"].s).value.value)
  {
  }

  lemma ConditionalEdge(root: Json, assertions: Assertions, s: Schema, inst: Json, fuel: nat, child: Json) returns (e: InstanceEdge)
    requires SpeaksConditionally(s, inst, Below(root, assertions, fuel), child)
    ensures InPlaceEdge(s, inst, EvalEdges(root, assertions, s, inst, fuel), e)
    ensures e.part == Self && Target(root, s, e.edge) == Some(child)
  {
    hide Text, Eval, EvalEdges, Below, InstanceEdges, Target;
    KeywordTexts();
    SelfSays(root, assertions, s, inst, fuel, If);
    if child == s["if"] {
      e := At(Single(If), Self);
      SelfListed(root, s, inst, If);
    } else if Below(root, assertions, fuel)(s["if"], inst).valid {
      e := At(Single(Then), Self);
      SelfListed(root, s, inst, Then);
    } else {
      e := At(Single(Else), Self);
      SelfListed(root, s, inst, Else);
    }
  }

  lemma BranchEdge(root: Json, s: Schema, inst: Json, sub: InstanceEdge -> Outcome, k: Keyword, child: Json) returns (e: InstanceEdge)
    requires k in {AllOf, AnyOf, OneOf} && SpeaksAsBranch(s, Text(k), child)
    ensures InPlaceEdge(s, inst, sub, e) && e.part == Self && Target(root, s, e.edge) == Some(child)
  {
    hide Text, InstanceEdges, Target;
    var i: nat :| i < |ItemsAt(s, Text(k))| && child == ItemsAt(s, Text(k))[i];
    e := At(Indexed(k, i), Self);
    BranchListed(root, s, inst, k, i);
  }

  lemma ReferenceEdge(root: Json, s: Schema, inst: Json, sub: InstanceEdge -> Outcome, child: Json) returns (e: InstanceEdge)
    requires SpeaksByReference(root, s, child)
    ensures InPlaceEdge(s, inst, sub, e) && e.part == Self && Target(root, s, e.edge) == Some(child)
  {
    hide Text, InstanceEdges, Target, Resolve;
    KeywordTexts();
    e := At(Single(Ref), Self);
    SelfListed(root, s, inst, Ref);
    RefTarget(root, s);
  }

  lemma DependentEdge(root: Json, s: Schema, inst: Json, sub: InstanceEdge -> Outcome, child: Json) returns (e: InstanceEdge)
    requires SpeaksWhenPresent(s, inst, child)
    ensures InPlaceEdge(s, inst, sub, e) && e.part == Self && Target(root, s, e.edge) == Some(child)
  {
    hide InstanceEdges, Target;
    var n :| n in MembersAt(s, "dependentSchemas") && n in MembersOf(inst) && child == MembersAt(s, "dependentSchemas")[n];
    e := At(Named(DependentSchemas, n), Self);
    DependentListed(root, s, inst, n);
  }

  lemma SpeakerHasEdge(root: Json, assertions: Assertions, s: Schema, inst: Json, fuel: nat, child: Json) returns (e: InstanceEdge)
    requires SpeaksInPlace(root, s, inst, Below(root, assertions, fuel), child)
    ensures InPlaceEdge(s, inst, EvalEdges(root, assertions, s, inst, fuel), e)
    ensures e.part == Self && Target(root, s, e.edge) == Some(child)
  {
    hide Text, Eval, EvalEdges, Below, InPlaceEdge, Target, SpeaksWhenPresent, SpeaksConditionally, SpeaksAsBranch, SpeaksByReference;
    KeywordTexts();
    var sub := EvalEdges(root, assertions, s, inst, fuel);
    if SpeaksWhenPresent(s, inst, child) {
      e := DependentEdge(root, s, inst, sub, child);
    } else if SpeaksConditionally(s, inst, Below(root, assertions, fuel), child) {
      e := ConditionalEdge(root, assertions, s, inst, fuel, child);
    } else if SpeaksByReference(root, s, child) {
      e := ReferenceEdge(root, s, inst, sub, child);
    } else if SpeaksAsBranch(s, "allOf", child) {
      e := BranchEdge(root, s, inst, sub, AllOf, child);
    } else if SpeaksAsBranch(s, "anyOf", child) {
      e := BranchEdge(root, s, inst, sub, AnyOf, child);
    } else {
      e := BranchEdge(root, s, inst, sub, OneOf, child);
    }
  }

  lemma BranchListed(root: Json, s: Schema, inst: Json, k: Keyword, i: nat)
    requires k in {AllOf, AnyOf, OneOf} && i < |ItemsAt(s, Text(k))|
    ensures At(Indexed(k, i), Self) in InstanceEdges(s, inst) && Target(root, s, Indexed(k, i)) == Some(ItemsAt(s, Text(k))[i])
  {
    hide Text, InstanceEdges;
    assert i in Indices(|ListUnder(s, k)|);
    ListedEdge(s, inst, k, At(Indexed(k, i), Self));
  }

  /** A name some edge other than the unevaluated one hands to a subschema. */
  ghost predicate NameHandedOn(s: Schema, inst: Json, n: string)
  {
    exists e :: e in InstanceEdges(s, inst) && e.part == Member(n) && e.edge.keyword != UnevaluatedProperties
  }

  lemma NameEdgeCases(s: Schema, inst: Json, e: InstanceEdge, n: string)
    requires e in InstanceEdges(s, inst) && e.part == Member(n) && e.edge.keyword != UnevaluatedProperties
    ensures n in MembersOf(inst) && (n in MembersAt(s, "properties") || "additionalProperties" in s)
  {
    hide Text, InstanceEdges;
    KeywordTexts();
    EdgesAreUnder(s, inst, e);
  }

  lemma NameListed(s: Schema, inst: Json, n: string)
    requires n in MembersOf(inst)
    ensures n in MembersAt(s, "properties") ==> At(Named(Properties, n), Member(n)) in InstanceEdges(s, inst)
    ensures n !in MembersAt(s, "properties") && "additionalProperties" in s ==>
              At(Single(AdditionalProperties), Member(n)) in InstanceEdges(s, inst)
  {
    hide Text, InstanceEdges;
    KeywordTexts();
    if n in MembersAt(s, "properties") {
      ListedEdge(s, inst, Properties, At(Named(Properties, n), Member(n)));
    } else if "additionalProperties" in s {
      ListedEdge(s, inst, AdditionalProperties, At(Single(AdditionalProperties), Member(n)));
    }
  }

  lemma NameHandedOnIff(s: Schema, inst: Json, n: string)
    ensures NameHandedOn(s, inst, n) <==> n in MembersOf(inst) && (n in MembersAt(s, "properties") || "additionalProperties" in s)
  {
    hide InstanceEdges, MembersAt;
    if e :| e in InstanceEdges(s, inst) && e.part == Member(n) && e.edge.keyword != UnevaluatedProperties {
      NameEdgeCases(s, inst, e, n);
    }
    if n in MembersOf(inst) {
      NameListed(s, inst, n);
    }
  }

  lemma EvaluatedNamesIff(root: Json, assertions: Assertions, s: Schema, inst: Json, fuel: nat, n: string)
    ensures n in EvaluatedMembers(assertions, s, inst, EvalEdges(root, assertions, s, inst, fuel)) <==>
            NameIsEvaluated(root, assertions, s, inst, Below(root, assertions, fuel), n)
  {
    hide Text, Eval, EvalEdges, Below, InstanceEdges, SpeaksInPlace, PatternMatched, Branch, Target;
    var sub, says := EvalEdges(root, assertions, s, inst, fuel), Below(root, assertions, fuel);
    NameHandedOnIff(s, inst, n);
    forall e | InPlaceEdge(s, inst, sub, e) && sub(e).valid
      ensures exists child :: SpeaksInPlace(root, s, inst, says, child) && says(child, inst) == sub(e)
    {
      SpeakerOf(root, assertions, s, inst, fuel, e);
    }
    forall child | SpeaksInPlace(root, s, inst, says, child)
      ensures exists e :: InPlaceEdge(s, inst, sub, e) && sub(e) == says(child, inst)
    {
      EdgeOf(root, assertions, s, inst, fuel, child);
    }
    NamesThrough(root, assertions, s, inst, fuel, n);
  }

  lemma SpeakerOf(root: Json, assertions: Assertions, s: Schema, inst: Json, fuel: nat, e: InstanceEdge)
    requires InPlaceEdge(s, inst, EvalEdges(root, assertions, s, inst, fuel), e) && EvalEdges(root, assertions, s, inst, fuel)(e).valid
    ensures exists child ::
              SpeaksInPlace(root, s, inst, Below(root, assertions, fuel), child)
              && Below(root, assertions, fuel)(child, inst) == EvalEdges(root, assertions, s, inst, fuel)(e)
  {
    hide Text, Eval, EvalEdges, Below, InPlaceEdge, SpeaksInPlace, Target;
    EdgeSays(root, assertions, s, inst, fuel, e);
    InPlaceSpeaks(root, assertions, s, inst, fuel, e);
    assert Select(inst, e.part) == inst;
  }

  lemma EdgeOf(root: Json, assertions: Assertions, s: Schema, inst: Json, fuel: nat, child: Json)
    requires SpeaksInPlace(root, s, inst, Below(root, assertions, fuel), child)
    ensures exists e ::
              InPlaceEdge(s, inst, EvalEdges(root, assertions, s, inst, fuel), e)
              && EvalEdges(root, assertions, s, inst, fuel)(e) == Below(root, assertions, fuel)(child, inst)
  {
    hide Text, Eval, EvalEdges, Below, InPlaceEdge, SpeaksInPlace, Target;
    var e := SpeakerHasEdge(root, assertions, s, inst, fuel, child);
    EdgeSays(root, assertions, s, inst, fuel, e);
    assert Select(inst, e.part) == inst;
  }

  lemma NamesThrough(root: Json, assertions: Assertions, s: Schema, inst: Json, fuel: nat, n: string)
    ensures var sub := EvalEdges(root, assertions, s, inst, fuel);
            n in EvaluatedMembers(assertions, s, inst, sub) <==>
            || (n in MembersOf(inst) && PatternMatched(assertions, s, n))
            || NameHandedOn(s, inst, n)
            || exists e :: InPlaceEdge(s, inst, sub, e) && sub(e).valid && n in sub(e).members
  {
    hide Text, Eval, EvalEdges, InstanceEdges, PatternMatched, Branch;
  }

  /** A position some edge other than the unevaluated one hands to a subschema that
      counts it: every one but a `contains` that refuses. */
  ghost predicate ItemHandedOn(s: Schema, inst: Json, sub: InstanceEdge -> Outcome, i: nat)
  {
    exists e :: e in InstanceEdges(s, inst) && e.part == Element(i) && e.edge.keyword != UnevaluatedItems
                && (e.edge.keyword == Contains ==> sub(e).valid)
  }

  lemma ItemEdgeCases(s: Schema, inst: Json, e: InstanceEdge, i: nat)
    requires e in InstanceEdges(s, inst) && e.part == Element(i) && e.edge.keyword != UnevaluatedItems
    ensures i < |ItemsOf(inst)|
    ensures || (e.edge.keyword == PrefixItems && i < |ItemsAt(s, "prefixItems")|)
            || (e.edge.keyword == Items && "items" in s)
            || (e == At(Single(Contains), Element(i)) && "contains" in s)
  {
    hide Text, InstanceEdges;
    KeywordTexts();
    EdgesAreUnder(s, inst, e);
  }

  lemma ItemListed(s: Schema, inst: Json, i: nat)
    requires i < |ItemsOf(inst)|
    ensures i < |ItemsAt(s, "prefixItems")| ==> At(Indexed(PrefixItems, i), Element(i)) in InstanceEdges(s, inst)
    ensures i >= |ItemsAt(s, "prefixItems")| && "items" in s ==> At(Single(Items), Element(i)) in InstanceEdges(s, inst)
    ensures "contains" in s ==> At(Single(Contains), Element(i)) in InstanceEdges(s, inst)
  {
    hide Text, InstanceEdges;
    KeywordTexts();
    assert i in Indices(|ItemsOf(inst)|);
    if i < |ItemsAt(s, "prefixItems")| {
      assert i in Indices(|ListUnder(s, PrefixItems)|);
      ListedEdge(s, inst, PrefixItems, At(Indexed(PrefixItems, i), Element(i)));
    } else if "items" in s {
      ListedEdge(s, inst, Items, At(Single(Items), Element(i)));
    }
    if "contains" in s {
      ListedEdge(s, inst, Contains, At(Single(Contains), Element(i)));
    }
  }

  lemma ItemHandedOnIff(root: Json, assertions: Assertions, s: Schema, inst: Json, fuel: nat, i: nat)
    ensures ItemHandedOn(s, inst, EvalEdges(root, assertions, s, inst, fuel), i) <==>
            i < |ItemsOf(inst)|
            && (i < |ItemsAt(s, "prefixItems")| || "items" in s || i in Contained(s, inst, Below(root, assertions, fuel)))
  {
    hide Text, InstanceEdges, Eval, EvalEdges, Below, ItemsAt;
    var sub := EvalEdges(root, assertions, s, inst, fuel);
    if "contains" in s && i < |ItemsOf(inst)| {
      ContainsSays(root, assertions, s, inst, fuel, i);
    }
    if e :| e in InstanceEdges(s, inst) && e.part == Element(i) && e.edge.keyword != UnevaluatedItems && (e.edge.keyword == Contains ==> sub(e).valid) {
      ItemEdgeCases(s, inst, e, i);
    }
    if i < |ItemsOf(inst)| {
      ItemListed(s, inst, i);
    }
  }

  lemma EvaluatedPositionsIff(root: Json, assertions: Assertions, s: Schema, inst: Json, fuel: nat, i: nat)
    ensures i in EvaluatedItems(s, inst, EvalEdges(root, assertions, s, inst, fuel)) <==>
            ItemIsEvaluated(root, s, inst, Below(root, assertions, fuel), i)
  {
    hide Text, Eval, EvalEdges, Below, InstanceEdges, SpeaksInPlace, Branch, Target, Contained;
    var sub, says := EvalEdges(root, assertions, s, inst, fuel), Below(root, assertions, fuel);
    ItemHandedOnIff(root, assertions, s, inst, fuel, i);
    forall e | InPlaceEdge(s, inst, sub, e) && sub(e).valid
      ensures exists child :: SpeaksInPlace(root, s, inst, says, child) && says(child, inst) == sub(e)
    {
      SpeakerOf(root, assertions, s, inst, fuel, e);
    }
    forall child | SpeaksInPlace(root, s, inst, says, child)
      ensures exists e :: InPlaceEdge(s, inst, sub, e) && sub(e) == says(child, inst)
    {
      EdgeOf(root, assertions, s, inst, fuel, child);
    }
    PositionsThrough(root, assertions, s, inst, fuel, i);
  }

  lemma PositionsThrough(root: Json, assertions: Assertions, s: Schema, inst: Json, fuel: nat, i: nat)
    ensures var sub := EvalEdges(root, assertions, s, inst, fuel);
            i in EvaluatedItems(s, inst, sub) <==>
            ItemHandedOn(s, inst, sub, i) || exists e :: InPlaceEdge(s, inst, sub, e) && sub(e).valid && i in sub(e).items
  {
    hide Text, Eval, EvalEdges, InstanceEdges, Branch, InPlace;
    var sub := EvalEdges(root, assertions, s, inst, fuel);
    if ItemHandedOn(s, inst, sub, i) {
      var e :| e in InstanceEdges(s, inst) && e.part == Element(i) && e.edge.keyword != UnevaluatedItems && (e.edge.keyword == Contains ==> sub(e).valid);
      assert e.part.index == i && i in EvaluatedItems(s, inst, sub);
    }
  }

  lemma UnevaluatedMembersIff(root: Json, assertions: Assertions, s: Schema, inst: Json, fuel: nat)
    ensures KeywordHolds(assertions, s, inst, EvalEdges(root, assertions, s, inst, fuel), UnevaluatedProperties) <==>
            UnevaluatedMembersHold(root, assertions, s, inst, Below(root, assertions, fuel))
  {
    hide Eval, Text, Applied, EvaluatedMembers, EvaluatedItems, EvalEdges, Below, NameIsEvaluated, ItemIsEvaluated;
    KeywordTexts();
    var sub, says := EvalEdges(root, assertions, s, inst, fuel), Below(root, assertions, fuel);
    if "unevaluatedProperties" in s {
      forall n | n in MembersOf(inst)
        ensures var e := At(Single(UnevaluatedProperties), Member(n));
                && e in InstanceEdgesUnder(s, UnevaluatedProperties, inst)
                && (e in Applied(assertions, s, inst, sub) <==> !NameIsEvaluated(root, assertions, s, inst, says, n))
                && sub(e) == says(s["unevaluatedProperties"], MembersOf(inst)[n])
      {
        PlainIsApplied(assertions, s, inst, sub, UnevaluatedProperties, At(Single(UnevaluatedProperties), Member(n)));
        EdgeSays(root, assertions, s, inst, fuel, At(Single(UnevaluatedProperties), Member(n)));
        EvaluatedNamesIff(root, assertions, s, inst, fuel, n);
      }
    }
  }

  lemma UnevaluatedItemsIff(root: Json, assertions: Assertions, s: Schema, inst: Json, fuel: nat)
    ensures KeywordHolds(assertions, s, inst, EvalEdges(root, assertions, s, inst, fuel), UnevaluatedItems) <==>
            UnevaluatedItemsHold(root, s, inst, Below(root, assertions, fuel))
  {
    hide Eval, Text, Applied, EvaluatedMembers, EvaluatedItems, EvalEdges, Below, NameIsEvaluated, ItemIsEvaluated;
    KeywordTexts();
    var sub, says := EvalEdges(root, assertions, s, inst, fuel), Below(root, assertions, fuel);
    if "unevaluatedItems" in s {
      forall i: nat | i < |ItemsOf(inst)|
        ensures var e := At(Single(UnevaluatedItems), Element(i));
                && e in InstanceEdgesUnder(s, UnevaluatedItems, inst)
                && (e in Applied(assertions, s, inst, sub) <==> !ItemIsEvaluated(root, s, inst, says, i))
                && sub(e) == says(s["unevaluatedItems"], ItemsOf(inst)[i])
      {
        assert i in Indices(|ItemsOf(inst)|);
        PlainIsApplied(assertions, s, inst, sub, UnevaluatedItems, At(Single(UnevaluatedItems), Element(i)));
        EdgeSays(root, assertions, s, inst, fuel, At(Single(UnevaluatedItems), Element(i)));
        EvaluatedPositionsIff(root, assertions, s, inst, fuel, i);
      }
    }
  }

  lemma UnevaluatedIff(root: Json, assertions: Assertions, s: Schema, inst: Json, fuel: nat)
    ensures var sub := EvalEdges(root, assertions, s, inst, fuel);
            KeywordHolds(assertions, s, inst, sub, UnevaluatedProperties) && KeywordHolds(assertions, s, inst, sub, UnevaluatedItems) <==>
            UnevaluatedHold(root, assertions, s, inst, Below(root, assertions, fuel))
  {
    hide KeywordHolds, EvalEdges, Below, UnevaluatedMembersHold, UnevaluatedItemsHold;
    UnevaluatedMembersIff(root, assertions, s, inst, fuel);
    UnevaluatedItemsIff(root, assertions, s, inst, fuel);
  }

  // ---------- the whole evaluator ----------

  /** A schema object accepts a value if and only if every keyword of the document
      holds of it, as the specification reads it. */
  lemma AcceptsByRules(root: Json, assertions: Assertions, s: Schema, inst: Json, fuel: nat)
    requires fuel > 0
    ensures Accepts(root, assertions, Obj(s), inst, fuel) <==> Holds(root, assertions, s, inst, Below(root, assertions, fuel - 1))
  {
    hide AssertionsHold, ConjunctionHolds, NegationHolds, SomeBranchHolds, OneBranchHolds, ContainsHolds, KeywordHolds,
         PropertiesHold, DependentsHold, AdditionalHold, NamesHold, PrefixHolds, RestHolds, ContainsEnough, NotHolds, ConditionHolds,
         AllHold, AnyHolds, ExactlyOneHolds, ReferenceHolds, UnevaluatedHold, EvaluatedMembers, EvaluatedItems, Applied, EvalEdges, Below;
    var sub := EvalEdges(root, assertions, s, inst, fuel - 1);
    assert Accepts(root, assertions, Obj(s), inst, fuel) <==> AssertionsHold(assertions, s, inst) && ApplicatorsHold(assertions, s, inst, sub);
    ConjunctionByKeyword(assertions, s, inst, sub);
    PropertiesIff(root, assertions, s, inst, fuel - 1);
    AdditionalIff(root, assertions, s, inst, fuel - 1);
    PositionsIff(root, assertions, s, inst, fuel - 1);
    ConditionIff(root, assertions, s, inst, fuel - 1);
    ReferenceIff(root, assertions, s, inst, fuel - 1);
    BranchesIff(root, assertions, s, inst, fuel - 1);
    ContainsIff(root, assertions, s, inst, fuel - 1);
    UnevaluatedIff(root, assertions, s, inst, fuel - 1);
  }

  /** A boolean schema accepts everything or nothing, and nothing else is a schema. */
  lemma AcceptsPlain(root: Json, assertions: Assertions, v: Json, inst: Json, fuel: nat)
    requires fuel > 0 && !v.Obj?
    ensures Accepts(root, assertions, v, inst, fuel) <==> v == Bool(true)
  {
  }
}
