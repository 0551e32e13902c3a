/** What the closure proof guarantees about instances: in every instance a proved
    schema accepts, each nested object is accepted by a visited node that has it as
    a literal, or declares all its names, or is a map under the reviewed key policy. */
module AdmissionSoundness {
  import opened Wrappers
  import opened JsonModel
  import opened FiniteSums
  import opened SchemaGraph
  import opened Pointers
  import opened Closure
  import opened ProofGraph
  import opened Evaluator

  /** A node the proof visits below `top`. */
  ghost predicate Reaches(root: Json, top: Json, w: Json)
  {
    exists path :: Follow(root, top, path) == Some(w)
  }

  ghost predicate LiteralOf(s: Schema, inst: Json)
  {
    ("const" in s && s["const"] == inst) || ("enum" in s && s["enum"].Arr? && inst in s["enum"].items)
  }

  ghost predicate DeclaredNames(s: Schema, names: set<string>)
  {
    Get(s, Text(AdditionalProperties)) == Bool(false) && names <= NamesUnder(s, Properties).Keys
  }

  ghost predicate PolicyKeys(assertions: Assertions, names: set<string>)
  {
    forall n | n in names :: assertions.pattern(MAP_KEY_PATTERN, n)
  }

  /** A typed map: additional members under a schema, names under the key policy. */
  predicate TypedMap(s: Schema)
  {
    Get(s, Text(AdditionalProperties)).Obj? && PortableMapKeys(Get(s, Text(PropertyNames)))
  }

  /** A visited node that accepts the instance. */
  ghost predicate AcceptsHere(root: Json, assertions: Assertions, top: Json, s: Schema, inst: Json, steps: nat)
  {
    Reaches(root, top, Obj(s)) && Accepts(root, assertions, Obj(s), inst, steps)
  }

  /** A visited node accepts the instance as one of its literals. */
  ghost predicate IsLiteral(root: Json, assertions: Assertions, top: Json, inst: Json)
  {
    exists s: Schema, steps: nat :: AcceptsHere(root, assertions, top, s, inst, steps) && LiteralOf(s, inst)
  }

  /** The node accepts the object and closes its names: it declares them all, or it
      is a typed map and they follow the key policy. */
  ghost predicate ClosedBy(root: Json, assertions: Assertions, top: Json, s: Schema, inst: Json, steps: nat)
    requires inst.Obj?
  {
    && AcceptsHere(root, assertions, top, s, inst, steps)
    && (DeclaredNames(s, inst.members.Keys) || (TypedMap(s) && PolicyKeys(assertions, inst.members.Keys)))
  }

  ghost predicate IsClosed(root: Json, assertions: Assertions, top: Json, inst: Json)
    requires inst.Obj?
  {
    exists s: Schema, steps: nat :: ClosedBy(root, assertions, top, s, inst, steps)
  }

  /** Every object in the instance is accepted by a visited node as a literal, or is
      closed by a visited node that accepts it. */
  ghost predicate Governed(root: Json, assertions: Assertions, top: Json, inst: Json)
  {
    match inst
    case Obj(members) =>
      IsLiteral(root, assertions, top, inst)
      || (IsClosed(root, assertions, top, inst)
          && forall n | n in members :: Governed(root, assertions, top, members[n]))
    case Arr(items) =>
      IsLiteral(root, assertions, top, inst)
      || forall i | 0 <= i < |items| :: Governed(root, assertions, top, items[i])
    case _ => true
  }

  /** The conclusion is not free: an open schema governs no object at all, whatever
      its names are. */
  lemma OpenSchemaGovernsNothing(assertions: Assertions, members: map<string, Json>)
    ensures !Governed(Obj(map[]), assertions, Obj(map[]), Obj(members))
  {
    var top := Obj(map[]);
    forall s: Schema | Reaches(top, top, Obj(s)) ensures s == map[] {
      var path :| Follow(top, top, path) == Some(Obj(s));
      EmptyHasNoEdges();
    }
  }

  lemma EmptyHasNoEdges()
    ensures forall e :: !ProofEdge(map[], e)
  {
  }

  lemma ReachesChild(root: Json, top: Json, s: Schema, e: Edge)
    requires Reaches(root, top, Obj(s)) && !ExactObjectConst(s)
    requires ProofEdge(s, e) && Target(root, s, e).Some?
    ensures Reaches(root, top, Target(root, s, e).value)
  {
    hide ProofEdge, Target;
    var path :| Follow(root, top, path) == Some(Obj(s));
    FollowConcat(root, top, path, [e]);
    assert [e][1..] == [];
    assert Follow(root, Obj(s), [e]) == Follow(root, Target(root, s, e).value, []);
    assert Follow(root, top, path + [e]) == Some(Target(root, s, e).value);
  }

  // ---------- reading an acceptance ----------

  lemma AcceptUnfold(root: Json, assertions: Assertions, s: Schema, inst: Json, fuel: nat)
    requires Accepts(root, assertions, Obj(s), inst, fuel)
    ensures fuel > 0 && AssertionsHold(assertions, s, inst)
    ensures ApplicatorsHold(assertions, s, inst, EvalEdges(root, assertions, s, inst, fuel - 1))
  {
    hide AssertionsHold, ApplicatorsHold, EvaluatedMembers, EvaluatedItems, Applied;
  }

  /** An instance edge under a keyword whose applications must all be valid,
      other than the conditional and the unevaluated ones. */
  ghost predicate Binding(k: Keyword)
  {
    k in {Properties, AdditionalProperties, PropertyNames, PrefixItems, Items, AllOf, Ref}
  }

  lemma EvaluatedKeyword(k: Keyword)
    requires Binding(k)
    ensures k in EVALUATED_KEYWORDS
  {
    var ks := EVALUATED_KEYWORDS;
    assert ks[0] == Properties && ks[2] == AdditionalProperties && ks[3] == PropertyNames && ks[5] == PrefixItems
           && ks[6] == Items && ks[13] == AllOf && ks[16] == Ref;
  }

  lemma BindingEdgeAccepts(root: Json, assertions: Assertions, s: Schema, inst: Json, fuel: nat, e: InstanceEdge)
    requires Accepts(root, assertions, Obj(s), inst, fuel)
    requires Binding(e.edge.keyword) && e in InstanceEdgesUnder(s, e.edge.keyword, inst)
    requires Target(root, s, e.edge).Some? && (e.edge.keyword == AdditionalProperties ==> "patternProperties" !in s)
    ensures fuel > 0
    ensures Accepts(root, assertions, Target(root, s, e.edge).value, Select(inst, e.part), fuel - 1)
  {
    hide AssertionsHold, EvaluatedMembers, EvaluatedItems, InstanceEdgesUnder, Target, Eval, Applied, Branch, InstanceEdges;
    AcceptUnfold(root, assertions, s, inst, fuel);
    EvaluatedKeyword(e.edge.keyword);
    var sub := EvalEdges(root, assertions, s, inst, fuel - 1);
    BindingIsApplied(assertions, s, inst, sub, e);
    assert Conjunctive(e.edge.keyword);
    assert sub(e).valid;
  }

  lemma BindingIsApplied(assertions: Assertions, s: Schema, inst: Json, sub: InstanceEdge -> Outcome, e: InstanceEdge)
    requires Binding(e.edge.keyword) && e in InstanceEdgesUnder(s, e.edge.keyword, inst)
    requires e.edge.keyword == AdditionalProperties ==> "patternProperties" !in s
    ensures e in Applied(assertions, s, inst, sub)
  {
    hide EvaluatedMembers, EvaluatedItems, InstanceEdgesUnder;
    EvaluatedKeyword(e.edge.keyword);
    if e.edge.keyword == AdditionalProperties {
      AdditionalPart(s, inst, e);
    }
  }

  lemma AdditionalPart(s: Schema, inst: Json, e: InstanceEdge)
    requires e in InstanceEdgesUnder(s, AdditionalProperties, inst)
    ensures e.part.Member?
  {
  }

  // ---------- the induction ----------

  /** A proved schema that accepts an instance governs it, and accepts no object
      at all if its admission is excluded. */
  lemma {:induction false} AdmissionSound(
      root: Json, policy: Policy, assertions: Assertions, top: Json, v: Json, inst: Json, fuel: nat, steps: nat)
    requires Proved(root, policy, v, fuel) && Accepts(root, assertions, v, inst, steps)
    requires Reaches(root, top, v)
    ensures Governed(root, assertions, top, inst)
    ensures Prove(root, policy, v, fuel) == Some(Excluded) ==> !inst.Obj?
    decreases fuel, 4
  {
    hide LocalOk, ChildrenProved, NodeAdmission, ExactObjectConst, Combine, Reaches, ExcludingEdges;
    match v
    case Obj(s) =>
      AcceptUnfold(root, assertions, s, inst, steps);
      if ExactObjectConst(s) {
        ExactConstSound(root, assertions, top, s, inst, steps);
      } else {
        NodeGoverned(root, policy, assertions, top, s, inst, fuel, steps);
        if Prove(root, policy, v, fuel) == Some(Excluded) {
          NodeExcluded(root, policy, assertions, top, s, inst, fuel, steps);
        }
      }
    case _ =>
  }

  /** An accepting node that is proved within `fuel` and visited below `top`. */
  ghost predicate AcceptingNode(root: Json, policy: Policy, assertions: Assertions, top: Json, s: Schema, inst: Json, fuel: nat, steps: nat)
  {
    && !ExactObjectConst(s) && Proved(root, policy, Obj(s), fuel)
    && Accepts(root, assertions, Obj(s), inst, steps) && Reaches(root, top, Obj(s))
  }

  lemma ExactConstSound(root: Json, assertions: Assertions, top: Json, s: Schema, inst: Json, steps: nat)
    requires ExactObjectConst(s) && AcceptsHere(root, assertions, top, s, inst, steps)
    ensures Governed(root, assertions, top, inst)
  {
    hide AcceptsHere;
    assert AssertionsHold(assertions, s, inst) by { AcceptedAsserts(root, assertions, top, s, inst, steps); }
    LiteralGoverned(root, assertions, top, s, inst, steps);
  }

  lemma AcceptedAsserts(root: Json, assertions: Assertions, top: Json, s: Schema, inst: Json, steps: nat)
    requires AcceptsHere(root, assertions, top, s, inst, steps)
    ensures AssertionsHold(assertions, s, inst)
  {
    AcceptUnfold(root, assertions, s, inst, steps);
  }

  lemma {:induction false} EdgeSound(
      root: Json, policy: Policy, assertions: Assertions, top: Json, s: Schema, inst: Json, fuel: nat, steps: nat, e: InstanceEdge)
    requires AcceptingNode(root, policy, assertions, top, s, inst, fuel, steps)
    requires Binding(e.edge.keyword) && e in InstanceEdgesUnder(s, e.edge.keyword, inst) && ProofEdge(s, e.edge)
    ensures Governed(root, assertions, top, Select(inst, e.part))
    ensures ExcludingEdges(root, policy, s, fuel)(e.edge) ==> !Select(inst, e.part).Obj?
    decreases fuel, 0
  {
    hide Prove, Accepts, Reaches, ProofEdge, Target, Governed, ExactObjectConst, InstanceEdgesUnder;
    ProvedChild(root, policy, s, e.edge, fuel);
    ReachesChild(root, top, s, e.edge);
    NoPatterns(root, policy, s, fuel);
    BindingEdgeAccepts(root, assertions, s, inst, steps, e);
    AdmissionSound(root, policy, assertions, top, Target(root, s, e.edge).value, Select(inst, e.part), fuel - 1, steps - 1);
  }

  /** The proof refuses `patternProperties`, which would let undeclared names in. */
  lemma NoPatterns(root: Json, policy: Policy, s: Schema, fuel: nat)
    requires Proved(root, policy, Obj(s), fuel)
    ensures "patternProperties" !in s
  {
    hide ChildrenProved, ExcludingEdges, NamesOk, TypesOk, EnumOk, ShapeOk;
    assert FORBIDDEN_KEYWORDS[0] == "patternProperties";
  }

  lemma AcceptingBranch(assertions: Assertions, s: Schema, inst: Json, sub: InstanceEdge -> Outcome, k: Keyword) returns (i: nat)
    requires ApplicatorsHold(assertions, s, inst, sub) && k in {AnyOf, OneOf} && Has(s, k)
    ensures i < |ListUnder(s, k)| && sub(At(Indexed(k, i), Self)).valid
  {
    hide Applied, Matches;
    i :| 0 <= i < |ListUnder(s, k)| && sub(At(Indexed(k, i), Self)).valid;
  }

  /** Some branch of `anyOf` or `oneOf` accepts the instance. */
  lemma {:induction false} BranchSound(
      root: Json, policy: Policy, assertions: Assertions, top: Json, s: Schema, inst: Json, fuel: nat, steps: nat, k: Keyword)
    requires AcceptingNode(root, policy, assertions, top, s, inst, fuel, steps)
    requires k in {AnyOf, OneOf} && Has(s, k)
    ensures Governed(root, assertions, top, inst)
    ensures (forall i | 0 <= i < |ListUnder(s, k)| :: ExcludingEdges(root, policy, s, fuel)(Indexed(k, i))) ==> !inst.Obj?
    decreases fuel, 0
  {
    hide Prove, Reaches, Governed, ExactObjectConst, Eval, AssertionsHold, ApplicatorsHold;
    AcceptUnfold(root, assertions, s, inst, steps);
    var i := AcceptingBranch(assertions, s, inst, EvalEdges(root, assertions, s, inst, steps - 1), k);
    ListEdge(s, k, i);
    ProvedChild(root, policy, s, Indexed(k, i), fuel);
    ReachesChild(root, top, s, Indexed(k, i));
    assert Accepts(root, assertions, ListUnder(s, k)[i], inst, steps - 1);
    AdmissionSound(root, policy, assertions, top, ListUnder(s, k)[i], inst, fuel - 1, steps - 1);
  }

  lemma {:induction false} NodeExcluded(
      root: Json, policy: Policy, assertions: Assertions, top: Json, s: Schema, inst: Json, fuel: nat, steps: nat)
    requires AcceptingNode(root, policy, assertions, top, s, inst, fuel, steps)
    requires Prove(root, policy, Obj(s), fuel) == Some(Excluded)
    ensures !inst.Obj?
    decreases fuel, 1
  {
    hide Reaches, Governed, LocalOk, ChildrenProved, Eval, ExcludingEdges, EvaluatedMembers, EvaluatedItems, ExactObjectConst;
    AcceptUnfold(root, assertions, s, inst, steps);
    var excludes := ExcludingEdges(root, policy, s, fuel);
    if Has(s, Ref) && excludes(Single(Ref)) {
      EdgeSound(root, policy, assertions, top, s, inst, fuel, steps, At(Single(Ref), Self));
    } else if i :| 0 <= i < |ListUnder(s, AllOf)| && excludes(Indexed(AllOf, i)) {
      ListEdge(s, AllOf, i);
      EdgeSound(root, policy, assertions, top, s, inst, fuel, steps, At(Indexed(AllOf, i), Self));
    } else if Has(s, AnyOf) && forall i | 0 <= i < |ListUnder(s, AnyOf)| :: excludes(Indexed(AnyOf, i)) {
      BranchSound(root, policy, assertions, top, s, inst, fuel, steps, AnyOf);
    } else if Has(s, OneOf) && forall i | 0 <= i < |ListUnder(s, OneOf)| :: excludes(Indexed(OneOf, i)) {
      BranchSound(root, policy, assertions, top, s, inst, fuel, steps, OneOf);
    } else if "type" in s && !TypeIncludes(s["type"], "object") {
      TypeRefusesObjects(s["type"], inst);
    } else {
      LiteralsRefuseObjects(assertions, s, inst);
    }
  }

  lemma TypeRefusesObjects(value: Json, inst: Json)
    requires TypeAccepts(value, inst) && !TypeIncludes(value, "object")
    ensures !inst.Obj?
  {
  }

  lemma LiteralsRefuseObjects(assertions: Assertions, s: Schema, inst: Json)
    requires AssertionsHold(assertions, s, inst) && LiteralsExclude(s)
    ensures !inst.Obj? && LiteralOf(s, inst)
  {
  }

  lemma ProvedLocalOk(root: Json, policy: Policy, s: Schema, fuel: nat)
    requires Proved(root, policy, Obj(s), fuel) && !ExactObjectConst(s)
    ensures TypesOk(s) && forall k :: ShapeOk(s, k)
    ensures "type" in s || LiteralsExclude(s) || Has(s, Ref) || Has(s, AllOf) || Has(s, AnyOf) || Has(s, OneOf)
  {
    hide ChildrenProved, ExcludingEdges, KeywordsOk, NamesOk, TypesOk, ShapeOk, EnumOk, LiteralsExclude;
  }

  lemma {:induction false} NodeGoverned(
      root: Json, policy: Policy, assertions: Assertions, top: Json, s: Schema, inst: Json, fuel: nat, steps: nat)
    requires AcceptingNode(root, policy, assertions, top, s, inst, fuel, steps)
    ensures Governed(root, assertions, top, inst)
    decreases fuel, 3
  {
    hide Reaches, Prove, Eval, EvaluatedMembers, EvaluatedItems, Governed, ExactObjectConst;
    ProvedLocalOk(root, policy, s, fuel);
    AcceptUnfold(root, assertions, s, inst, steps);
    if "type" in s {
      match inst
      case Obj(members) => ObjectGoverned(root, policy, assertions, top, s, members, fuel, steps);
      case Arr(items) => ArrayGoverned(root, policy, assertions, top, s, items, fuel, steps);
      case _ => ScalarGoverned(root, assertions, top, inst);
    } else if Has(s, Ref) {
      EdgeSound(root, policy, assertions, top, s, inst, fuel, steps, At(Single(Ref), Self));
    } else if Has(s, AllOf) {
      assert ShapeOk(s, AllOf);
      ListEdge(s, AllOf, 0);
      EdgeSound(root, policy, assertions, top, s, inst, fuel, steps, At(Indexed(AllOf, 0), Self));
    } else if Has(s, AnyOf) {
      BranchSound(root, policy, assertions, top, s, inst, fuel, steps, AnyOf);
    } else if Has(s, OneOf) {
      BranchSound(root, policy, assertions, top, s, inst, fuel, steps, OneOf);
    } else {
      LiteralsRefuseObjects(assertions, s, inst);
      LiteralGoverned(root, assertions, top, s, inst, steps);
    }
  }

  lemma ScalarGoverned(root: Json, assertions: Assertions, top: Json, inst: Json)
    requires !inst.Obj? && !inst.Arr?
    ensures Governed(root, assertions, top, inst)
  {
  }

  lemma LiteralGoverned(root: Json, assertions: Assertions, top: Json, s: Schema, inst: Json, steps: nat)
    requires AcceptsHere(root, assertions, top, s, inst, steps) && LiteralOf(s, inst)
    ensures Governed(root, assertions, top, inst)
  {
    hide AcceptsHere;
    assert IsLiteral(root, assertions, top, inst);
  }

  lemma TypeAdmits(value: Json, inst: Json)
    requires TypeAccepts(value, inst)
    ensures inst.Obj? ==> TypeIncludes(value, "object")
    ensures inst.Arr? ==> TypeIncludes(value, "array")
  {
  }

  lemma TypedObjectCases(s: Schema)
    requires "type" in s && TypesOk(s) && TypeIncludes(s["type"], "object")
    ensures Has(s, AdditionalProperties)
    ensures s[Text(AdditionalProperties)] == Bool(false)
            || (TypedMap(s) && Has(s, PropertyNames) && !Has(s, Properties) && s[Text(AdditionalProperties)].Obj?)
  {
  }

  /** A typed object: its names are declared or follow the key policy, and each
      member is governed by the subschema that accepted it. */
  lemma {:induction false} ObjectGoverned(
      root: Json, policy: Policy, assertions: Assertions, top: Json, s: Schema, members: map<string, Json>, fuel: nat, steps: nat)
    requires AcceptingNode(root, policy, assertions, top, s, Obj(members), fuel, steps)
    requires "type" in s && TypesOk(s) && AssertionsHold(assertions, s, Obj(members))
    ensures Governed(root, assertions, top, Obj(members))
    decreases fuel, 2
  {
    hide Reaches, Prove, Eval, ExactObjectConst, TypesOk, AssertionsHold, TypedMap;
    assert TypeIncludes(s["type"], "object") by { TypedAsObject(assertions, s, members); }
    TypedObjectCases(s);
    if s[Text(AdditionalProperties)] == Bool(false) {
      DeclaredGoverned(root, policy, assertions, top, s, members, fuel, steps);
    } else {
      MapGoverned(root, policy, assertions, top, s, members, fuel, steps);
    }
  }

  lemma TypedAsObject(assertions: Assertions, s: Schema, members: map<string, Json>)
    requires "type" in s && AssertionsHold(assertions, s, Obj(members))
    ensures TypeIncludes(s["type"], "object")
  {
    TypeAdmits(s["type"], Obj(members));
  }

  lemma ClosedGoverned(root: Json, assertions: Assertions, top: Json, s: Schema, members: map<string, Json>, steps: nat)
    requires ClosedBy(root, assertions, top, s, Obj(members), steps)
    requires forall n | n in members :: Governed(root, assertions, top, members[n])
    ensures Governed(root, assertions, top, Obj(members))
  {
    hide ClosedBy;
  }

  lemma {:induction false} DeclaredGoverned(
      root: Json, policy: Policy, assertions: Assertions, top: Json, s: Schema, members: map<string, Json>, fuel: nat, steps: nat)
    requires AcceptingNode(root, policy, assertions, top, s, Obj(members), fuel, steps)
    requires Has(s, AdditionalProperties) && s[Text(AdditionalProperties)] == Bool(false)
    ensures Governed(root, assertions, top, Obj(members))
    decreases fuel, 1
  {
    hide Reaches, Prove, Eval, ExactObjectConst, Governed, TypedMap;
    var inst := Obj(members);
    NoPatterns(root, policy, s, fuel);
    forall n | n in members ensures n in NamesUnder(s, Properties) {
      AdditionalRefused(root, assertions, s, inst, steps, n);
    }
    forall n | n in members ensures Governed(root, assertions, top, members[n]) {
      EdgeSound(root, policy, assertions, top, s, inst, fuel, steps, At(Named(Properties, n), Member(n)));
    }
    assert ClosedBy(root, assertions, top, s, inst, steps);
    ClosedGoverned(root, assertions, top, s, members, steps);
  }

  lemma {:induction false} MapGoverned(
      root: Json, policy: Policy, assertions: Assertions, top: Json, s: Schema, members: map<string, Json>, fuel: nat, steps: nat)
    requires AcceptingNode(root, policy, assertions, top, s, Obj(members), fuel, steps)
    requires TypedMap(s) && Has(s, PropertyNames) && !Has(s, Properties)
    requires Has(s, AdditionalProperties) && s[Text(AdditionalProperties)].Obj?
    ensures Governed(root, assertions, top, Obj(members))
    decreases fuel, 1
  {
    hide Reaches, Prove, Eval, ExactObjectConst, Governed, PortableMapKeys;
    var inst := Obj(members);
    forall n | n in members
      ensures assertions.pattern(MAP_KEY_PATTERN, n) && Governed(root, assertions, top, members[n])
    {
      MapKeyAccepted(root, assertions, s, inst, steps, n);
      EdgeSound(root, policy, assertions, top, s, inst, fuel, steps, At(Single(AdditionalProperties), Member(n)));
    }
    assert ClosedBy(root, assertions, top, s, inst, steps);
    ClosedGoverned(root, assertions, top, s, members, steps);
  }

  lemma AdditionalRefused(root: Json, assertions: Assertions, s: Schema, inst: Json, steps: nat, n: string)
    requires Accepts(root, assertions, Obj(s), inst, steps)
    requires Has(s, AdditionalProperties) && s[Text(AdditionalProperties)] == Bool(false) && "patternProperties" !in s
    requires inst.Obj? && n in inst.members
    ensures n in NamesUnder(s, Properties)
  {
    hide Eval;
    if n !in NamesUnder(s, Properties) {
      BindingEdgeAccepts(root, assertions, s, inst, steps, At(Single(AdditionalProperties), Member(n)));
      FalseRefuses(root, assertions, inst.members[n], steps - 1);
    }
  }

  lemma FalseRefuses(root: Json, assertions: Assertions, inst: Json, steps: nat)
    ensures !Accepts(root, assertions, Bool(false), inst, steps)
  {
  }

  lemma MapKeyAccepted(root: Json, assertions: Assertions, s: Schema, inst: Json, steps: nat, n: string)
    requires Accepts(root, assertions, Obj(s), inst, steps)
    requires Has(s, PropertyNames) && PortableMapKeys(s[Text(PropertyNames)])
    requires inst.Obj? && n in inst.members
    ensures assertions.pattern(MAP_KEY_PATTERN, n)
  {
    hide Eval;
    BindingEdgeAccepts(root, assertions, s, inst, steps, At(Single(PropertyNames), NameOf(n)));
    AcceptUnfold(root, assertions, s[Text(PropertyNames)].members, Str(n), steps - 1);
  }

  lemma {:induction false} ArrayGoverned(
      root: Json, policy: Policy, assertions: Assertions, top: Json, s: Schema, items: seq<Json>, fuel: nat, steps: nat)
    requires AcceptingNode(root, policy, assertions, top, s, Arr(items), fuel, steps)
    requires "type" in s && TypesOk(s) && AssertionsHold(assertions, s, Arr(items))
    ensures Governed(root, assertions, top, Arr(items))
    decreases fuel, 1
  {
    hide Reaches, Prove, Eval, ExactObjectConst;
    var inst := Arr(items);
    TypeAdmits(s["type"], inst);
    forall i | 0 <= i < |items| ensures Governed(root, assertions, top, items[i]) {
      if i < |ListUnder(s, PrefixItems)| {
        ListEdge(s, PrefixItems, i);
        EdgeSound(root, policy, assertions, top, s, inst, fuel, steps, At(Indexed(PrefixItems, i), Element(i)));
      } else {
        EdgeSound(root, policy, assertions, top, s, inst, fuel, steps, At(Single(Items), Element(i)));
      }
    }
  }

  /** The guarantee for a whole schema, whatever the evaluator's fuel. */
  lemma AcceptedInstancesAreGoverned(root: Json, policy: Policy, assertions: Assertions, inst: Json, steps: nat)
    requires Proved(root, policy, root, MAX_DEPTH)
    requires Accepts(root, assertions, root, inst, steps)
    ensures Governed(root, assertions, root, inst)
    ensures Prove(root, policy, root, MAX_DEPTH) == Some(Excluded) ==> !inst.Obj?
  {
    assert Follow(root, root, []) == Some(root);
    AdmissionSound(root, policy, assertions, root, root, inst, MAX_DEPTH, steps);
  }
}
