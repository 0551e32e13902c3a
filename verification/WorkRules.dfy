/** What the two work estimators count, keyword by keyword over the literal document. */
module WorkRules {
  import opened Wrappers
  import opened JsonModel
  import opened FiniteSums
  import opened Pointers
  import opened SchemaGraph
  import opened Closure
  import opened ProofGraph
  import opened ClosureRules
  import opened Evaluator
  import opened SchemaWork
  import opened InstanceWork

  // ---------- sums over images ----------

  /** A sum over what a set is renamed to is the sum over the set. */
  lemma {:induction false} SumImage<A(!new), B(!new)>(s: set<A>, image: set<B>, g: A -> B, u: B -> A, f: B -> nat, h: A -> nat)
    requires forall a | a in s :: g(a) in image && u(g(a)) == a
    requires forall b | b in image :: u(b) in s && g(u(b)) == b
    requires forall a | a in s :: f(g(a)) == h(a)
    ensures Sum(image, f) == Sum(s, h)
    decreases s
  {
    if s == {} {
      assert image == {};
    } else {
      var a :| a in s;
      SumImage(s - {a}, image - {g(a)}, g, u, f, h);
      SumRemove(image, f, g(a));
      SumRemove(s, h, a);
    }
  }

  /** The name or the position an edge is about. */
  function NameIn(e: InstanceEdge): string
  {
    match (e.edge, e.part)
    case (Named(_, n), _) => n
    case (_, Member(n)) => n
    case (_, NameOf(n)) => n
    case _ => ""
  }

  function PositionIn(e: InstanceEdge): nat
  {
    match (e.edge, e.part)
    case (Indexed(_, i), _) => i
    case (_, Element(i)) => i
    case _ => 0
  }

  lemma SumNothing<A(!new)>(f: A -> nat)
    ensures Sum({}, f) == 0
  {
  }

  lemma SumOne<A(!new)>(a: A, f: A -> nat)
    ensures Sum({a}, f) == f(a)
  {
    SumRemove({a}, f, a);
    assert {a} - {a} == {};
  }

  // ---------- an instance ----------

  /** What a subschema costs on a value. */
  type Costs = (Json, Json) -> nat

  ghost function ByOwnSchema(costs: Costs, schemas: map<string, Json>, parts: map<string, Json>): string -> nat
  {
    n => if n in schemas && n in parts then costs(schemas[n], parts[n]) else 0
  }

  ghost function OnWhole(costs: Costs, schemas: map<string, Json>, inst: Json): string -> nat
  {
    n => if n in schemas then costs(schemas[n], inst) else 0
  }

  ghost function ByOneSchema(costs: Costs, schema: Json, parts: map<string, Json>): string -> nat
  {
    n => if n in parts then costs(schema, parts[n]) else 0
  }

  ghost function OnName(costs: Costs, schema: Json): string -> nat
  {
    n => costs(schema, Str(n))
  }

  ghost function ByPosition(costs: Costs, schemas: seq<Json>, items: seq<Json>): nat -> nat
  {
    (i: nat) => if i < |schemas| && i < |items| then costs(schemas[i], items[i]) else 0
  }

  ghost function EachItem(costs: Costs, schema: Json, items: seq<Json>): nat -> nat
  {
    (i: nat) => if i < |items| then costs(schema, items[i]) else 0
  }

  ghost function EachBranch(costs: Costs, schemas: seq<Json>, inst: Json): nat -> nat
  {
    (i: nat) => if i < |schemas| then costs(schemas[i], inst) else 0
  }

  ghost function Range(from_: nat, to: nat): set<nat>
  {
    set i | i in Indices(to) && from_ <= i
  }

  ghost function OnSelf(costs: Costs, s: Schema, key: string, inst: Json): nat
  {
    if key in s then costs(s[key], inst) else 0
  }

  ghost function OnReference(costs: Costs, root: Json, s: Schema, inst: Json): nat
  {
    if "$ref" in s && s["$ref"].Str? && Resolve(root, s["$ref"].s).Some? then costs(Resolve(root, s["$ref"].s).value.value, inst) else 0
  }

  ghost function OverItems(costs: Costs, s: Schema, key: string, inst: Json): nat
  {
    if key in s then Sum(Indices(|ItemsOf(inst)|), EachItem(costs, s[key], ItemsOf(inst))) else 0
  }

  ghost function OverMembers(costs: Costs, s: Schema, key: string, names: set<string>, inst: Json): nat
  {
    if key in s then Sum(names, ByOneSchema(costs, s[key], MembersOf(inst))) else 0
  }

  /** Applications under the keywords that look at an object's members. */
  ghost function CountedMembers(s: Schema, inst: Json, costs: Costs): nat
  {
    var names := MembersOf(inst).Keys;
    Sum(MembersAt(s, "properties").Keys * names, ByOwnSchema(costs, MembersAt(s, "properties"), MembersOf(inst)))
    + Sum(MembersAt(s, "dependentSchemas").Keys * names, OnWhole(costs, MembersAt(s, "dependentSchemas"), inst))
    + OverMembers(costs, s, "additionalProperties", names - MembersAt(s, "properties").Keys, inst)
    + (if "propertyNames" in s then Sum(names, OnName(costs, s["propertyNames"])) else 0)
    + OverMembers(costs, s, "unevaluatedProperties", names, inst)
  }

  /** Applications under the keywords that look at an array's items: `items` starts
      after `prefixItems`, `contains` and `unevaluatedItems` take every item. */
  ghost function CountedItems(s: Schema, inst: Json, costs: Costs): nat
  {
    var items, prefix := ItemsOf(inst), ItemsAt(s, "prefixItems");
    Sum(Indices(|prefix|) * Indices(|items|), ByPosition(costs, prefix, items))
    + (if "items" in s then Sum(Range(|prefix|, |items|), EachItem(costs, s["items"], items)) else 0)
    + OverItems(costs, s, "contains", inst)
    + OverItems(costs, s, "unevaluatedItems", inst)
  }

  /** Applications to the value itself. */
  ghost function CountedInPlace(root: Json, s: Schema, inst: Json, costs: Costs): nat
  {
    OnSelf(costs, s, "not", inst) + OnSelf(costs, s, "if", inst) + OnSelf(costs, s, "then", inst) + OnSelf(costs, s, "else", inst)
    + Sum(Indices(|ItemsAt(s, "allOf")|), EachBranch(costs, ItemsAt(s, "allOf"), inst))
    + Sum(Indices(|ItemsAt(s, "anyOf")|), EachBranch(costs, ItemsAt(s, "anyOf"), inst))
    + Sum(Indices(|ItemsAt(s, "oneOf")|), EachBranch(costs, ItemsAt(s, "oneOf"), inst))
    + OnReference(costs, root, s, inst)
  }

  ghost function Costing(root: Json, fuel: nat): Costs
  {
    (child: Json, part: Json) => Applications(root, child, part, fuel)
  }

  // ---------- keyword by keyword ----------

  ghost function UnderKeyword(root: Json, s: Schema, inst: Json, fuel: nat, k: Keyword): nat
  {
    Sum(InstanceEdgesUnder(s, k, inst), EdgeApplications(root, s, inst, fuel))
  }

  ghost function BeforeKeyword(root: Json, s: Schema, inst: Json, fuel: nat, i: nat): nat
    requires i <= |EVALUATED_KEYWORDS|
  {
    Sum(InstanceEdgesOver(s, EVALUATED_KEYWORDS[..i], inst), EdgeApplications(root, s, inst, fuel))
  }

  lemma NextKeywordCounts(root: Json, s: Schema, inst: Json, fuel: nat, i: nat)
    requires i < |EVALUATED_KEYWORDS|
    ensures BeforeKeyword(root, s, inst, fuel, i + 1) ==
            BeforeKeyword(root, s, inst, fuel, i) + UnderKeyword(root, s, inst, fuel, EVALUATED_KEYWORDS[i])
  {
    hide InstanceEdgesUnder, InstanceEdgesOver, EdgeApplications;
    InstanceEdgesSplit(s, inst, i);
    SumUnion(InstanceEdgesOver(s, EVALUATED_KEYWORDS[..i], inst), InstanceEdgesUnder(s, EVALUATED_KEYWORDS[i], inst),
             EdgeApplications(root, s, inst, fuel));
  }

  lemma NamesCount(root: Json, s: Schema, inst: Json, fuel: nat)
    ensures UnderKeyword(root, s, inst, fuel, Properties) ==
            Sum(MembersAt(s, "properties").Keys * MembersOf(inst).Keys,
                ByOwnSchema(Costing(root, fuel), MembersAt(s, "properties"), MembersOf(inst)))
    ensures UnderKeyword(root, s, inst, fuel, DependentSchemas) ==
            Sum(MembersAt(s, "dependentSchemas").Keys * MembersOf(inst).Keys,
                OnWhole(Costing(root, fuel), MembersAt(s, "dependentSchemas"), inst))
  {
    hide Text, Applications;
    KeywordTexts();
    SumImage(MembersAt(s, "properties").Keys * MembersOf(inst).Keys, InstanceEdgesUnder(s, Properties, inst),
             (n: string) => At(Named(Properties, n), Member(n)), NameIn, EdgeApplications(root, s, inst, fuel),
             ByOwnSchema(Costing(root, fuel), MembersAt(s, "properties"), MembersOf(inst)));
    SumImage(MembersAt(s, "dependentSchemas").Keys * MembersOf(inst).Keys, InstanceEdgesUnder(s, DependentSchemas, inst),
             (n: string) => At(Named(DependentSchemas, n), Self), NameIn, EdgeApplications(root, s, inst, fuel),
             OnWhole(Costing(root, fuel), MembersAt(s, "dependentSchemas"), inst));
  }

  /** A keyword that applies its one schema to some of the members. */
  lemma MembersCount(root: Json, s: Schema, inst: Json, fuel: nat, k: Keyword, names: set<string>)
    requires k in {AdditionalProperties, UnevaluatedProperties} && names <= MembersOf(inst).Keys
    requires Text(k) in s ==> names == NamesToVisit(s, k, inst)
    ensures UnderKeyword(root, s, inst, fuel, k) == OverMembers(Costing(root, fuel), s, Text(k), names, inst)
  {
    hide Text, Applications;
    if Text(k) in s {
      SumImage(names, InstanceEdgesUnder(s, k, inst), (n: string) => At(Single(k), Member(n)), NameIn, EdgeApplications(root, s, inst, fuel),
               ByOneSchema(Costing(root, fuel), s[Text(k)], MembersOf(inst)));
    } else {
      SumNothing(EdgeApplications(root, s, inst, fuel));
    }
  }

  lemma PropertyNamesCount(root: Json, s: Schema, inst: Json, fuel: nat)
    ensures UnderKeyword(root, s, inst, fuel, PropertyNames) ==
            if "propertyNames" in s then Sum(MembersOf(inst).Keys, OnName(Costing(root, fuel), s["propertyNames"])) else 0
  {
    hide Text, Applications;
    KeywordTexts();
    if "propertyNames" in s {
      SumImage(MembersOf(inst).Keys, InstanceEdgesUnder(s, PropertyNames, inst), (n: string) => At(Single(PropertyNames), NameOf(n)), NameIn,
               EdgeApplications(root, s, inst, fuel), OnName(Costing(root, fuel), s["propertyNames"]));
    } else {
      SumNothing(EdgeApplications(root, s, inst, fuel));
    }
  }

  lemma PrefixCount(root: Json, s: Schema, inst: Json, fuel: nat)
    ensures UnderKeyword(root, s, inst, fuel, PrefixItems) ==
            Sum(Indices(|ItemsAt(s, "prefixItems")|) * Indices(|ItemsOf(inst)|),
                ByPosition(Costing(root, fuel), ItemsAt(s, "prefixItems"), ItemsOf(inst)))
  {
    hide Text, Applications;
    KeywordTexts();
    SumImage(Indices(|ItemsAt(s, "prefixItems")|) * Indices(|ItemsOf(inst)|), InstanceEdgesUnder(s, PrefixItems, inst),
             (i: nat) => At(Indexed(PrefixItems, i), Element(i)), PositionIn, EdgeApplications(root, s, inst, fuel),
             ByPosition(Costing(root, fuel), ItemsAt(s, "prefixItems"), ItemsOf(inst)));
  }

  lemma RestCount(root: Json, s: Schema, inst: Json, fuel: nat)
    ensures UnderKeyword(root, s, inst, fuel, Items) ==
            if "items" in s then
              Sum(Range(|ItemsAt(s, "prefixItems")|, |ItemsOf(inst)|), EachItem(Costing(root, fuel), s["items"], ItemsOf(inst)))
            else 0
  {
    hide Text, Applications;
    KeywordTexts();
    if "items" in s {
      SumImage(Range(|ItemsAt(s, "prefixItems")|, |ItemsOf(inst)|), InstanceEdgesUnder(s, Items, inst),
               (i: nat) => At(Single(Items), Element(i)), PositionIn, EdgeApplications(root, s, inst, fuel),
               EachItem(Costing(root, fuel), s["items"], ItemsOf(inst)));
    } else {
      SumNothing(EdgeApplications(root, s, inst, fuel));
    }
  }

  /** A keyword that applies its one schema to every item. */
  lemma ItemsCount(root: Json, s: Schema, inst: Json, fuel: nat, k: Keyword)
    requires k in {Contains, UnevaluatedItems}
    ensures UnderKeyword(root, s, inst, fuel, k) == OverItems(Costing(root, fuel), s, Text(k), inst)
  {
    hide Text, Applications;
    if Text(k) in s {
      SumImage(Indices(|ItemsOf(inst)|), InstanceEdgesUnder(s, k, inst), (i: nat) => At(Single(k), Element(i)), PositionIn,
               EdgeApplications(root, s, inst, fuel), EachItem(Costing(root, fuel), s[Text(k)], ItemsOf(inst)));
    } else {
      SumNothing(EdgeApplications(root, s, inst, fuel));
    }
  }

  lemma SelfCount(root: Json, s: Schema, inst: Json, fuel: nat, k: Keyword)
    requires k in {Not, If, Then, Else}
    ensures UnderKeyword(root, s, inst, fuel, k) == OnSelf(Costing(root, fuel), s, Text(k), inst)
  {
    hide Text, Applications;
    if Text(k) in s {
      SumOne(At(Single(k), Self), EdgeApplications(root, s, inst, fuel));
    } else {
      SumNothing(EdgeApplications(root, s, inst, fuel));
    }
  }

  lemma BranchCount(root: Json, s: Schema, inst: Json, fuel: nat, k: Keyword)
    requires k in {AllOf, AnyOf, OneOf}
    ensures UnderKeyword(root, s, inst, fuel, k) ==
            Sum(Indices(|ItemsAt(s, Text(k))|), EachBranch(Costing(root, fuel), ItemsAt(s, Text(k)), inst))
  {
    hide Text, Applications;
    SumImage(Indices(|ItemsAt(s, Text(k))|), InstanceEdgesUnder(s, k, inst), (i: nat) => At(Indexed(k, i), Self), PositionIn,
             EdgeApplications(root, s, inst, fuel), EachBranch(Costing(root, fuel), ItemsAt(s, Text(k)), inst));
  }

  lemma ReferenceCount(root: Json, s: Schema, inst: Json, fuel: nat)
    ensures UnderKeyword(root, s, inst, fuel, Ref) == OnReference(Costing(root, fuel), root, s, inst)
  {
    hide Text, Applications, Resolve;
    KeywordTexts();
    if "$ref" in s {
      SumOne(At(Single(Ref), Self), EdgeApplications(root, s, inst, fuel));
    } else {
      SumNothing(EdgeApplications(root, s, inst, fuel));
    }
  }

  lemma AllKeywordsCount(root: Json, s: Schema, inst: Json, fuel: nat)
    ensures Sum(InstanceEdges(s, inst), EdgeApplications(root, s, inst, fuel)) ==
            (UnderKeyword(root, s, inst, fuel, Properties) + UnderKeyword(root, s, inst, fuel, DependentSchemas)
             + UnderKeyword(root, s, inst, fuel, AdditionalProperties) + UnderKeyword(root, s, inst, fuel, PropertyNames))
            + (UnderKeyword(root, s, inst, fuel, UnevaluatedProperties) + UnderKeyword(root, s, inst, fuel, PrefixItems)
               + UnderKeyword(root, s, inst, fuel, Items) + UnderKeyword(root, s, inst, fuel, Contains))
            + (UnderKeyword(root, s, inst, fuel, UnevaluatedItems) + UnderKeyword(root, s, inst, fuel, Not)
               + UnderKeyword(root, s, inst, fuel, If) + UnderKeyword(root, s, inst, fuel, Then))
            + (UnderKeyword(root, s, inst, fuel, Else) + UnderKeyword(root, s, inst, fuel, AllOf)
               + UnderKeyword(root, s, inst, fuel, AnyOf) + UnderKeyword(root, s, inst, fuel, OneOf))
            + UnderKeyword(root, s, inst, fuel, Ref)
  {
    hide EVALUATED_KEYWORDS, UnderKeyword, BeforeKeyword, Sum, InstanceEdges, EdgeApplications;
    KeywordOrder();
    BeforeEnds(root, s, inst, fuel);
    Four(root, s, inst, fuel, 0, Properties, DependentSchemas, AdditionalProperties, PropertyNames);
    Four(root, s, inst, fuel, 4, UnevaluatedProperties, PrefixItems, Items, Contains);
    Four(root, s, inst, fuel, 8, UnevaluatedItems, Not, If, Then);
    Four(root, s, inst, fuel, 12, Else, AllOf, AnyOf, OneOf);
    NextKeywordCounts(root, s, inst, fuel, 16);
  }

  lemma KeywordOrder()
    ensures var ks := EVALUATED_KEYWORDS;
            && |ks| == 17
            && ks[0] == Properties && ks[1] == DependentSchemas && ks[2] == AdditionalProperties && ks[3] == PropertyNames
            && ks[4] == UnevaluatedProperties && ks[5] == PrefixItems && ks[6] == Items && ks[7] == Contains
            && ks[8] == UnevaluatedItems && ks[9] == Not && ks[10] == If && ks[11] == Then && ks[12] == Else
            && ks[13] == AllOf && ks[14] == AnyOf && ks[15] == OneOf && ks[16] == Ref
  {
  }

  lemma Four(root: Json, s: Schema, inst: Json, fuel: nat, i: nat, a: Keyword, b: Keyword, c: Keyword, d: Keyword)
    requires i + 4 < |EVALUATED_KEYWORDS|
    requires EVALUATED_KEYWORDS[i] == a && EVALUATED_KEYWORDS[i + 1] == b && EVALUATED_KEYWORDS[i + 2] == c && EVALUATED_KEYWORDS[i + 3] == d
    ensures BeforeKeyword(root, s, inst, fuel, i + 4) ==
            BeforeKeyword(root, s, inst, fuel, i)
            + (UnderKeyword(root, s, inst, fuel, a) + UnderKeyword(root, s, inst, fuel, b)
               + UnderKeyword(root, s, inst, fuel, c) + UnderKeyword(root, s, inst, fuel, d))
  {
    hide UnderKeyword, BeforeKeyword, EVALUATED_KEYWORDS;
    NextKeywordCounts(root, s, inst, fuel, i);
    NextKeywordCounts(root, s, inst, fuel, i + 1);
    NextKeywordCounts(root, s, inst, fuel, i + 2);
    NextKeywordCounts(root, s, inst, fuel, i + 3);
  }

  lemma BeforeEnds(root: Json, s: Schema, inst: Json, fuel: nat)
    ensures BeforeKeyword(root, s, inst, fuel, 0) == 0
    ensures BeforeKeyword(root, s, inst, fuel, 17) == Sum(InstanceEdges(s, inst), EdgeApplications(root, s, inst, fuel))
  {
    hide InstanceEdgesUnder, EdgeApplications;
    assert EVALUATED_KEYWORDS[..0] == [] && EVALUATED_KEYWORDS[..17] == EVALUATED_KEYWORDS;
    SumNothing(EdgeApplications(root, s, inst, fuel));
  }

  lemma MembersCounted(root: Json, s: Schema, inst: Json, fuel: nat)
    ensures CountedMembers(s, inst, Costing(root, fuel)) ==
            UnderKeyword(root, s, inst, fuel, Properties) + UnderKeyword(root, s, inst, fuel, DependentSchemas)
            + UnderKeyword(root, s, inst, fuel, AdditionalProperties) + UnderKeyword(root, s, inst, fuel, PropertyNames)
            + UnderKeyword(root, s, inst, fuel, UnevaluatedProperties)
  {
    hide Text, UnderKeyword, OverMembers, Sum, ByOwnSchema, OnWhole, OnName, Costing, EdgeApplications;
    KeywordTexts();
    NamesCount(root, s, inst, fuel);
    MembersCount(root, s, inst, fuel, AdditionalProperties, MembersOf(inst).Keys - MembersAt(s, "properties").Keys);
    MembersCount(root, s, inst, fuel, UnevaluatedProperties, MembersOf(inst).Keys);
    PropertyNamesCount(root, s, inst, fuel);
  }

  lemma ItemsCounted(root: Json, s: Schema, inst: Json, fuel: nat)
    ensures CountedItems(s, inst, Costing(root, fuel)) ==
            UnderKeyword(root, s, inst, fuel, PrefixItems) + UnderKeyword(root, s, inst, fuel, Items)
            + UnderKeyword(root, s, inst, fuel, Contains) + UnderKeyword(root, s, inst, fuel, UnevaluatedItems)
  {
    hide Text, UnderKeyword, OverItems, Sum, ByPosition, EachItem, Costing, EdgeApplications;
    KeywordTexts();
    PrefixCount(root, s, inst, fuel);
    RestCount(root, s, inst, fuel);
    ItemsCount(root, s, inst, fuel, Contains);
    ItemsCount(root, s, inst, fuel, UnevaluatedItems);
  }

  lemma InPlaceCounted(root: Json, s: Schema, inst: Json, fuel: nat)
    ensures CountedInPlace(root, s, inst, Costing(root, fuel)) ==
            UnderKeyword(root, s, inst, fuel, Not) + UnderKeyword(root, s, inst, fuel, If) + UnderKeyword(root, s, inst, fuel, Then)
            + UnderKeyword(root, s, inst, fuel, Else) + UnderKeyword(root, s, inst, fuel, AllOf)
            + UnderKeyword(root, s, inst, fuel, AnyOf) + UnderKeyword(root, s, inst, fuel, OneOf) + UnderKeyword(root, s, inst, fuel, Ref)
  {
    hide Text, UnderKeyword, OnSelf, OnReference, Sum, EachBranch, Costing, EdgeApplications;
    KeywordTexts();
    SelfCount(root, s, inst, fuel, Not);
    SelfCount(root, s, inst, fuel, If);
    SelfCount(root, s, inst, fuel, Then);
    SelfCount(root, s, inst, fuel, Else);
    BranchCount(root, s, inst, fuel, AllOf);
    BranchCount(root, s, inst, fuel, AnyOf);
    BranchCount(root, s, inst, fuel, OneOf);
    ReferenceCount(root, s, inst, fuel);
  }

  /** The applications of a schema object to a value are itself and, keyword by
      keyword, those of its subschemas to the parts the document gives them. */
  lemma ApplicationsByRules(root: Json, s: Schema, inst: Json, fuel: nat)
    ensures Sum(InstanceEdges(s, inst), EdgeApplications(root, s, inst, fuel)) ==
            CountedMembers(s, inst, Costing(root, fuel)) + CountedItems(s, inst, Costing(root, fuel))
            + CountedInPlace(root, s, inst, Costing(root, fuel))
    ensures Applications(root, Obj(s), inst, fuel + 1) ==
            1 + CountedMembers(s, inst, Costing(root, fuel)) + CountedItems(s, inst, Costing(root, fuel))
            + CountedInPlace(root, s, inst, Costing(root, fuel))
  {
    hide UnderKeyword, CountedMembers, CountedItems, CountedInPlace, Sum, Costing, EdgeApplications, InstanceEdges;
    AllKeywordsCount(root, s, inst, fuel);
    MembersCounted(root, s, inst, fuel);
    ItemsCounted(root, s, inst, fuel);
    InPlaceCounted(root, s, inst, fuel);
  }

  /** On a proved schema the count is the same equation in itself. */
  lemma FullApplicationsByRules(root: Json, policy: Policy, s: Schema, inst: Json, rank: nat)
    requires Proved(root, policy, Obj(s), rank) && rank <= MAX_DEPTH
    ensures FullApplications(root, Obj(s), inst) ==
            1 + CountedMembers(s, inst, Costing(root, FULL)) + CountedItems(s, inst, Costing(root, FULL))
            + CountedInPlace(root, s, inst, Costing(root, FULL))
    ensures forall child, part :: Costing(root, FULL)(child, part) == FullApplications(root, child, part)
  {
    hide Prove, Applications, InstanceEdges, CountedMembers, CountedItems, CountedInPlace;
    FullApplicationsUnfold(root, policy, s, inst, rank);
    ApplicationsByRules(root, s, inst, FULL);
  }

  // ---------- a schema ----------

  ghost function EachMember(costs: Json -> nat, schemas: map<string, Json>): string -> nat
  {
    n => if n in schemas then costs(schemas[n]) else 0
  }

  ghost function EachListed(costs: Json -> nat, schemas: seq<Json>): nat -> nat
  {
    (i: nat) => if i < |schemas| then costs(schemas[i]) else 0
  }

  ghost function NamedWork(costs: Json -> nat, s: Schema, key: string): nat
  {
    Sum(MembersAt(s, key).Keys, EachMember(costs, MembersAt(s, key)))
  }

  ghost function SingleWork(costs: Json -> nat, s: Schema, key: string): nat
  {
    if key in s then costs(s[key]) else 0
  }

  ghost function ListedWork(costs: Json -> nat, s: Schema, key: string): nat
  {
    Sum(Indices(|ItemsAt(s, key)|), EachListed(costs, ItemsAt(s, key)))
  }

  ghost function ReferenceWork(costs: Json -> nat, root: Json, s: Schema): nat
  {
    if "$ref" in s && s["$ref"].Str? && Resolve(root, s["$ref"].s).Some? then costs(Resolve(root, s["$ref"].s).value.value) else 0
  }

  /** The work of a schema object's subschemas: definitions count only where they are
      referenced. */
  ghost function CountedWork(root: Json, s: Schema, costs: Json -> nat): nat
  {
    (NamedWork(costs, s, "properties") + NamedWork(costs, s, "dependentSchemas")
     + SingleWork(costs, s, "additionalProperties") + SingleWork(costs, s, "items"))
    + (SingleWork(costs, s, "contains") + SingleWork(costs, s, "unevaluatedItems")
       + SingleWork(costs, s, "unevaluatedProperties") + SingleWork(costs, s, "propertyNames"))
    + (SingleWork(costs, s, "not") + SingleWork(costs, s, "if") + SingleWork(costs, s, "then") + SingleWork(costs, s, "else"))
    + (ListedWork(costs, s, "allOf") + ListedWork(costs, s, "anyOf") + ListedWork(costs, s, "oneOf") + ListedWork(costs, s, "prefixItems"))
    + ReferenceWork(costs, root, s)
  }

  ghost function Working(root: Json): Json -> nat
  {
    child => FullWork(root, child)
  }

  ghost function WorkUnder(root: Json, s: Schema, k: Keyword): nat
  {
    Sum(EdgesUnder(s, k), FullChildWork(root, s))
  }

  function NameOfEdge(e: Edge): string
  {
    if e.Named? then e.name else ""
  }

  function IndexOfEdge(e: Edge): nat
  {
    if e.Indexed? then e.index else 0
  }

  lemma NamedWorkUnder(root: Json, s: Schema, k: Keyword)
    requires ShapeOf(k).ByName?
    ensures WorkUnder(root, s, k) == NamedWork(Working(root), s, Text(k))
  {
    hide Text, Work;
    SumImage(MembersAt(s, Text(k)).Keys, EdgesUnder(s, k), (n: string) => Named(k, n), NameOfEdge, FullChildWork(root, s),
             EachMember(Working(root), MembersAt(s, Text(k))));
  }

  lemma ListedWorkUnder(root: Json, s: Schema, k: Keyword)
    requires ShapeOf(k).InOrder?
    ensures WorkUnder(root, s, k) == ListedWork(Working(root), s, Text(k))
  {
    hide Text, Work;
    SumImage(Indices(|ItemsAt(s, Text(k))|), EdgesUnder(s, k), (i: nat) => Indexed(k, i), IndexOfEdge, FullChildWork(root, s),
             EachListed(Working(root), ItemsAt(s, Text(k))));
  }

  lemma SingleWorkUnder(root: Json, s: Schema, k: Keyword)
    requires ShapeOf(k).One? && k != Ref
    ensures WorkUnder(root, s, k) == SingleWork(Working(root), s, Text(k))
  {
    hide Text, Work;
    if Text(k) in s {
      SumOne(Single(k), FullChildWork(root, s));
    } else {
      SumNothing(FullChildWork(root, s));
    }
  }

  lemma ReferenceWorkUnder(root: Json, s: Schema)
    ensures WorkUnder(root, s, Ref) == ReferenceWork(Working(root), root, s)
  {
    hide Text, Work, Resolve;
    KeywordTexts();
    if "$ref" in s {
      SumOne(Single(Ref), FullChildWork(root, s));
    } else {
      SumNothing(FullChildWork(root, s));
    }
  }

  lemma FourWork(root: Json, s: Schema, i: nat, a: Keyword, b: Keyword, c: Keyword, d: Keyword)
    requires i + 4 < |WORK_KEYWORDS|
    requires WORK_KEYWORDS[i] == a && WORK_KEYWORDS[i + 1] == b && WORK_KEYWORDS[i + 2] == c && WORK_KEYWORDS[i + 3] == d
    ensures WorkBefore(root, s, i + 4) ==
            WorkBefore(root, s, i) + (WorkUnder(root, s, a) + WorkUnder(root, s, b) + WorkUnder(root, s, c) + WorkUnder(root, s, d))
  {
    hide WORK_KEYWORDS, WorkBefore, EdgesUnder, FullChildWork, Sum;
    WorkNext(root, s, i);
    WorkNext(root, s, i + 1);
    WorkNext(root, s, i + 2);
    WorkNext(root, s, i + 3);
  }

  lemma WorkOrder()
    ensures var ks := WORK_KEYWORDS;
            && |ks| == 17
            && ks[0] == Properties && ks[1] == DependentSchemas && ks[2] == AdditionalProperties && ks[3] == Items
            && ks[4] == Contains && ks[5] == UnevaluatedItems && ks[6] == UnevaluatedProperties && ks[7] == PropertyNames
            && ks[8] == Not && ks[9] == If && ks[10] == Then && ks[11] == Else
            && ks[12] == AllOf && ks[13] == AnyOf && ks[14] == OneOf && ks[15] == PrefixItems && ks[16] == Ref
  {
  }

  lemma WorkByKeyword(root: Json, s: Schema)
    ensures WorkBefore(root, s, 17) == CountedWork(root, s, Working(root))
  {
    hide WORK_KEYWORDS, WorkBefore, WorkUnder, EdgesUnder, FullChildWork, Sum, Text, NamedWork, SingleWork, ListedWork, ReferenceWork, Working;
    WorkOrder();
    KeywordTexts();
    WorkStarts(root, s);
    FourWork(root, s, 0, Properties, DependentSchemas, AdditionalProperties, Items);
    FourWork(root, s, 4, Contains, UnevaluatedItems, UnevaluatedProperties, PropertyNames);
    FourWork(root, s, 8, Not, If, Then, Else);
    FourWork(root, s, 12, AllOf, AnyOf, OneOf, PrefixItems);
    LastWork(root, s);
    NamedWorkUnder(root, s, Properties);
    NamedWorkUnder(root, s, DependentSchemas);
    SingleWorkUnder(root, s, AdditionalProperties);
    SingleWorkUnder(root, s, Items);
    SingleWorkUnder(root, s, Contains);
    SingleWorkUnder(root, s, UnevaluatedItems);
    SingleWorkUnder(root, s, UnevaluatedProperties);
    SingleWorkUnder(root, s, PropertyNames);
    SingleWorkUnder(root, s, Not);
    SingleWorkUnder(root, s, If);
    SingleWorkUnder(root, s, Then);
    SingleWorkUnder(root, s, Else);
    ListedWorkUnder(root, s, AllOf);
    ListedWorkUnder(root, s, AnyOf);
    ListedWorkUnder(root, s, OneOf);
    ListedWorkUnder(root, s, PrefixItems);
    ReferenceWorkUnder(root, s);
  }

  lemma LastWork(root: Json, s: Schema)
    ensures WorkBefore(root, s, 17) == WorkBefore(root, s, 16) + WorkUnder(root, s, Ref)
  {
    hide WorkBefore, EdgesUnder, FullChildWork, Sum;
    WorkNext(root, s, 16);
  }

  /** The expanded work of a proved schema object, keyword by keyword. */
  lemma FullWorkByRules(root: Json, policy: Policy, s: Schema, rank: nat)
    requires Proved(root, policy, Obj(s), rank) && rank <= MAX_DEPTH
    ensures FullWork(root, Obj(s)) == 1 + CountedWork(root, s, Working(root))
    ensures forall child :: Working(root)(child) == FullWork(root, child)
  {
    hide Prove, FullWork, CountedWork, WorkBefore;
    WorkEnds(root, policy, s, rank);
    WorkByKeyword(root, s);
  }

  /** A boolean schema is one evaluation. */
  lemma BooleanWork(root: Json, b: bool, inst: Json)
    ensures FullWork(root, Bool(b)) == 1 && FullApplications(root, Bool(b), inst) == 1
  {
  }
}
