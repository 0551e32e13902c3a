/** The portable closure proof as a property of the schema graph, without memo
    table, operation budget or pointers: `Prove` is the plain recursion over the
    unfolded graph, cut off after a number of edges. */
module Closure {
  import opened Wrappers
  import opened JsonModel
  import opened FiniteSums
  import opened SchemaGraph
  import opened Pointers

  const MAX_DEPTH: nat := 64
  const MAX_OPERATIONS: nat := 4096

  const DIALECT := "https://json-schema.org/draft/2020-12/schema"
  const MAP_KEY_PATTERN := "^[A-Za-z][A-Za-z0-9._-]{0,63}$"
  const MAP_POLICY_KEY := "x-takoform-fieldPolicy"
  const MAP_POLICY_VALUE := "portable-data-only-v1"

  // ---------- the admission lattice ----------

  /** What object values a schema node lets through: arbitrary ones, only closed
      ones, or none. */
  datatype Admission = Open | Closed | Excluded

  function Intersect(left: Admission, right: Admission): Admission
  {
    if left == Excluded || right == Excluded then Excluded
    else if left == Closed || right == Closed then Closed
    else Open
  }

  function Union(left: Admission, right: Admission): Admission
  {
    if left == Open || right == Open then Open
    else if left == Closed || right == Closed then Closed
    else Excluded
  }

  function AdmissionForLiteral(v: Json): Admission
  {
    if v.Obj? then Open else Excluded
  }

  // ---------- checks a node passes on its own ----------

  /** The field-name vocabulary, which only ever adds rejections. */
  datatype Policy = Policy(
    desired: bool,
    forbidden: string -> bool,
    reviewed: (string, Json) -> bool)

  function Get(s: Schema, key: string): Json
  {
    if key in s then s[key] else Null
  }

  predicate NameAllowed(policy: Policy, name: string, declared: Json)
  {
    (policy.desired && policy.reviewed(name, declared)) || !policy.forbidden(name)
  }

  predicate FieldNamesOk(policy: Policy, value: Json, properties: map<string, Json>)
  {
    match value
    case Null => true
    case Arr(items) =>
      forall i | 0 <= i < |items| ::
        items[i].Str? && NameAllowed(policy, items[i].s, Get(properties, items[i].s))
    case _ => false
  }

  predicate DependentNamesOk(policy: Policy, value: Json)
  {
    match value
    case Null => true
    case Obj(members) =>
      forall n | n in members :: !policy.forbidden(n) && FieldNamesOk(policy, members[n], map[])
    case _ => false
  }

  predicate TypeIncludes(value: Json, wanted: string)
  {
    match value
    case Str(text) => text == wanted
    case Arr(items) => Str(wanted) in items
    case _ => false
  }

  predicate PortableMapKeys(value: Json)
  {
    value.Obj? && |value.members| == 3
    && "type" in value.members && value.members["type"] == Str("string")
    && "pattern" in value.members && value.members["pattern"] == Str(MAP_KEY_PATTERN)
    && MAP_POLICY_KEY in value.members && value.members[MAP_POLICY_KEY] == Str(MAP_POLICY_VALUE)
  }

  /** A typed object schema closes its members: either additional ones are
      refused, or it is a pure map under the reviewed key policy. */
  predicate ExplicitObjectClosure(s: Schema)
  {
    match Get(s, Text(AdditionalProperties))
    case Bool(b) => !b
    case Obj(_) =>
      && !Has(s, Properties)
      && Get(s, "required").Null? && Get(s, "dependentRequired").Null?
      && Get(s, Text(DependentSchemas)).Null? && Get(s, Text(UnevaluatedProperties)).Null?
      && PortableMapKeys(Get(s, Text(PropertyNames)))
    case _ => false
  }

  predicate HasObjectKeywords(s: Schema)
  {
    Has(s, Properties) || "required" in s || Has(s, AdditionalProperties)
    || Has(s, UnevaluatedProperties) || Has(s, PropertyNames) || "dependentRequired" in s
    || Has(s, DependentSchemas) || "minProperties" in s || "maxProperties" in s
  }

  const FORBIDDEN_KEYWORDS: seq<string> :=
    ["patternProperties", "dependencies", "contentEncoding", "contentMediaType", "contentSchema",
     "$id", "$anchor", "$dynamicAnchor", "$recursiveAnchor", "$recursiveRef", "$vocabulary"]

  predicate KeywordsOk(s: Schema)
  {
    && (forall k | k in FORBIDDEN_KEYWORDS :: k !in s)
    && ("$schema" in s ==> s["$schema"] == Str(DIALECT))
  }

  predicate ExactObjectConst(s: Schema)
  {
    |s| == 1 && "const" in s && s["const"].Obj?
  }

  predicate ObjectConst(s: Schema)
  {
    "const" in s && s["const"].Obj?
  }

  predicate NamesOk(policy: Policy, s: Schema)
  {
    && (forall n | n in NamesUnder(s, Properties) :: NameAllowed(policy, n, NamesUnder(s, Properties)[n]))
    && FieldNamesOk(policy, Get(s, "required"), NamesUnder(s, Properties))
    && DependentNamesOk(policy, Get(s, "dependentRequired"))
  }

  predicate TypesOk(s: Schema)
  {
    && (TypeIncludes(Get(s, "type"), "array") ==> Has(s, Items))
    && (if TypeIncludes(Get(s, "type"), "object") then ExplicitObjectClosure(s)
        else "type" in s || !HasObjectKeywords(s))
  }

  predicate ShapeOk(s: Schema, k: Keyword)
  {
    Has(s, k) ==>
      match ShapeOf(k)
      case ByName => s[Text(k)].Obj?
      case InOrder => s[Text(k)].Arr? && s[Text(k)].items != []
      case One => k == Ref ==> s[Text(k)].Str?
  }

  predicate EnumOk(s: Schema)
  {
    "enum" in s ==> s["enum"].Arr? && s["enum"].items != []
  }

  /** Everything the proof demands of one node besides its subschemas. */
  predicate LocalOk(policy: Policy, s: Schema)
  {
    KeywordsOk(s) &&
    (ExactObjectConst(s) ||
     (!ObjectConst(s) && NamesOk(policy, s) && TypesOk(s) && EnumOk(s) && forall k :: ShapeOk(s, k)))
  }

  // ---------- finite literals ----------

  /** Nodes of a literal, as charged by the exact-const walk. */
  ghost function LiteralNodes(v: Json): (n: nat)
    ensures n >= 1
  {
    match v
    case Arr(items) =>
      1 + Sum(Indices(|items|), i => if 0 <= i < |items| then LiteralNodes(items[i]) else 0)
    case Obj(members) =>
      1 + Sum(members.Keys, k => if k in members then LiteralNodes(members[k]) else 0)
    case _ => 1
  }

  /** Every root-to-leaf path of the literal has at most `d` edges. */
  ghost predicate LiteralWithin(v: Json, d: nat)
    decreases d
  {
    match v
    case Arr(items) => forall i | 0 <= i < |items| :: d > 0 && LiteralWithin(items[i], d - 1)
    case Obj(members) => forall k | k in members :: d > 0 && LiteralWithin(members[k], d - 1)
    case _ => true
  }

  lemma {:induction false} LiteralWithinMonotone(v: Json, d: nat, more: nat)
    requires LiteralWithin(v, d) && d <= more
    ensures LiteralWithin(v, more)
    decreases d
  {
    match v
    case Arr(items) =>
      forall i | 0 <= i < |items| ensures more > 0 && LiteralWithin(items[i], more - 1) {
        LiteralWithinMonotone(items[i], d - 1, more - 1);
      }
    case Obj(members) =>
      forall k | k in members ensures more > 0 && LiteralWithin(members[k], more - 1) {
        LiteralWithinMonotone(members[k], d - 1, more - 1);
      }
    case _ =>
  }

  // ---------- the proof ----------

  /** The edges the proof follows: every subschema but the literal
      `additionalProperties: false`, which is part of the closure itself. */
  ghost predicate ProofEdge(s: Schema, e: Edge)
  {
    e in EdgesUnder(s, e.keyword)
    && !(e == Single(AdditionalProperties) && s[Text(AdditionalProperties)] == Bool(false))
  }

  ghost predicate LiteralsExclude(s: Schema)
  {
    ("const" in s && !s["const"].Obj?)
    || ("enum" in s && s["enum"].Arr? && forall v | v in s["enum"].items :: !v.Obj?)
  }

  /** The admission of a node whose subschemas are all proved, `excludes` telling
      which of them admit no object: declaratively, without folding. */
  ghost function NodeAdmission(s: Schema, excludes: Edge -> bool): Option<Admission>
  {
    if ("type" in s && !TypeIncludes(s["type"], "object"))
       || LiteralsExclude(s)
       || (Has(s, Ref) && excludes(Single(Ref)))
       || (exists i | 0 <= i < |ListUnder(s, AllOf)| :: excludes(Indexed(AllOf, i)))
       || (Has(s, AnyOf) && forall i | 0 <= i < |ListUnder(s, AnyOf)| :: excludes(Indexed(AnyOf, i)))
       || (Has(s, OneOf) && forall i | 0 <= i < |ListUnder(s, OneOf)| :: excludes(Indexed(OneOf, i)))
    then Some(Excluded)
    else if "type" in s || Has(s, Ref) || Has(s, AllOf) || Has(s, AnyOf) || Has(s, OneOf)
    then Some(Closed)
    else None
  }

  /** The closure proof of `v` along at most `fuel` edges: `None` is rejection. */
  ghost function Prove(root: Json, policy: Policy, v: Json, fuel: nat): (r: Option<Admission>)
    ensures r.Some? ==> r.value != Open
    decreases fuel, 1
  {
    match v
    case Bool(b) => if b then None else Some(Excluded)
    case Obj(s) =>
      if !LocalOk(policy, s) then None
      else if ExactObjectConst(s) then (if LiteralWithin(s["const"], fuel) then Some(Closed) else None)
      else if ChildrenProved(root, policy, s, fuel) then NodeAdmission(s, ExcludingEdges(root, policy, s, fuel))
      else None
    case _ => None
  }

  ghost predicate ChildrenProved(root: Json, policy: Policy, s: Schema, fuel: nat)
    decreases fuel, 0
  {
    forall e | ProofEdge(s, e) ::
      fuel > 0 && Target(root, s, e).Some? && Prove(root, policy, Target(root, s, e).value, fuel - 1).Some?
  }

  ghost function ExcludingEdges(root: Json, policy: Policy, s: Schema, fuel: nat): Edge -> bool
    decreases fuel, 0
  {
    e => fuel > 0 && Target(root, s, e).Some?
         && Prove(root, policy, Target(root, s, e).value, fuel - 1) == Some(Excluded)
  }

  ghost predicate Proved(root: Json, policy: Policy, v: Json, fuel: nat)
  {
    Prove(root, policy, v, fuel).Some?
  }

  /** More fuel never changes a verdict. */
  lemma {:induction false} ProveMonotone(root: Json, policy: Policy, v: Json, fuel: nat, more: nat)
    requires Proved(root, policy, v, fuel) && fuel <= more
    ensures Prove(root, policy, v, more) == Prove(root, policy, v, fuel)
    decreases fuel
  {
    hide LocalOk, ProofEdge, Target, NodeAdmission, ExcludingEdges;
    match v
    case Obj(s) =>
      if ExactObjectConst(s) {
        LiteralWithinMonotone(s["const"], fuel, more);
      } else {
        assert ChildrenProved(root, policy, s, fuel);
        forall e | ProofEdge(s, e)
          ensures fuel > 0 && Target(root, s, e).Some?
          ensures Proved(root, policy, Target(root, s, e).value, fuel - 1)
          ensures Prove(root, policy, Target(root, s, e).value, more - 1)
                  == Prove(root, policy, Target(root, s, e).value, fuel - 1)
        {
          ProveMonotone(root, policy, Target(root, s, e).value, fuel - 1, more - 1);
        }
        SameChildrenSameVerdict(root, policy, s, fuel, more);
      }
    case _ =>
  }

  lemma SameChildrenSameVerdict(root: Json, policy: Policy, s: Schema, fuel: nat, more: nat)
    requires LocalOk(policy, s) && !ExactObjectConst(s)
    requires forall e | ProofEdge(s, e) ::
               fuel > 0 && more > 0 && Target(root, s, e).Some?
               && Proved(root, policy, Target(root, s, e).value, fuel - 1)
               && Prove(root, policy, Target(root, s, e).value, more - 1)
                  == Prove(root, policy, Target(root, s, e).value, fuel - 1)
    ensures Prove(root, policy, Obj(s), more) == Prove(root, policy, Obj(s), fuel)
  {
    hide LocalOk, ProofEdge, Target, NodeAdmission, ExactObjectConst;
    assert ChildrenProved(root, policy, s, fuel) && ChildrenProved(root, policy, s, more);
    AdmissionCongruent(s, ExcludingEdges(root, policy, s, fuel), ExcludingEdges(root, policy, s, more));
  }

  lemma ListEdge(s: Schema, k: Keyword, i: nat)
    requires ShapeOf(k).InOrder? && i < |ListUnder(s, k)|
    ensures ProofEdge(s, Indexed(k, i))
  {
  }

  lemma AdmissionCongruent(s: Schema, f: Edge -> bool, g: Edge -> bool)
    requires forall e | ProofEdge(s, e) :: f(e) == g(e)
    ensures NodeAdmission(s, f) == NodeAdmission(s, g)
  {
    forall k: Keyword, i: nat | ShapeOf(k).InOrder? && i < |ListUnder(s, k)|
      ensures f(Indexed(k, i)) == g(Indexed(k, i))
    {
      ListEdge(s, k, i);
    }
    if Has(s, Ref) {
      assert ProofEdge(s, Single(Ref));
    }
  }
}
