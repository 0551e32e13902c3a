/** A reference evaluator for the JSON Schema 2020-12 vocabulary the portable
    forms use: applicators (Core, section 10), references (Core, section
    8.2.3.1) and the unevaluated keywords with their annotations (Core, section
    11). It is not part of the library, which calls a schema library here. */
module Evaluator {
  import opened Wrappers
  import opened JsonModel
  import opened FiniteSums
  import opened SchemaGraph
  import opened Pointers

  /** Whether an instance is valid, which of its members and items the schema
      evaluated, and how many subschema evaluations that took. */
  datatype Outcome = Outcome(valid: bool, members: set<string>, items: set<nat>, cost: nat)

  /** Assertions that only look at the instance and are not interpreted here. */
  datatype Assertions = Assertions(
    pattern: (string, string) -> bool,
    other: (Schema, Json) -> bool)

  /** The part of an instance an edge applies its subschema to. */
  datatype Selector = Self | Member(name: string) | NameOf(name: string) | Element(index: nat)

  datatype InstanceEdge = At(edge: Edge, part: Selector)

  function Select(inst: Json, part: Selector): Json
  {
    match part
    case Self => inst
    case Member(n) => if inst.Obj? && n in inst.members then inst.members[n] else Null
    case NameOf(n) => Str(n)
    case Element(i) => if inst.Arr? && i < |inst.items| then inst.items[i] else Null
  }

  function MembersOf(inst: Json): map<string, Json>
  {
    if inst.Obj? then inst.members else map[]
  }

  function ItemsOf(inst: Json): seq<Json>
  {
    if inst.Arr? then inst.items else []
  }

  /** Every application of a subschema under one keyword to part of an instance. */
  ghost function InstanceEdgesUnder(s: Schema, k: Keyword, inst: Json): set<InstanceEdge>
  {
    var members, items := MembersOf(inst), ItemsOf(inst);
    match k
    case Defs | Definitions => {}
    case Properties => set n | n in NamesUnder(s, k) && n in members :: At(Named(k, n), Member(n))
    case DependentSchemas => set n | n in NamesUnder(s, k) && n in members :: At(Named(k, n), Self)
    case AdditionalProperties =>
      if Has(s, k) then set n | n in members && n !in NamesUnder(s, Properties) :: At(Single(k), Member(n)) else {}
    case PropertyNames => if Has(s, k) then set n | n in members :: At(Single(k), NameOf(n)) else {}
    case UnevaluatedProperties => if Has(s, k) then set n | n in members :: At(Single(k), Member(n)) else {}
    case PrefixItems =>
      set i | i in Indices(|ListUnder(s, k)|) && i < |items| :: At(Indexed(k, i), Element(i))
    case Items =>
      if Has(s, k) then set i | i in Indices(|items|) && |ListUnder(s, PrefixItems)| <= i :: At(Single(k), Element(i)) else {}
    case Contains | UnevaluatedItems => if Has(s, k) then set i | i in Indices(|items|) :: At(Single(k), Element(i)) else {}
    case Not | If | Then | Else | Ref => if Has(s, k) then {At(Single(k), Self)} else {}
    case AllOf | AnyOf | OneOf => set i | i in Indices(|ListUnder(s, k)|) :: At(Indexed(k, i), Self)
  }

  const EVALUATED_KEYWORDS: seq<Keyword> :=
    [Properties, DependentSchemas, AdditionalProperties, PropertyNames, UnevaluatedProperties,
     PrefixItems, Items, Contains, UnevaluatedItems, Not, If, Then, Else, AllOf, AnyOf, OneOf, Ref]

  ghost function InstanceEdgesOver(s: Schema, ks: seq<Keyword>, inst: Json): (r: set<InstanceEdge>)
    ensures forall e :: e in r <==> e.edge.keyword in ks && e in InstanceEdgesUnder(s, e.edge.keyword, inst)
  {
    if ks == [] then {}
    else
      var last := ks[|ks| - 1];
      assert forall k :: k in ks <==> k in ks[..|ks| - 1] || k == last;
      InstanceEdgesOver(s, ks[..|ks| - 1], inst) + InstanceEdgesUnder(s, last, inst)
  }

  ghost function InstanceEdges(s: Schema, inst: Json): set<InstanceEdge>
  {
    InstanceEdgesOver(s, EVALUATED_KEYWORDS, inst)
  }

  // ---------- assertions ----------

  predicate TypeMatches(inst: Json, name: string)
  {
    match inst
    case Null => name == "null"
    case Bool(_) => name == "boolean"
    case Num(n) => name == "number" || (name == "integer" && n == n.Floor as real)
    case Str(_) => name == "string"
    case Arr(_) => name == "array"
    case Obj(_) => name == "object"
  }

  predicate TypeAccepts(value: Json, inst: Json)
  {
    match value
    case Str(name) => TypeMatches(inst, name)
    case Arr(names) => exists i | 0 <= i < |names| :: names[i].Str? && TypeMatches(inst, names[i].s)
    case _ => false
  }

  predicate AssertionsHold(assertions: Assertions, s: Schema, inst: Json)
  {
    && ("type" in s ==> TypeAccepts(s["type"], inst))
    && ("const" in s ==> inst == s["const"])
    && ("enum" in s ==> s["enum"].Arr? && inst in s["enum"].items)
    && ("pattern" in s && inst.Str? ==> s["pattern"].Str? && assertions.pattern(s["pattern"].s, inst.s))
    && ("required" in s && inst.Obj? ==>
          s["required"].Arr? && forall i | 0 <= i < |s["required"].items| ::
            s["required"].items[i].Str? && s["required"].items[i].s in inst.members)
    && assertions.other(s, inst)
  }

  // ---------- one schema object, given the outcomes of its edges ----------

  /** Keywords whose every application must be valid. */
  predicate Conjunctive(k: Keyword)
  {
    k in {Properties, DependentSchemas, AdditionalProperties, PropertyNames, PrefixItems, Items, AllOf, Ref, Then, Else,
          UnevaluatedProperties, UnevaluatedItems}
  }

  predicate InPlace(k: Keyword)
  {
    k in {DependentSchemas, If, Then, Else, AllOf, AnyOf, OneOf, Ref}
  }

  ghost predicate Branch(s: Schema, k: Keyword, sub: InstanceEdge -> Outcome)
  {
    && (k == Then ==> Has(s, If) && sub(At(Single(If), Self)).valid)
    && (k == Else ==> Has(s, If) && !sub(At(Single(If), Self)).valid)
  }

  /** `patternProperties` takes a name out of the reach of `additionalProperties`.
      Whether the member then satisfies the pattern's own subschema is left to the
      uninterpreted assertions. */
  predicate PatternMatched(assertions: Assertions, s: Schema, n: string)
  {
    "patternProperties" in s && s["patternProperties"].Obj?
    && exists p | p in s["patternProperties"].members :: assertions.pattern(p, n)
  }

  /** Members evaluated by the adjacent and in-place keywords. */
  ghost function EvaluatedMembers(assertions: Assertions, s: Schema, inst: Json, sub: InstanceEdge -> Outcome): set<string>
  {
    (set n | n in MembersOf(inst) && PatternMatched(assertions, s, n))
    + (set e | e in InstanceEdges(s, inst) && e.part.Member? && e.edge.keyword != UnevaluatedProperties :: e.part.name)
    + set e, n | e in InstanceEdges(s, inst) && InPlace(e.edge.keyword) && Branch(s, e.edge.keyword, sub)
                 && sub(e).valid && n in sub(e).members :: n
  }

  ghost function EvaluatedItems(s: Schema, inst: Json, sub: InstanceEdge -> Outcome): set<nat>
  {
    (set e | e in InstanceEdges(s, inst) && e.part.Element? && e.edge.keyword != UnevaluatedItems
             && (e.edge.keyword == Contains ==> sub(e).valid) :: e.part.index)
    + set e, i | e in InstanceEdges(s, inst) && InPlace(e.edge.keyword) && Branch(s, e.edge.keyword, sub)
                 && sub(e).valid && i in sub(e).items :: i
  }

  /** The applications that actually take place. */
  ghost function Applied(assertions: Assertions, s: Schema, inst: Json, sub: InstanceEdge -> Outcome): set<InstanceEdge>
  {
    set e | e in InstanceEdges(s, inst)
            && Branch(s, e.edge.keyword, sub)
            && (e.edge.keyword == AdditionalProperties ==> e.part.Member? && !PatternMatched(assertions, s, e.part.name))
            && (e.edge.keyword == UnevaluatedProperties ==> e.part.Member? && e.part.name !in EvaluatedMembers(assertions, s, inst, sub))
            && (e.edge.keyword == UnevaluatedItems ==> e.part.Element? && e.part.index !in EvaluatedItems(s, inst, sub))
  }

  function Bound(s: Schema, key: string, otherwise: real): real
  {
    if key in s && s[key].Num? then s[key].n else otherwise
  }

  ghost function Matches(s: Schema, inst: Json, sub: InstanceEdge -> Outcome): set<InstanceEdge>
  {
    set e | e in InstanceEdgesUnder(s, Contains, inst) && sub(e).valid
  }

  ghost predicate ConjunctionHolds(assertions: Assertions, s: Schema, inst: Json, sub: InstanceEdge -> Outcome)
  {
    forall e | e in Applied(assertions, s, inst, sub) && Conjunctive(e.edge.keyword) :: sub(e).valid
  }

  ghost predicate NegationHolds(s: Schema, sub: InstanceEdge -> Outcome)
  {
    Has(s, Not) ==> !sub(At(Single(Not), Self)).valid
  }

  ghost predicate SomeBranchHolds(s: Schema, sub: InstanceEdge -> Outcome)
  {
    Has(s, AnyOf) ==> exists i | 0 <= i < |ListUnder(s, AnyOf)| :: sub(At(Indexed(AnyOf, i), Self)).valid
  }

  ghost predicate OneBranchHolds(s: Schema, sub: InstanceEdge -> Outcome)
  {
    Has(s, OneOf) ==>
      exists i | 0 <= i < |ListUnder(s, OneOf)| :: sub(At(Indexed(OneOf, i), Self)).valid
        && forall j | 0 <= j < |ListUnder(s, OneOf)| && sub(At(Indexed(OneOf, j), Self)).valid :: j == i
  }

  ghost predicate ContainsHolds(s: Schema, inst: Json, sub: InstanceEdge -> Outcome)
  {
    Has(s, Contains) && inst.Arr? ==>
      Bound(s, "minContains", 1.0) <= |Matches(s, inst, sub)| as real
      && ("maxContains" in s ==> |Matches(s, inst, sub)| as real <= Bound(s, "maxContains", |inst.items| as real))
  }

  ghost predicate ApplicatorsHold(assertions: Assertions, s: Schema, inst: Json, sub: InstanceEdge -> Outcome)
  {
    && ConjunctionHolds(assertions, s, inst, sub) && NegationHolds(s, sub)
    && SomeBranchHolds(s, sub) && OneBranchHolds(s, sub) && ContainsHolds(s, inst, sub)
  }

  ghost function CostOf(sub: InstanceEdge -> Outcome): InstanceEdge -> nat
  {
    e => sub(e).cost
  }

  ghost function Combine(assertions: Assertions, s: Schema, inst: Json, sub: InstanceEdge -> Outcome): Outcome
  {
    Outcome(
      AssertionsHold(assertions, s, inst) && ApplicatorsHold(assertions, s, inst, sub),
      EvaluatedMembers(assertions, s, inst, sub) + (if Has(s, UnevaluatedProperties) then MembersOf(inst).Keys else {}),
      EvaluatedItems(s, inst, sub) + (if Has(s, UnevaluatedItems) then Indices(|ItemsOf(inst)|) else {}),
      1 + Sum(Applied(assertions, s, inst, sub), CostOf(sub)))
  }

  // ---------- evaluation ----------

  const FAILED := Outcome(false, {}, {}, 0)

  /** Evaluates along at most `fuel` edges of the schema graph. */
  ghost function Eval(root: Json, assertions: Assertions, v: Json, inst: Json, fuel: nat): Outcome
    decreases fuel, 1
  {
    if fuel == 0 then FAILED
    else match v
      case Bool(b) => Outcome(b, {}, {}, 1)
      case Obj(s) => Combine(assertions, s, inst, EvalEdges(root, assertions, s, inst, fuel - 1))
      case _ => FAILED
  }

  ghost function EvalEdges(root: Json, assertions: Assertions, s: Schema, inst: Json, fuel: nat): InstanceEdge -> Outcome
    decreases fuel, 2
  {
    (e: InstanceEdge) =>
      match Target(root, s, e.edge)
      case None => FAILED
      case Some(child) => Eval(root, assertions, child, Select(inst, e.part), fuel)
  }

  ghost predicate Accepts(root: Json, assertions: Assertions, v: Json, inst: Json, fuel: nat)
  {
    Eval(root, assertions, v, inst, fuel).valid
  }
}
