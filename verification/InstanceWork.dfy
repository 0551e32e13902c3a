/** The validation work of a schema against one concrete instance: memoised by
    schema pointer, instance pointer and role, saturating, and exact up to the
    limit; and why it bounds what a reference evaluation costs. */
module InstanceWork {
  import opened Wrappers
  import opened JsonModel
  import opened FiniteSums
  import opened SchemaGraph
  import opened Pointers
  import opened Closure
  import opened ProofGraph
  import opened Evaluator
  import opened SchemaWork

  // ---------- the fully expanded work ----------

  /** Subschema applications to the instance when none is shared. */
  ghost function Applications(root: Json, v: Json, inst: Json, fuel: nat): nat
    decreases fuel, 1
  {
    if fuel == 0 then 0
    else match v
      case Bool(_) => 1
      case Obj(s) => 1 + Sum(InstanceEdges(s, inst), EdgeApplications(root, s, inst, fuel - 1))
      case _ => 0
  }

  ghost function EdgeApplications(root: Json, s: Schema, inst: Json, fuel: nat): InstanceEdge -> nat
    decreases fuel, 2
  {
    (e: InstanceEdge) =>
      match Target(root, s, e.edge)
      case None => 0
      case Some(child) => Applications(root, child, Select(inst, e.part), fuel)
  }

  ghost function FullApplications(root: Json, v: Json, inst: Json): nat
  {
    Applications(root, v, inst, FULL)
  }

  ghost function FullEdgeApplications(root: Json, s: Schema, inst: Json): InstanceEdge -> nat
  {
    EdgeApplications(root, s, inst, FULL)
  }

  /** Every application goes along a work edge of the schema. */
  lemma AlongWorkEdge(s: Schema, inst: Json, e: InstanceEdge)
    requires e in InstanceEdgesUnder(s, e.edge.keyword, inst)
    ensures e.edge in EdgesUnder(s, e.edge.keyword) && WorkKeyword(e.edge.keyword)
  {
  }

  lemma AlongListedEdge(s: Schema, inst: Json, e: InstanceEdge)
    requires e in InstanceEdges(s, inst)
    ensures e.edge in EdgesOver(s, WORK_KEYWORDS)
  {
    hide EdgesUnder, InstanceEdgesUnder;
    AlongWorkEdge(s, inst, e);
    WorkKeywordListed(e.edge.keyword);
  }

  lemma {:induction false} ApplicationsStable(root: Json, policy: Policy, v: Json, inst: Json, rank: nat, fuel: nat, more: nat)
    requires Proved(root, policy, v, rank) && rank + 2 <= fuel <= more
    ensures Applications(root, v, inst, fuel) == Applications(root, v, inst, more)
    decreases rank, 1
  {
    hide Prove, InstanceEdges;
    match v
    case Obj(s) =>
      var edges := InstanceEdges(s, inst);
      forall e | e in edges
        ensures EdgeApplications(root, s, inst, fuel - 1)(e) == EdgeApplications(root, s, inst, more - 1)(e)
      {
        EdgeApplicationsStable(root, policy, s, inst, rank, fuel, more, e);
      }
      SumCongruent(edges, EdgeApplications(root, s, inst, fuel - 1), EdgeApplications(root, s, inst, more - 1));
    case _ =>
  }

  lemma {:induction false} EdgeApplicationsStable(
      root: Json, policy: Policy, s: Schema, inst: Json, rank: nat, fuel: nat, more: nat, e: InstanceEdge)
    requires Proved(root, policy, Obj(s), rank) && rank + 2 <= fuel <= more
    requires e in InstanceEdges(s, inst)
    ensures EdgeApplications(root, s, inst, fuel - 1)(e) == EdgeApplications(root, s, inst, more - 1)(e)
    decreases rank, 0
  {
    hide Prove, ProofEdge, Target, EdgesOver, EdgesUnder, InstanceEdges, Applications, EdgeApplications, ExactObjectConst, Select;
    AlongListedEdge(s, inst, e);
    WorkEdgeCases(root, s, e.edge);
    var part := Select(inst, e.part);
    if ExactObjectConst(s) {
      ExactConstHasNoEdges(s);
    } else {
      if ProofEdge(s, e.edge) {
        ProvedChild(root, policy, s, e.edge, rank);
        ApplicationsStable(root, policy, Target(root, s, e.edge).value, part, rank - 1, fuel - 1, more - 1);
      } else {
        FalseIsOneApplication(root, part, fuel - 1);
        FalseIsOneApplication(root, part, more - 1);
      }
      AlongEdge(root, s, inst, fuel - 1, e);
      AlongEdge(root, s, inst, more - 1, e);
    }
  }

  lemma AlongEdge(root: Json, s: Schema, inst: Json, fuel: nat, e: InstanceEdge)
    requires Target(root, s, e.edge).Some?
    ensures EdgeApplications(root, s, inst, fuel)(e) == Applications(root, Target(root, s, e.edge).value, Select(inst, e.part), fuel)
  {
    hide Target, Applications, Select;
  }

  lemma FalseIsOneApplication(root: Json, inst: Json, fuel: nat)
    requires fuel > 0
    ensures Applications(root, Bool(false), inst, fuel) == 1
  {
  }

  lemma FullApplicationsUnfold(root: Json, policy: Policy, s: Schema, inst: Json, rank: nat)
    requires Proved(root, policy, Obj(s), rank) && rank <= MAX_DEPTH
    ensures FullApplications(root, Obj(s), inst) == 1 + Sum(InstanceEdges(s, inst), FullEdgeApplications(root, s, inst))
  {
    hide Prove, InstanceEdges;
    ApplicationsStable(root, policy, Obj(s), inst, rank, FULL, FULL + 1);
  }

  // ---------- the reference evaluation costs no more ----------

  /** Conditional and unevaluated keywords only ever skip applications. */
  lemma {:induction false} EvaluationCostBound(root: Json, assertions: Assertions, v: Json, inst: Json, fuel: nat)
    ensures Eval(root, assertions, v, inst, fuel).cost <= Applications(root, v, inst, fuel)
    decreases fuel
  {
    hide InstanceEdges, Target, EvaluatedMembers, EvaluatedItems, AssertionsHold, ApplicatorsHold, Branch;
    if fuel > 0 && v.Obj? {
      var s := v.members;
      var sub := EvalEdges(root, assertions, s, inst, fuel - 1);
      forall e | e in InstanceEdges(s, inst) ensures CostOf(sub)(e) <= EdgeApplications(root, s, inst, fuel - 1)(e) {
        match Target(root, s, e.edge)
        case None =>
        case Some(child) => EvaluationCostBound(root, assertions, child, Select(inst, e.part), fuel - 1);
      }
      AppliedAmongEdges(assertions, s, inst, sub);
      SumMonotone(Applied(assertions, s, inst, sub), InstanceEdges(s, inst), CostOf(sub), EdgeApplications(root, s, inst, fuel - 1));
    }
  }

  lemma AppliedAmongEdges(assertions: Assertions, s: Schema, inst: Json, sub: InstanceEdge -> Outcome)
    ensures Applied(assertions, s, inst, sub) <= InstanceEdges(s, inst)
  {
    hide InstanceEdges, EvaluatedMembers, EvaluatedItems, Branch;
  }

  // ---------- instance pointers and roles ----------

  datatype Role = Value | PropertyName

  const PROPERTY_NAME_TOKEN := "@propertyName"

  function PartPointer(pointer: string, part: Selector): string
  {
    match part
    case Self => pointer
    case Member(n) => AppendPointer(pointer, [n])
    case NameOf(n) => AppendPointer(pointer, [PROPERTY_NAME_TOKEN, n])
    case Element(i) => AppendPointer(pointer, [Itoa(i)])
  }

  function PartRole(role: Role, part: Selector): Role
  {
    if part.NameOf? then PropertyName else role
  }

  /** What an instance pointer names: a value of the document, or a member name. */
  ghost predicate Names(document: Json, pointer: string, role: Role, inst: Json)
  {
    match role
    case Value => Addresses(document, pointer, inst)
    case PropertyName => inst.Str? && exists tokens :: pointer == PointerTo(tokens + [PROPERTY_NAME_TOKEN, inst.s])
  }

  /** A pointer and a role determine the instance value, so the memo key does. */
  lemma NamesOneValue(document: Json, pointer: string, role: Role, a: Json, b: Json)
    requires Names(document, pointer, role, a) && Names(document, pointer, role, b)
    ensures a == b
  {
    if role.PropertyName? {
      var s :| pointer == PointerTo(s + [PROPERTY_NAME_TOKEN, a.s]);
      var t :| pointer == PointerTo(t + [PROPERTY_NAME_TOKEN, b.s]);
      PointersInjective(s + [PROPERTY_NAME_TOKEN, a.s], t + [PROPERTY_NAME_TOKEN, b.s]);
      assert (s + [PROPERTY_NAME_TOKEN, a.s])[|s| + 1] == (t + [PROPERTY_NAME_TOKEN, b.s])[|t| + 1];
    }
  }

  /** Without the role it would not: a document may itself use the reserved name. */
  lemma RoleIsNeeded() returns (document: Json, pointer: string)
    ensures Names(document, pointer, Value, Null) && Names(document, pointer, PropertyName, Str("a"))
  {
    var inner := map["a" := Null];
    document := Obj(map[PROPERTY_NAME_TOKEN := Obj(inner)]);
    pointer := PointerTo([PROPERTY_NAME_TOKEN, "a"]);
    WalkTwo(document, PROPERTY_NAME_TOKEN, "a", Obj(inner), Null);
    TokensRoundTrip([PROPERTY_NAME_TOKEN, "a"]);
    assert [] + [PROPERTY_NAME_TOKEN, "a"] == [PROPERTY_NAME_TOKEN, "a"];
  }

  /** The part exists, so selecting it is not a default. */
  predicate HasPart(inst: Json, part: Selector)
  {
    match part
    case Self => true
    case Member(n) => inst.Obj? && n in inst.members
    case NameOf(n) => inst.Obj? && n in inst.members
    case Element(i) => inst.Arr? && i < |inst.items|
  }

  lemma PartNamed(document: Json, pointer: string, role: Role, inst: Json, part: Selector)
    requires Names(document, pointer, role, inst) && HasPart(inst, part)
    ensures Names(document, PartPointer(pointer, part), PartRole(role, part), Select(inst, part))
  {
    match part
    case Self =>
    case Member(n) =>
      WalkOne(inst, n, inst.members[n]);
      AddressesAppend(document, pointer, inst, [n], inst.members[n]);
    case NameOf(n) =>
      var tokens :| pointer == PointerTo(tokens);
      AppendIsPointerTo(tokens, [PROPERTY_NAME_TOKEN, n]);
    case Element(i) =>
      IndexRoundTrip(i, |inst.items|);
      WalkOne(inst, Itoa(i), inst.items[i]);
      AddressesAppend(document, pointer, inst, [Itoa(i)], inst.items[i]);
  }

  lemma WalkOne(v: Json, token: string, child: Json)
    requires Step(v, token) == Some(child)
    ensures Walk(v, [token]) == Some(child)
  {
    assert [token][1..] == [];
    assert Walk(child, []) == Some(child);
  }

  lemma EdgesHaveParts(s: Schema, inst: Json, e: InstanceEdge)
    requires e in InstanceEdgesUnder(s, e.edge.keyword, inst)
    ensures HasPart(inst, e.part)
  {
  }

  // ---------- the applications under one keyword, as the estimator visits them ----------

  /** How the estimator walks a keyword: over member names, over positions, or once. */
  datatype Traversal = OverNames | OverPositions | Once | Never

  function TraversalOf(k: Keyword): Traversal
  {
    match k
    case Properties | DependentSchemas | AdditionalProperties | PropertyNames | UnevaluatedProperties => OverNames
    case PrefixItems | Items | Contains | UnevaluatedItems | AllOf | AnyOf | OneOf => OverPositions
    case Not | If | Then | Else | Ref => Once
    case Defs | Definitions => Never
  }

  function NamesToVisit(s: Schema, k: Keyword, inst: Json): set<string>
  {
    var members := MembersOf(inst).Keys;
    match k
    case Properties | DependentSchemas => NamesUnder(s, k).Keys * members
    case AdditionalProperties => if Has(s, k) then members - NamesUnder(s, Properties).Keys else {}
    case _ => if Has(s, k) then members else {}
  }

  function NameEdge(k: Keyword, n: string): InstanceEdge
  {
    match k
    case Properties => At(Named(k, n), Member(n))
    case DependentSchemas => At(Named(k, n), Self)
    case PropertyNames => At(Single(k), NameOf(n))
    case _ => At(Single(k), Member(n))
  }

  /** The half-open range of positions a keyword applies to. */
  function Positions(s: Schema, k: Keyword, inst: Json): (nat, nat)
  {
    var length := |ItemsOf(inst)|;
    match k
    case PrefixItems => (0, if |ListUnder(s, k)| < length then |ListUnder(s, k)| else length)
    case Items => (if Has(s, k) then |ListUnder(s, PrefixItems)| else length, length)
    case Contains | UnevaluatedItems => (0, if Has(s, k) then length else 0)
    case _ => (0, |ListUnder(s, k)|)
  }

  function PositionEdge(k: Keyword, i: nat): InstanceEdge
  {
    match k
    case PrefixItems => At(Indexed(k, i), Element(i))
    case Items | Contains | UnevaluatedItems => At(Single(k), Element(i))
    case _ => At(Indexed(k, i), Self)
  }

  ghost function NameEdges(k: Keyword, names: set<string>): set<InstanceEdge>
  {
    set n | n in names :: NameEdge(k, n)
  }

  ghost function PositionEdges(k: Keyword, from: nat, to: nat): set<InstanceEdge>
  {
    set i | i in Indices(to) && from <= i :: PositionEdge(k, i)
  }

  lemma VisitedNames(s: Schema, k: Keyword, inst: Json)
    requires TraversalOf(k).OverNames?
    ensures InstanceEdgesUnder(s, k, inst) == NameEdges(k, NamesToVisit(s, k, inst))
  {
    var under, names := InstanceEdgesUnder(s, k, inst), NamesToVisit(s, k, inst);
    forall n | n in names ensures NameEdge(k, n) in under {
    }
    forall e | e in under ensures e in NameEdges(k, names) {
      match k
      case Properties =>
        var n :| n in names && e == At(Named(k, n), Member(n));
        assert e == NameEdge(k, n);
      case DependentSchemas =>
        var n :| n in names && e == At(Named(k, n), Self);
        assert e == NameEdge(k, n);
      case PropertyNames =>
        var n :| n in names && e == At(Single(k), NameOf(n));
        assert e == NameEdge(k, n);
      case _ =>
        var n :| n in names && e == At(Single(k), Member(n));
        assert e == NameEdge(k, n);
    }
  }

  lemma VisitedPositions(s: Schema, k: Keyword, inst: Json)
    requires TraversalOf(k).OverPositions?
    ensures var (from, to) := Positions(s, k, inst);
            InstanceEdgesUnder(s, k, inst) == PositionEdges(k, from, to)
  {
    var (from, to) := Positions(s, k, inst);
    var under, visited := InstanceEdgesUnder(s, k, inst), PositionEdges(k, from, to);
    forall i: nat | from <= i < to ensures PositionEdge(k, i) in under {
      assert i in Indices(to);
      if k == PrefixItems {
        assert i in Indices(|ListUnder(s, k)|);
      }
    }
    forall e | e in under ensures e in visited {
      if k in {PrefixItems, Items, Contains, UnevaluatedItems} {
        assert e.part.index in Indices(to);
      } else {
        assert e.edge.index in Indices(to);
      }
    }
  }

  lemma NameEdgesInsert(k: Keyword, all: set<string>, remaining: set<string>, n: string)
    requires n in remaining && remaining <= all
    ensures NameEdges(k, all - (remaining - {n})) == NameEdges(k, all - remaining) + {NameEdge(k, n)}
    ensures NameEdge(k, n) !in NameEdges(k, all - remaining)
    ensures NameEdge(k, n) in NameEdges(k, all)
  {
    assert all - (remaining - {n}) == all - remaining + {n};
  }

  lemma PositionEdgesInsert(k: Keyword, from: nat, i: nat, to: nat)
    requires from <= i < to
    ensures PositionEdges(k, from, i + 1) == PositionEdges(k, from, i) + {PositionEdge(k, i)}
    ensures PositionEdge(k, i) !in PositionEdges(k, from, i)
    ensures PositionEdge(k, i) in PositionEdges(k, from, to)
  {
  }

  lemma NothingVisited(k: Keyword, from: nat)
    ensures NameEdges(k, {}) == {} && PositionEdges(k, from, from) == {}
  {
  }

  lemma OneWalk(s: Schema, k: Keyword, inst: Json)
    requires TraversalOf(k).Once?
    ensures InstanceEdgesUnder(s, k, inst) == if Has(s, k) then {At(Single(k), Self)} else {}
  {
  }

  // ---------- the memo table ----------

  datatype InstanceKey = InstanceKey(schemaPointer: string, instancePointer: string, role: Role)

  type InstanceTable = map<InstanceKey, WorkMemo>

  ghost predicate EntryRight(root: Json, document: Json, key: InstanceKey, entry: WorkMemo)
  {
    exists v, inst ::
      && Addresses(root, key.schemaPointer, v) && Names(document, key.instancePointer, key.role, inst)
      && match entry
         case Visiting => v.Obj?
         case Done(work) => work == Saturate(FullApplications(root, v, inst))
  }

  ghost predicate TableRight(root: Json, document: Json, memo: InstanceTable)
  {
    forall key | key in memo :: EntryRight(root, document, key, memo[key])
  }

  ghost predicate NoneVisitedWithin(root: Json, policy: Policy, memo: InstanceTable, rank: nat)
  {
    forall key | key in memo && memo[key].Visiting? && Locate(root, key.schemaPointer).Some? ::
      !Proved(root, policy, Locate(root, key.schemaPointer).value, rank)
  }

  ghost predicate CanEstimate(root: Json, policy: Policy, memo: InstanceTable, v: Json, rank: nat)
  {
    v.Bool? || (rank <= MAX_DEPTH && Proved(root, policy, v, rank) && NoneVisitedWithin(root, policy, memo, rank))
  }

  lemma TableHit(root: Json, document: Json, policy: Policy, memo: InstanceTable, v: Json, inst: Json, key: InstanceKey, rank: nat)
    requires TableRight(root, document, memo) && key in memo
    requires Addresses(root, key.schemaPointer, v) && Names(document, key.instancePointer, key.role, inst)
    requires CanEstimate(root, policy, memo, v, rank)
    ensures memo[key] == Done(Saturate(FullApplications(root, v, inst)))
  {
    hide Prove, FullApplications, Names;
    assert EntryRight(root, document, key, memo[key]);
    var w, i :| Addresses(root, key.schemaPointer, w) && Names(document, key.instancePointer, key.role, i)
                && match memo[key]
                   case Visiting => w.Obj?
                   case Done(work) => work == Saturate(FullApplications(root, w, i));
    AddressUnique(root, key.schemaPointer, v, w);
    NamesOneValue(document, key.instancePointer, key.role, inst, i);
  }

  /** A node, an instance value and the pointers that name them. */
  datatype Place = Place(schema: Schema, pointer: string, inst: Json, instPointer: string, role: Role)

  function KeyOf(place: Place): InstanceKey
  {
    InstanceKey(place.pointer, place.instPointer, place.role)
  }

  ghost predicate EdgesCanEstimate(root: Json, document: Json, policy: Policy, memo: InstanceTable, place: Place, rank: nat)
  {
    && Addresses(root, place.pointer, Obj(place.schema)) && Names(document, place.instPointer, place.role, place.inst)
    && Proved(root, policy, Obj(place.schema), rank) && rank <= MAX_DEPTH
    && (rank > 0 ==> NoneVisitedWithin(root, policy, memo, rank - 1))
  }

  lemma TableVisiting(root: Json, document: Json, policy: Policy, before: InstanceTable, place: Place, bound: nat, rank: nat)
    requires TableRight(root, document, before) && KeyOf(place) !in before
    requires Addresses(root, place.pointer, Obj(place.schema)) && Names(document, place.instPointer, place.role, place.inst)
    requires NoneVisitedWithin(root, policy, before, bound) && rank <= bound <= MAX_DEPTH
    requires IsRank(root, policy, Obj(place.schema), rank)
    ensures TableRight(root, document, before[KeyOf(place) := Visiting])
    ensures EdgesCanEstimate(root, document, policy, before[KeyOf(place) := Visiting], place, rank)
  {
    hide Prove, FullApplications, Names, IsRank, Proved, TokensOf, Canonical;
    var memo := before[KeyOf(place) := Visiting];
    assert EntryRight(root, document, KeyOf(place), Visiting);
    RankIsTight(root, policy, Obj(place.schema), rank);
    if rank > 0 {
      var less: nat := rank - 1;
      forall key | key in memo && memo[key].Visiting? && Locate(root, key.schemaPointer).Some?
        ensures !Proved(root, policy, Locate(root, key.schemaPointer).value, less)
      {
        if key != KeyOf(place) {
          UnprovedBelow(root, policy, Locate(root, key.schemaPointer).value, less, bound);
        }
      }
      assert NoneVisitedWithin(root, policy, memo, less);
    }
  }

  lemma TableDone(root: Json, document: Json, memo: InstanceTable, v: Json, inst: Json, key: InstanceKey, work: nat)
    requires TableRight(root, document, memo)
    requires Addresses(root, key.schemaPointer, v) && Names(document, key.instancePointer, key.role, inst)
    requires work == Saturate(FullApplications(root, v, inst))
    ensures TableRight(root, document, memo[key := Done(work)])
  {
    hide FullApplications, Names, Addresses;
    assert EntryRight(root, document, key, Done(work));
  }

  lemma ExtendsThroughVisit<K>(before: map<K, WorkMemo>, memo: map<K, WorkMemo>, key: K, work: nat)
    requires key !in before && WorkExtends(before[key := Visiting], memo)
    ensures WorkExtends(before, memo[key := Done(work)])
  {
  }

  lemma NoneVisitedExtends(root: Json, policy: Policy, before: InstanceTable, after: InstanceTable, rank: nat)
    requires NoneVisitedWithin(root, policy, before, rank) && WorkExtends(before, after)
    ensures NoneVisitedWithin(root, policy, after, rank)
  {
    hide Prove;
  }

  /** After the closure proof, no instance makes the estimator fail: every edge it
      follows resolves to a schema that is not being estimated already. */
  lemma EdgeCanEstimate(root: Json, document: Json, policy: Policy, memo: InstanceTable, place: Place, rank: nat, e: InstanceEdge)
    requires EdgesCanEstimate(root, document, policy, memo, place, rank)
    requires e in InstanceEdgesUnder(place.schema, e.edge.keyword, place.inst)
    ensures Target(root, place.schema, e.edge).Some?
    ensures var child := Target(root, place.schema, e.edge).value;
            child.Bool? || (rank > 0 && CanEstimate(root, policy, memo, child, rank - 1))
    ensures Addresses(root, EdgePointer(root, place.schema, place.pointer, e.edge), Target(root, place.schema, e.edge).value)
    ensures Names(document, PartPointer(place.instPointer, e.part), PartRole(place.role, e.part), Select(place.inst, e.part))
  {
    hide Prove, ProofEdge, Target, EdgesUnder, NoneVisitedWithin, ExactObjectConst, EdgePointer, Addresses, InstanceEdgesUnder, Names;
    AlongWorkEdge(place.schema, place.inst, e);
    EdgesHaveParts(place.schema, place.inst, e);
    PartNamed(document, place.instPointer, place.role, place.inst, e.part);
    WorkKeywordListed(e.edge.keyword);
    assert e.edge in EdgesOver(place.schema, WORK_KEYWORDS);
    WorkEdgeCases(root, place.schema, e.edge);
    if ExactObjectConst(place.schema) {
      ExactConstHasNoEdges(place.schema);
    } else if ProofEdge(place.schema, e.edge) {
      ProvedChild(root, policy, place.schema, e.edge, rank);
    }
    EdgeAddresses(root, place.schema, place.pointer, e.edge);
  }

  // ---------- running totals ----------

  ghost function AppliedBefore(root: Json, s: Schema, inst: Json, i: nat): nat
    requires i <= |EVALUATED_KEYWORDS|
  {
    Sum(InstanceEdgesOver(s, EVALUATED_KEYWORDS[..i], inst), FullEdgeApplications(root, s, inst))
  }

  lemma InstanceEdgesSplit(s: Schema, inst: Json, i: nat)
    requires i < |EVALUATED_KEYWORDS|
    ensures InstanceEdgesOver(s, EVALUATED_KEYWORDS[..i + 1], inst) ==
            InstanceEdgesOver(s, EVALUATED_KEYWORDS[..i], inst) + InstanceEdgesUnder(s, EVALUATED_KEYWORDS[i], inst)
    ensures InstanceEdgesOver(s, EVALUATED_KEYWORDS[..i], inst) !! InstanceEdgesUnder(s, EVALUATED_KEYWORDS[i], inst)
  {
    hide InstanceEdgesUnder;
    var ks := EVALUATED_KEYWORDS;
    assert ks[..i + 1] == ks[..i] + [ks[i]];
    DistinctKeywords(i);
    InstanceEdgesKnowTheirKeyword(s, ks[i], inst);
  }

  lemma AppliedNext(root: Json, s: Schema, inst: Json, i: nat)
    requires i < |EVALUATED_KEYWORDS|
    ensures AppliedBefore(root, s, inst, i + 1) ==
            AppliedBefore(root, s, inst, i) + Sum(InstanceEdgesUnder(s, EVALUATED_KEYWORDS[i], inst), FullEdgeApplications(root, s, inst))
  {
    hide FullEdgeApplications, InstanceEdgesUnder, InstanceEdgesOver;
    InstanceEdgesSplit(s, inst, i);
    SumUnion(InstanceEdgesOver(s, EVALUATED_KEYWORDS[..i], inst), InstanceEdgesUnder(s, EVALUATED_KEYWORDS[i], inst),
             FullEdgeApplications(root, s, inst));
  }

  lemma InstanceEdgesKnowTheirKeyword(s: Schema, k: Keyword, inst: Json)
    ensures forall e | e in InstanceEdgesUnder(s, k, inst) :: e.edge.keyword == k
  {
  }

  lemma DistinctKeywords(i: nat)
    requires i < |EVALUATED_KEYWORDS|
    ensures EVALUATED_KEYWORDS[i] !in EVALUATED_KEYWORDS[..i]
  {
  }

  lemma AppliedStarts(root: Json, s: Schema, inst: Json)
    ensures AppliedBefore(root, s, inst, 0) == 0
  {
    assert EVALUATED_KEYWORDS[..0] == [];
  }

  lemma AppliedEnds(root: Json, policy: Policy, s: Schema, inst: Json, rank: nat)
    requires Proved(root, policy, Obj(s), rank) && rank <= MAX_DEPTH
    ensures FullApplications(root, Obj(s), inst) == 1 + AppliedBefore(root, s, inst, 17)
  {
    hide Prove, FullApplications, FullEdgeApplications, InstanceEdgesUnder;
    FullApplicationsUnfold(root, policy, s, inst, rank);
    assert EVALUATED_KEYWORDS[..17] == EVALUATED_KEYWORDS;
  }

  lemma EveryKeywordTraversed(i: nat)
    requires i < |EVALUATED_KEYWORDS|
    ensures WorkKeyword(EVALUATED_KEYWORDS[i]) && !TraversalOf(EVALUATED_KEYWORDS[i]).Never?
  {
  }

  lemma BoolApplications(root: Json, v: Json, inst: Json)
    requires v.Bool?
    ensures FullApplications(root, v, inst) == 1
  {
  }

  // ---------- the estimator ----------

  class SchemaInstanceValidationWorkEstimator {
    const root: Json
    ghost const document: Json
    ghost const policy: Policy
    var memo: InstanceTable

    constructor (root: Json, ghost document: Json, ghost policy: Policy)
      ensures this.root == root && this.document == document && this.policy == policy && memo == map[]
    {
      this.root, this.document, this.policy, memo := root, document, policy, map[];
    }

    ghost predicate Ready(place: Place, rank: nat)
      reads this
    {
      TableRight(root, document, memo) && EdgesCanEstimate(root, document, policy, memo, place, rank)
    }

    method Estimate(v: Json, inst: Json, key: InstanceKey, ghost rank: nat) returns (r: Result<nat, WorkError>)
      requires TableRight(root, document, memo)
      requires Addresses(root, key.schemaPointer, v) && Names(document, key.instancePointer, key.role, inst)
      requires CanEstimate(root, policy, memo, v, rank)
      modifies this
      ensures TableRight(root, document, memo) && WorkExtends(old(memo), memo)
      ensures r == Ok(Saturate(FullApplications(root, v, inst)))
      decreases if v.Bool? then 0 else rank + 1, 5
    {
      hide Prove, TableRight, FullApplications, NoneVisitedWithin, Addresses, Names, WorkExtends;
      if key in memo {
        TableHit(root, document, policy, memo, v, inst, key, rank);
        WorkExtendsSelf(memo);
        if memo[key].Visiting? {
          return Err(Cyclic);
        }
        return Ok(memo[key].work);
      }
      ghost var before := memo;
      WorkExtendsSelf(before[key := Visiting]);
      if v.Bool? {
        BoolApplications(root, v, inst);
        TableDone(root, document, memo, v, inst, key, 1);
        ExtendsThroughVisit(before, before[key := Visiting], key, 1);
        assert before[key := Visiting][key := Done(1)] == before[key := Done(1)];
        memo := memo[key := Done(1)];
        return Ok(1);
      }
      if !v.Obj? {
        SchemasOnly(root, policy, v, rank);
        return Err(NotASchema);
      }
      var place := Place(v.members, key.schemaPointer, inst, key.instancePointer, key.role);
      ghost var exact := RankWithin(root, policy, v, rank);
      TableVisiting(root, document, policy, before, place, rank, exact);
      memo := memo[key := Visiting];
      r := EstimateObject(place, exact);
      TableDone(root, document, memo, v, inst, key, r.value);
      ExtendsThroughVisit(before, memo, key, r.value);
      memo := memo[key := Done(r.value)];
    }

    method EstimateObject(place: Place, ghost rank: nat) returns (r: Result<nat, WorkError>)
      requires Ready(place, rank)
      modifies this
      ensures TableRight(root, document, memo) && WorkExtends(old(memo), memo)
      ensures r == Ok(Saturate(FullApplications(root, Obj(place.schema), place.inst)))
      decreases rank + 1, 4
    {
      hide Prove, TableRight, FullApplications, NoneVisitedWithin, Addresses, Names, AppliedBefore, ShapeOk;
      ShapesProved(root, policy, place.schema, rank);
      r := EstimateKeywords(place, rank);
      AppliedEnds(root, policy, place.schema, place.inst, rank);
    }

    method EstimateKeywords(place: Place, ghost rank: nat) returns (r: Result<nat, WorkError>)
      requires Ready(place, rank) && forall k | k in WORK_KEYWORDS :: ShapeOk(place.schema, k)
      modifies this
      ensures Ready(place, rank) && WorkExtends(old(memo), memo)
      ensures r == Ok(Saturate(1 + AppliedBefore(root, place.schema, place.inst, 17)))
      decreases rank + 1, 3
    {
      hide Ready, AppliedBefore, InstanceEdgesUnder, FullEdgeApplications, ShapeOk, WorkExtends;
      AppliedStarts(root, place.schema, place.inst);
      ghost var start := memo;
      WorkExtendsSelf(start);
      var work, i := 1, 0;
      while i < 17
        invariant 0 <= i <= 17 && Ready(place, rank) && WorkExtends(start, memo)
        invariant work == Saturate(1 + AppliedBefore(root, place.schema, place.inst, i))
      {
        var k := EVALUATED_KEYWORDS[i];
        EveryKeywordTraversed(i);
        WorkKeywordListed(k);
        AppliedNext(root, place.schema, place.inst, i);
        ghost var before := memo;
        match TraversalOf(k) {
          case OverNames => r := EstimateOverNames(place, k, rank, work);
          case OverPositions => r := EstimateOverPositions(place, k, rank, work);
          case Once => r := EstimateOnce(place, k, rank, work);
        }
        if r.Err? {
          return;
        }
        WorkExtendsStep(start, before, memo);
        work, i := r.value, i + 1;
      }
      return Ok(work);
    }

    method EstimateOverNames(place: Place, k: Keyword, ghost rank: nat, work: nat) returns (r: Result<nat, WorkError>)
      requires Ready(place, rank) && TraversalOf(k).OverNames? && ShapeOk(place.schema, k) && work <= LIMIT
      modifies this
      ensures Ready(place, rank) && WorkExtends(old(memo), memo)
      ensures r == Ok(Saturate(work + Sum(InstanceEdgesUnder(place.schema, k, place.inst), FullEdgeApplications(root, place.schema, place.inst))))
      decreases rank + 1, 2
    {
      hide Ready, FullEdgeApplications, Text, WorkExtends, NameEdges, InstanceEdgesUnder, NamesToVisit;
      if ShapeOf(k).ByName? && Has(place.schema, k) && !place.schema[Text(k)].Obj? {
        return Err(NotAnObject);
      }
      VisitedNames(place.schema, k, place.inst);
      var all := NamesToVisit(place.schema, k, place.inst);
      ghost var f := FullEdgeApplications(root, place.schema, place.inst);
      ghost var start := memo;
      WorkExtendsSelf(start);
      var remaining, total := all, work;
      assert all - remaining == {};
      NothingVisited(k, 0);
      while remaining != {}
        invariant remaining <= all && Ready(place, rank) && WorkExtends(start, memo)
        invariant total == Saturate(work + Sum(NameEdges(k, all - remaining), f))
      {
        var name :| name in remaining;
        ghost var before := memo;
        NameEdgesInsert(k, all, remaining, name);
        r := AddChild(place, NameEdge(k, name), k, rank, total);
        if r.Err? {
          return;
        }
        WorkExtendsStep(start, before, memo);
        SumInsert(NameEdges(k, all - remaining), f, NameEdge(k, name));
        total := r.value;
        remaining := remaining - {name};
      }
      assert all - remaining == all;
      return Ok(total);
    }

    method EstimateOverPositions(place: Place, k: Keyword, ghost rank: nat, work: nat) returns (r: Result<nat, WorkError>)
      requires Ready(place, rank) && TraversalOf(k).OverPositions? && ShapeOk(place.schema, k) && work <= LIMIT
      modifies this
      ensures Ready(place, rank) && WorkExtends(old(memo), memo)
      ensures r == Ok(Saturate(work + Sum(InstanceEdgesUnder(place.schema, k, place.inst), FullEdgeApplications(root, place.schema, place.inst))))
      decreases rank + 1, 2
    {
      hide Ready, FullEdgeApplications, Text, WorkExtends, PositionEdges, InstanceEdgesUnder, Positions;
      if k in {AllOf, AnyOf, OneOf} && Has(place.schema, k) && !place.schema[Text(k)].Arr? {
        return Err(NotAnArray);
      }
      VisitedPositions(place.schema, k, place.inst);
      var (from, to) := Positions(place.schema, k, place.inst);
      ghost var f := FullEdgeApplications(root, place.schema, place.inst);
      ghost var start := memo;
      WorkExtendsSelf(start);
      var index, total := from, work;
      NothingVisited(k, from);
      if from > to {
        NoPositions(k, from, to);
        return Ok(total);
      }
      while index < to
        invariant from <= index <= to && Ready(place, rank) && WorkExtends(start, memo)
        invariant total == Saturate(work + Sum(PositionEdges(k, from, index), f))
      {
        ghost var before := memo;
        PositionEdgesInsert(k, from, index, to);
        r := AddChild(place, PositionEdge(k, index), k, rank, total);
        if r.Err? {
          return;
        }
        WorkExtendsStep(start, before, memo);
        SumInsert(PositionEdges(k, from, index), f, PositionEdge(k, index));
        total := r.value;
        index := index + 1;
      }
      return Ok(total);
    }

    method EstimateOnce(place: Place, k: Keyword, ghost rank: nat, work: nat) returns (r: Result<nat, WorkError>)
      requires Ready(place, rank) && TraversalOf(k).Once? && ShapeOk(place.schema, k) && work <= LIMIT
      modifies this
      ensures Ready(place, rank) && WorkExtends(old(memo), memo)
      ensures r == Ok(Saturate(work + Sum(InstanceEdgesUnder(place.schema, k, place.inst), FullEdgeApplications(root, place.schema, place.inst))))
      decreases rank + 1, 2
    {
      hide Ready, FullEdgeApplications, Text, InstanceEdgesUnder;
      OneWalk(place.schema, k, place.inst);
      if !Has(place.schema, k) {
        return Ok(work);
      }
      if k == Ref && !place.schema[Text(Ref)].Str? {
        return Err(BadReference);
      }
      SumInsert({}, FullEdgeApplications(root, place.schema, place.inst), At(Single(k), Self));
      assert {} + {At(Single(k), Self)} == {At(Single(k), Self)};
      r := AddChild(place, At(Single(k), Self), k, rank, work);
    }

    /** Adds one application to a running total, unless it is over the limit. */
    method AddChild(place: Place, e: InstanceEdge, ghost k: Keyword, ghost rank: nat, work: nat) returns (r: Result<nat, WorkError>)
      requires Ready(place, rank) && e in InstanceEdgesUnder(place.schema, k, place.inst) && work <= LIMIT
      modifies this
      ensures Ready(place, rank) && WorkExtends(old(memo), memo)
      ensures r == Ok(Saturate(work + FullEdgeApplications(root, place.schema, place.inst)(e)))
      decreases rank + 1, 0
    {
      hide Prove, TableRight, NoneVisitedWithin, EdgePointer, InstanceEdgesUnder, Applications, Names, Addresses, Target;
      WorkExtendsSelf(memo);
      if work > MAX_WORK {
        return Ok(work);
      }
      InstanceEdgesKnowTheirKeyword(place.schema, k, place.inst);
      EdgeCanEstimate(root, document, policy, memo, place, rank, e);
      var target := Target(root, place.schema, e.edge);
      if target.None? {
        return Err(BadReference);
      }
      ghost var before := memo;
      var key := InstanceKey(EdgePointer(root, place.schema, place.pointer, e.edge),
                             PartPointer(place.instPointer, e.part), PartRole(place.role, e.part));
      var childWork := Estimate(target.value, Select(place.inst, e.part), key, if rank == 0 then 0 else rank - 1);
      if rank > 0 {
        NoneVisitedExtends(root, policy, before, memo, rank - 1);
      }
      if childWork.Err? {
        return childWork;
      }
      SaturatingAddIsSum(work, FullApplications(root, target.value, Select(place.inst, e.part)));
      return Ok(SaturatingAdd(work, childWork.value));
    }
  }

  lemma NoPositions(k: Keyword, from: nat, to: nat)
    requires from > to
    ensures PositionEdges(k, from, to) == {}
  {
  }
}
