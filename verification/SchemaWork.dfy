/** The validation work of one schema: a memoised, saturating estimate that stops
    early once it exceeds the limit, and why it is still exact up to the limit. */
module SchemaWork {
  import opened Wrappers
  import opened JsonModel
  import opened FiniteSums
  import opened SchemaGraph
  import opened Pointers
  import opened Closure
  import opened ProofGraph

  const MAX_WORK: nat := 16384
  const LIMIT: nat := MAX_WORK + 1

  // ---------- saturating arithmetic ----------

  function Saturate(n: nat): nat
  {
    if n >= LIMIT then LIMIT else n
  }

  /** Addition on 64-bit counters that never exceeds the limit: the guard keeps
      the sum itself from overflowing. */
  function SaturatingAdd(left: nat, right: nat): nat
  {
    if left >= LIMIT || right >= LIMIT || left > LIMIT - right then LIMIT else left + right
  }

  lemma SaturatingAddIsSum(a: nat, b: nat)
    ensures SaturatingAdd(Saturate(a), Saturate(b)) == Saturate(a + b)
  {
  }

  /** Saturating addition is associative, commutative and absorbing at the limit,
      so a saturated sum does not depend on the order of its terms. */
  lemma SaturatingAddLaws(a: nat, b: nat, c: nat)
    ensures SaturatingAdd(SaturatingAdd(a, b), c) == SaturatingAdd(a, SaturatingAdd(b, c))
    ensures SaturatingAdd(a, b) == SaturatingAdd(b, a)
    ensures SaturatingAdd(LIMIT, c) == LIMIT
  {
  }

  // ---------- the fully expanded work ----------

  const WORK_KEYWORDS: seq<Keyword> :=
    [Properties, DependentSchemas,
     AdditionalProperties, Items, Contains, UnevaluatedItems, UnevaluatedProperties,
     PropertyNames, Not, If, Then, Else, AllOf, AnyOf, OneOf, PrefixItems, Ref]

  /** Definitions execute only where they are referenced. */
  predicate WorkKeyword(k: Keyword)
  {
    k != Defs && k != Definitions
  }

  lemma WorkKeywordListed(k: Keyword)
    requires WorkKeyword(k)
    ensures k in WORK_KEYWORDS
  {
    var ks := WORK_KEYWORDS;
    assert ks[0] == Properties && ks[1] == DependentSchemas && ks[2] == AdditionalProperties && ks[3] == Items
           && ks[4] == Contains && ks[5] == UnevaluatedItems && ks[6] == UnevaluatedProperties && ks[7] == PropertyNames
           && ks[8] == Not && ks[9] == If && ks[10] == Then && ks[11] == Else && ks[12] == AllOf && ks[13] == AnyOf
           && ks[14] == OneOf && ks[15] == PrefixItems && ks[16] == Ref;
  }

  /** Schema evaluations when every `$ref` occurrence is expanded in place and
      definitions count only where they are referenced. */
  ghost function Work(root: Json, v: Json, fuel: nat): nat
    decreases fuel, 1
  {
    if fuel == 0 then 0
    else match v
      case Bool(_) => 1
      case Obj(s) => 1 + Sum(EdgesOver(s, WORK_KEYWORDS), ChildWork(root, s, fuel - 1))
      case _ => 0
  }

  ghost function ChildWork(root: Json, s: Schema, fuel: nat): Edge -> nat
    decreases fuel, 2
  {
    e => match Target(root, s, e)
      case None => 0
      case Some(child) => Work(root, child, fuel)
  }

  /** Enough fuel for every node of a proved schema. */
  const FULL: nat := MAX_DEPTH + 2

  ghost function FullWork(root: Json, v: Json): nat
  {
    Work(root, v, FULL)
  }

  ghost function FullChildWork(root: Json, s: Schema): Edge -> nat
  {
    ChildWork(root, s, FULL)
  }

  /** A work edge is a proof edge or the literal `additionalProperties: false`. */
  lemma WorkEdgeCases(root: Json, s: Schema, e: Edge)
    requires e in EdgesOver(s, WORK_KEYWORDS)
    ensures ProofEdge(s, e) || Target(root, s, e) == Some(Bool(false))
  {
  }

  /** The expansion of a proved node does not depend on how much fuel is left over. */
  lemma {:induction false} WorkStable(root: Json, policy: Policy, v: Json, rank: nat, fuel: nat, more: nat)
    requires Proved(root, policy, v, rank) && rank + 2 <= fuel <= more
    ensures Work(root, v, fuel) == Work(root, v, more)
    decreases rank
  {
    hide Prove, ProofEdge, Target, EdgesOver;
    match v
    case Obj(s) =>
      var edges := EdgesOver(s, WORK_KEYWORDS);
      if ExactObjectConst(s) {
        ExactConstHasNoEdges(s);
      } else {
        forall e | e in edges
          ensures ChildWork(root, s, fuel - 1)(e) == ChildWork(root, s, more - 1)(e)
        {
          ChildWorkStable(root, policy, s, rank, fuel, more, e);
        }
      }
      SumCongruent(edges, ChildWork(root, s, fuel - 1), ChildWork(root, s, more - 1));
    case _ =>
  }

  lemma {:induction false} ChildWorkStable(root: Json, policy: Policy, s: Schema, rank: nat, fuel: nat, more: nat, e: Edge)
    requires Proved(root, policy, Obj(s), rank) && rank + 2 <= fuel <= more
    requires !ExactObjectConst(s) && e in EdgesOver(s, WORK_KEYWORDS)
    ensures ChildWork(root, s, fuel - 1)(e) == ChildWork(root, s, more - 1)(e)
    decreases rank, 0
  {
    hide Prove, ProofEdge, Target, EdgesOver, Work, ExactObjectConst, WORK_KEYWORDS;
    WorkEdgeCases(root, s, e);
    if ProofEdge(s, e) {
      ProvedChild(root, policy, s, e, rank);
      WorkStable(root, policy, Target(root, s, e).value, rank - 1, fuel - 1, more - 1);
    } else {
      FalseIsOne(root, fuel - 1);
      FalseIsOne(root, more - 1);
    }
  }

  lemma FalseIsOne(root: Json, fuel: nat)
    requires fuel > 0
    ensures Work(root, Bool(false), fuel) == 1
  {
  }

  lemma ExactConstHasNoEdges(s: Schema)
    requires ExactObjectConst(s)
    ensures EdgesOver(s, WORK_KEYWORDS) == {}
  {
    assert s.Keys == {"const"} by { OneKey(s, "const"); }
    forall e: Edge ensures e !in EdgesUnder(s, e.keyword) {
      NotConst(e.keyword);
    }
  }

  lemma OneKey(s: Schema, key: string)
    requires |s| == 1 && key in s
    ensures s.Keys == {key}
  {
    assert |s.Keys| == 1;
    assert |s.Keys - {key}| == 0;
    assert s.Keys == {key} + (s.Keys - {key});
  }

  lemma NotConst(k: Keyword)
    ensures Text(k) != "const"
  {
    assert |"const"| == 5 && "const"[0] == 'c';
  }

  /** The defining equation of the full work of a proved node. */
  lemma FullWorkUnfold(root: Json, policy: Policy, s: Schema, rank: nat)
    requires Proved(root, policy, Obj(s), rank) && rank <= MAX_DEPTH
    ensures FullWork(root, Obj(s)) == 1 + Sum(EdgesOver(s, WORK_KEYWORDS), FullChildWork(root, s))
  {
    hide Prove, ProofEdge, Target, EdgesOver;
    WorkStable(root, policy, Obj(s), rank, FULL, FULL + 1);
  }

  // ---------- the memoised estimator ----------

  datatype WorkError = Cyclic | NotASchema | NotAnObject | NotAnArray | BadReference

  datatype WorkMemo = Visiting | Done(work: nat)

  type WorkTable = map<string, WorkMemo>

  ghost predicate WorkEntryRight(root: Json, memo: WorkTable, p: string)
    requires p in memo
  {
    && Canonical(p) && Locate(root, p).Some?
    && match memo[p]
       case Visiting => Locate(root, p).value.Obj?
       case Done(work) => work == Saturate(FullWork(root, Locate(root, p).value))
  }

  ghost predicate WorkMemoRight(root: Json, memo: WorkTable)
  {
    forall p | p in memo :: WorkEntryRight(root, memo, p)
  }

  ghost predicate WorkExtends<K>(before: map<K, WorkMemo>, after: map<K, WorkMemo>)
  {
    && (forall p | p in before :: p in after && after[p] == before[p])
    && (forall p | p in after && p !in before :: after[p].Done?)
  }

  /** No node being estimated is proved within `rank`, so none of them is a node
      that is: this is what acceptance by the closure proof gives. */
  ghost predicate NoneWithin(root: Json, policy: Policy, memo: WorkTable, rank: nat)
  {
    forall q | q in memo && memo[q].Visiting? && Locate(root, q).Some? ::
      !Proved(root, policy, Locate(root, q).value, rank)
  }

  ghost predicate Estimable(root: Json, policy: Policy, memo: WorkTable, v: Json, rank: nat)
  {
    v.Bool? || (rank <= MAX_DEPTH && Proved(root, policy, v, rank) && NoneWithin(root, policy, memo, rank))
  }

  lemma WorkMemoHit(root: Json, policy: Policy, memo: WorkTable, v: Json, pointer: string, rank: nat)
    requires WorkMemoRight(root, memo) && Addresses(root, pointer, v) && pointer in memo
    requires Estimable(root, policy, memo, v, rank)
    ensures memo[pointer] == Done(Saturate(FullWork(root, v)))
  {
    hide Prove, FullWork;
    assert WorkEntryRight(root, memo, pointer);
  }

  lemma WorkMemoDone(root: Json, before: WorkTable, memo: WorkTable, v: Json, pointer: string, work: nat)
    requires WorkMemoRight(root, memo) && Addresses(root, pointer, v)
    requires pointer !in before && WorkExtends(before[pointer := Visiting], memo)
    requires work == Saturate(FullWork(root, v))
    ensures WorkMemoRight(root, memo[pointer := Done(work)]) && WorkExtends(before, memo[pointer := Done(work)])
  {
    hide FullWork, Locate, Canonical;
    var after := memo[pointer := Done(work)];
    forall p | p in after ensures WorkEntryRight(root, after, p) {
      if p != pointer {
        assert WorkEntryRight(root, memo, p);
      }
    }
  }

  lemma WorkMemoVisiting(root: Json, policy: Policy, before: WorkTable, v: Json, pointer: string, bound: nat, rank: nat)
    requires WorkMemoRight(root, before) && Addresses(root, pointer, v) && pointer !in before && v.Obj?
    requires NoneWithin(root, policy, before, bound) && rank <= bound <= MAX_DEPTH && IsRank(root, policy, v, rank)
    ensures WorkMemoRight(root, before[pointer := Visiting])
    ensures ChildrenEstimable(root, policy, before[pointer := Visiting], v.members, pointer, rank)
  {
    hide Prove, FullWork, IsRank, Proved, TokensOf, Canonical;
    var memo := before[pointer := Visiting];
    forall p | p in memo ensures WorkEntryRight(root, memo, p) {
      if p != pointer {
        assert WorkEntryRight(root, before, p);
      }
    }
    RankIsTight(root, policy, v, rank);
    if rank > 0 {
      var less: nat := rank - 1;
      forall q | q in memo && memo[q].Visiting? && Locate(root, q).Some?
        ensures !Proved(root, policy, Locate(root, q).value, less)
      {
        if q != pointer {
          UnprovedBelow(root, policy, Locate(root, q).value, less, bound);
        }
      }
      assert NoneWithin(root, policy, memo, less);
    }
  }

  /** The situation in which the subschemas of a node are estimated. */
  ghost predicate ChildrenEstimable(root: Json, policy: Policy, memo: WorkTable, s: Schema, pointer: string, rank: nat)
  {
    && Addresses(root, pointer, Obj(s)) && Proved(root, policy, Obj(s), rank) && rank <= MAX_DEPTH
    && (rank > 0 ==> NoneWithin(root, policy, memo, rank - 1))
  }

  lemma NoneWithinExtends(root: Json, policy: Policy, before: WorkTable, after: WorkTable, rank: nat)
    requires NoneWithin(root, policy, before, rank) && WorkExtends(before, after)
    ensures NoneWithin(root, policy, after, rank)
  {
    hide Prove;
  }

  /** After the closure proof every subschema resolves, is a schema, and is not
      being estimated already: none of the estimator's errors can occur. */
  lemma ChildEstimable(root: Json, policy: Policy, memo: WorkTable, s: Schema, pointer: string, rank: nat, e: Edge)
    requires ChildrenEstimable(root, policy, memo, s, pointer, rank)
    requires e in EdgesUnder(s, e.keyword) && WorkKeyword(e.keyword)
    ensures Target(root, s, e).Some?
    ensures Target(root, s, e).value.Bool? || (rank > 0 && Estimable(root, policy, memo, Target(root, s, e).value, rank - 1))
  {
    hide Prove, ProofEdge, Target, EdgesUnder, NoneWithin, ExactObjectConst;
    WorkKeywordListed(e.keyword);
    assert e in EdgesOver(s, WORK_KEYWORDS);
    WorkEdgeCases(root, s, e);
    if ExactObjectConst(s) {
      ExactConstHasNoEdges(s);
    } else if ProofEdge(s, e) {
      ProvedChild(root, policy, s, e, rank);
    }
  }

  lemma ShapesProved(root: Json, policy: Policy, s: Schema, rank: nat)
    requires Proved(root, policy, Obj(s), rank)
    ensures forall k | k in WORK_KEYWORDS :: ShapeOk(s, k)
  {
    hide ChildrenProved, NodeAdmission, KeywordsOk, NamesOk, TypesOk, EnumOk, ShapeOk;
    if ExactObjectConst(s) {
      OneKey(s, "const");
      forall k | k in WORK_KEYWORDS ensures ShapeOk(s, k) {
        NotConst(k);
        NoKeyword(s, k);
      }
    }
  }

  lemma NoKeyword(s: Schema, k: Keyword)
    requires !Has(s, k)
    ensures ShapeOk(s, k)
  {
  }

  /** The work of the first `i` keywords. */
  ghost function WorkBefore(root: Json, s: Schema, i: nat): nat
    requires i <= |WORK_KEYWORDS|
  {
    Sum(EdgesOver(s, WORK_KEYWORDS[..i]), FullChildWork(root, s))
  }

  lemma WorkNext(root: Json, s: Schema, i: nat)
    requires i < |WORK_KEYWORDS|
    ensures WorkBefore(root, s, i + 1) == WorkBefore(root, s, i) + Sum(EdgesUnder(s, WORK_KEYWORDS[i]), FullChildWork(root, s))
  {
    hide FullChildWork, EdgesUnder, EdgesOver;
    EdgesSplit(s, i);
    SumUnion(EdgesOver(s, WORK_KEYWORDS[..i]), EdgesUnder(s, WORK_KEYWORDS[i]), FullChildWork(root, s));
  }

  /** The edges of one more keyword are new ones. */
  lemma EdgesSplit(s: Schema, i: nat)
    requires i < |WORK_KEYWORDS|
    ensures EdgesOver(s, WORK_KEYWORDS[..i + 1]) == EdgesOver(s, WORK_KEYWORDS[..i]) + EdgesUnder(s, WORK_KEYWORDS[i])
    ensures EdgesOver(s, WORK_KEYWORDS[..i]) !! EdgesUnder(s, WORK_KEYWORDS[i])
  {
    hide EdgesUnder;
    var ks := WORK_KEYWORDS;
    assert ks[..i + 1] == ks[..i] + [ks[i]];
    DistinctWorkKeywords(i);
    EdgesKnowTheirKeyword(s, ks[i]);
  }

  lemma EdgesKnowTheirKeyword(s: Schema, k: Keyword)
    ensures forall e | e in EdgesUnder(s, k) :: e.keyword == k
  {
  }

  lemma DistinctWorkKeywords(i: nat)
    requires i < |WORK_KEYWORDS|
    ensures WORK_KEYWORDS[i] !in WORK_KEYWORDS[..i]
  {
  }

  lemma WorkGrows(root: Json, s: Schema, i: nat, j: nat)
    requires i <= j <= |WORK_KEYWORDS|
    ensures WorkBefore(root, s, i) <= WorkBefore(root, s, j)
  {
    hide EdgesUnder, FullChildWork;
    forall k | k in WORK_KEYWORDS[..i] ensures k in WORK_KEYWORDS[..j] {
      var n :| 0 <= n < i && WORK_KEYWORDS[..i][n] == k;
      assert WORK_KEYWORDS[..j][n] == k;
    }
    SumMonotone(EdgesOver(s, WORK_KEYWORDS[..i]), EdgesOver(s, WORK_KEYWORDS[..j]), FullChildWork(root, s), FullChildWork(root, s));
  }

  class SchemaValidationWorkEstimator {
    const root: Json
    ghost const policy: Policy
    var memo: WorkTable

    constructor (root: Json, ghost policy: Policy)
      ensures this.root == root && this.policy == policy && memo == map[]
    {
      this.root, this.policy, memo := root, policy, map[];
    }

    /** The subschemas of a node may be estimated, and its mark is in place. */
    ghost predicate Ready(schema: Schema, pointer: string, rank: nat)
      reads this
    {
      WorkMemoRight(root, memo) && ChildrenEstimable(root, policy, memo, schema, pointer, rank)
    }

    method Estimate(value: Json, pointer: string, ghost rank: nat) returns (r: Result<nat, WorkError>)
      requires WorkMemoRight(root, memo) && Addresses(root, pointer, value)
      requires Estimable(root, policy, memo, value, rank)
      modifies this
      ensures WorkMemoRight(root, memo) && WorkExtends(old(memo), memo)
      ensures r == Ok(Saturate(FullWork(root, value)))
      decreases if value.Bool? then 0 else rank + 1, 5
    {
      hide Prove, WorkMemoRight, Work, FullWork, NoneWithin, Addresses;
      if pointer in memo {
        WorkMemoHit(root, policy, memo, value, pointer, rank);
        if memo[pointer].Visiting? {
          return Err(Cyclic);
        }
        return Ok(memo[pointer].work);
      }
      ghost var before := memo;
      if value.Bool? {
        BoolWork(root, before, value, pointer);
        memo := memo[pointer := Done(1)];
        return Ok(1);
      }
      if !value.Obj? {
        SchemasOnly(root, policy, value, rank);
        return Err(NotASchema);
      }
      ghost var exact := RankWithin(root, policy, value, rank);
      WorkMemoVisiting(root, policy, before, value, pointer, rank, exact);
      memo := memo[pointer := Visiting];
      r := EstimateObject(value.members, pointer, exact);
      WorkMemoDone(root, before, memo, value, pointer, r.value);
      memo := memo[pointer := Done(r.value)];
    }

    method EstimateObject(schema: Schema, pointer: string, ghost rank: nat) returns (r: Result<nat, WorkError>)
      requires Ready(schema, pointer, rank)
      modifies this
      ensures WorkMemoRight(root, memo) && WorkExtends(old(memo), memo)
      ensures r == Ok(Saturate(FullWork(root, Obj(schema))))
      decreases rank + 1, 4
    {
      hide Prove, WorkMemoRight, FullWork, NoneWithin, Addresses, WorkBefore, EdgesUnder, FullChildWork, ShapeOk;
      ShapesProved(root, policy, schema, rank);
      WorkStarts(root, schema);
      var named := EstimateNamedKeywords(schema, pointer, rank);
      if named.Err? {
        return named;
      }
      var single := EstimateSingleKeywords(schema, pointer, rank, named.value);
      if single.Err? {
        return single;
      }
      var listed := EstimateListKeywords(schema, pointer, rank, single.value);
      if listed.Err? {
        return listed;
      }
      WorkNext(root, schema, 16);
      r := EstimateRef(schema, pointer, rank, listed.value);
      WorkEnds(root, policy, schema, rank);
    }

    method EstimateNamedKeywords(schema: Schema, pointer: string, ghost rank: nat) returns (r: Result<nat, WorkError>)
      requires Ready(schema, pointer, rank) && forall k | k in WORK_KEYWORDS :: ShapeOk(schema, k)
      modifies this
      ensures Ready(schema, pointer, rank) && WorkExtends(old(memo), memo)
      ensures r == Ok(Saturate(1 + WorkBefore(root, schema, 2)))
      decreases rank + 1, 3
    {
      hide Ready, WorkBefore, EdgesUnder, FullChildWork, ShapeOk;
      WorkStarts(root, schema);
      var work, i := 1, 0;
      while i < 2
        invariant 0 <= i <= 2 && Ready(schema, pointer, rank) && WorkExtends(old(memo), memo)
        invariant work == Saturate(1 + WorkBefore(root, schema, i))
      {
        WorkNext(root, schema, i);
        r := EstimateNamed(schema, WORK_KEYWORDS[i], pointer, rank, work);
        if r.Err? {
          return;
        }
        work, i := r.value, i + 1;
      }
      return Ok(work);
    }

    method EstimateSingleKeywords(schema: Schema, pointer: string, ghost rank: nat, soFar: nat) returns (r: Result<nat, WorkError>)
      requires Ready(schema, pointer, rank) && soFar == Saturate(1 + WorkBefore(root, schema, 2))
      modifies this
      ensures Ready(schema, pointer, rank) && WorkExtends(old(memo), memo)
      ensures r == Ok(Saturate(1 + WorkBefore(root, schema, 12)))
      decreases rank + 1, 2
    {
      hide Ready, WorkBefore, EdgesUnder, FullChildWork;
      var work, i := soFar, 2;
      while i < 12
        invariant 2 <= i <= 12 && Ready(schema, pointer, rank) && WorkExtends(old(memo), memo)
        invariant work == Saturate(1 + WorkBefore(root, schema, i))
      {
        WorkNext(root, schema, i);
        r := EstimateSingle(schema, WORK_KEYWORDS[i], pointer, rank, work);
        if r.Err? {
          return;
        }
        work, i := r.value, i + 1;
        if work > MAX_WORK {
          break;
        }
      }
      WorkGrows(root, schema, i, 12);
      return Ok(work);
    }

    method EstimateListKeywords(schema: Schema, pointer: string, ghost rank: nat, soFar: nat) returns (r: Result<nat, WorkError>)
      requires Ready(schema, pointer, rank) && forall k | k in WORK_KEYWORDS :: ShapeOk(schema, k)
      requires soFar == Saturate(1 + WorkBefore(root, schema, 12))
      modifies this
      ensures Ready(schema, pointer, rank) && WorkExtends(old(memo), memo)
      ensures r == Ok(Saturate(1 + WorkBefore(root, schema, 16)))
      decreases rank + 1, 2
    {
      hide Ready, WorkBefore, EdgesUnder, FullChildWork, ShapeOk;
      var work, i := soFar, 12;
      while i < 16
        invariant 12 <= i <= 16 && Ready(schema, pointer, rank) && WorkExtends(old(memo), memo)
        invariant work == Saturate(1 + WorkBefore(root, schema, i))
      {
        WorkNext(root, schema, i);
        r := EstimateList(schema, WORK_KEYWORDS[i], pointer, rank, work);
        if r.Err? {
          return;
        }
        work, i := r.value, i + 1;
      }
      return Ok(work);
    }

    lemma ReadyChild(schema: Schema, pointer: string, rank: nat, e: Edge)
      requires Ready(schema, pointer, rank) && e in EdgesUnder(schema, e.keyword) && WorkKeyword(e.keyword)
      ensures Target(root, schema, e).Some?
    {
      hide Prove, WorkMemoRight, NoneWithin, Target, EdgesUnder;
      ChildEstimable(root, policy, memo, schema, pointer, rank, e);
    }

    /** Adds the work of one subschema to a running total. */
    method AddChild(schema: Schema, ghost e: Edge, child: Json, childPointer: string,
                    ghost pointer: string, ghost rank: nat, work: nat) returns (r: Result<nat, WorkError>)
      requires Ready(schema, pointer, rank)
      requires e in EdgesUnder(schema, e.keyword) && WorkKeyword(e.keyword)
      requires Target(root, schema, e) == Some(child) && childPointer == EdgePointer(root, schema, pointer, e)
      requires work <= LIMIT
      modifies this
      ensures Ready(schema, pointer, rank) && WorkExtends(old(memo), memo)
      ensures r == Ok(Saturate(work + FullChildWork(root, schema)(e)))
      decreases rank + 1, 0
    {
      hide Prove, WorkMemoRight, NoneWithin, Target, EdgePointer, EdgesUnder, Work;
      EdgeAddresses(root, schema, pointer, e);
      ChildEstimable(root, policy, memo, schema, pointer, rank, e);
      ghost var before := memo;
      var childWork := Estimate(child, childPointer, if rank == 0 then 0 else rank - 1);
      if rank > 0 {
        NoneWithinExtends(root, policy, before, memo, rank - 1);
      }
      if childWork.Err? {
        return childWork;
      }
      SaturatingAddIsSum(work, FullWork(root, child));
      return Ok(SaturatingAdd(work, childWork.value));
    }

    method AddNamed(schema: Schema, keyword: Keyword, name: string, child: Json, pointer: string, ghost rank: nat, work: nat)
      returns (r: Result<nat, WorkError>)
      requires Ready(schema, pointer, rank) && WorkKeyword(keyword) && ShapeOf(keyword).ByName?
      requires name in NamesUnder(schema, keyword) && child == NamesUnder(schema, keyword)[name] && work <= LIMIT
      modifies this
      ensures Ready(schema, pointer, rank) && WorkExtends(old(memo), memo)
      ensures r == Ok(Saturate(work + FullChildWork(root, schema)(Named(keyword, name))))
      decreases rank + 1, 1
    {
      hide Prove, Ready, FullChildWork, Text, EdgePointer, Work, WorkExtends;
      PlainEdge(root, schema, pointer, Named(keyword, name));
      r := AddChild(schema, Named(keyword, name), child, AppendPointer(pointer, [Text(keyword), name]), pointer, rank, work);
    }

    method EstimateNamed(schema: Schema, keyword: Keyword, pointer: string, ghost rank: nat, work: nat)
      returns (r: Result<nat, WorkError>)
      requires Ready(schema, pointer, rank)
      requires WorkKeyword(keyword) && ShapeOf(keyword).ByName? && ShapeOk(schema, keyword) && work <= LIMIT
      modifies this
      ensures Ready(schema, pointer, rank) && WorkExtends(old(memo), memo)
      ensures r == Ok(Saturate(work + Sum(EdgesUnder(schema, keyword), FullChildWork(root, schema))))
      decreases rank + 1, 2
    {
      hide Prove, Ready, FullChildWork, Text, EdgePointer, Work, NamedEdges, EdgesUnder, NamesUnder, Target, WorkExtends;
      if Has(schema, keyword) && !schema[Text(keyword)].Obj? {
        return Err(NotAnObject);
      }
      var children := NamesUnder(schema, keyword);
      UnderByName(root, schema, keyword);
      ghost var all := children.Keys;
      var remaining := children.Keys;
      var total := work;
      ghost var start := memo;
      WorkExtendsSelf(start);
      assert all - remaining == {};
      NoEdges(keyword);
      while remaining != {}
        invariant remaining <= all
        invariant Ready(schema, pointer, rank) && WorkExtends(old(memo), memo)
        invariant total == Saturate(work + Sum(NamedEdges(keyword, all - remaining), FullChildWork(root, schema)))
      {
        var name :| name in remaining;
        ghost var e, before := Named(keyword, name), memo;
        NamedEdgesInsert(keyword, all, remaining, name);
        r := AddNamed(schema, keyword, name, children[name], pointer, rank, total);
        if r.Err? {
          return;
        }
        WorkExtendsStep(start, before, memo);
        SumInsert(NamedEdges(keyword, all - remaining), FullChildWork(root, schema), e);
        total := r.value;
        remaining := remaining - {name};
        if total > MAX_WORK {
          break;
        }
      }
      assert remaining == {} ==> all - remaining == all;
      assert NamedEdges(keyword, all - remaining) <= NamedEdges(keyword, all) by { NamedEdgesMonotone(keyword, all - remaining, all); }
      PartialSum(work, total, NamedEdges(keyword, all - remaining), NamedEdges(keyword, all), FullChildWork(root, schema));
      return Ok(total);
    }

    method EstimateSingle(schema: Schema, keyword: Keyword, pointer: string, ghost rank: nat, work: nat)
      returns (r: Result<nat, WorkError>)
      requires Ready(schema, pointer, rank)
      requires WorkKeyword(keyword) && ShapeOf(keyword).One? && keyword != Ref && work <= LIMIT
      modifies this
      ensures Ready(schema, pointer, rank) && WorkExtends(old(memo), memo)
      ensures r == Ok(Saturate(work + Sum(EdgesUnder(schema, keyword), FullChildWork(root, schema))))
      decreases rank + 1, 1
    {
      hide Prove, Ready, FullChildWork, Text, EdgePointer, Work;
      if !Has(schema, keyword) {
        return Ok(work);
      }
      PlainEdge(root, schema, pointer, Single(keyword));
      SumInsert({}, FullChildWork(root, schema), Single(keyword));
      r := AddChild(schema, Single(keyword), schema[Text(keyword)], AppendPointer(pointer, [Text(keyword)]), pointer, rank, work);
    }

    method EstimateList(schema: Schema, keyword: Keyword, pointer: string, ghost rank: nat, work: nat)
      returns (r: Result<nat, WorkError>)
      requires Ready(schema, pointer, rank)
      requires WorkKeyword(keyword) && ShapeOf(keyword).InOrder? && ShapeOk(schema, keyword) && work <= LIMIT
      modifies this
      ensures Ready(schema, pointer, rank) && WorkExtends(old(memo), memo)
      ensures r == Ok(Saturate(work + Sum(EdgesUnder(schema, keyword), FullChildWork(root, schema))))
      decreases rank + 1, 1
    {
      hide Prove, Ready, FullChildWork, Text, EdgePointer, Work, IndexedEdges, EdgesUnder, ListUnder, Target, WorkExtends;
      if Has(schema, keyword) && !schema[Text(keyword)].Arr? {
        return Err(NotAnArray);
      }
      var children := ListUnder(schema, keyword);
      UnderInOrder(root, schema, keyword);
      var index := 0;
      var total := work;
      ghost var start := memo;
      WorkExtendsSelf(start);
      NoEdges(keyword);
      while index < |children|
        invariant 0 <= index <= |children| && IndexedEdges(keyword, index) <= IndexedEdges(keyword, |children|)
        invariant Ready(schema, pointer, rank) && WorkExtends(old(memo), memo)
        invariant total == Saturate(work + Sum(IndexedEdges(keyword, index), FullChildWork(root, schema)))
      {
        ghost var e, before := Indexed(keyword, index), memo;
        PlainEdge(root, schema, pointer, e);
        IndexedEdgesInsert(keyword, |children|, index);
        r := AddChild(schema, e, children[index], AppendPointer(pointer, [Text(keyword), Itoa(index)]), pointer, rank, total);
        if r.Err? {
          return;
        }
        WorkExtendsStep(start, before, memo);
        SumInsert(IndexedEdges(keyword, index), FullChildWork(root, schema), e);
        total := r.value;
        index := index + 1;
        if total > MAX_WORK {
          break;
        }
      }
      PartialSum(work, total, IndexedEdges(keyword, index), IndexedEdges(keyword, |children|), FullChildWork(root, schema));
      return Ok(total);
    }

    method EstimateRef(schema: Schema, pointer: string, ghost rank: nat, work: nat) returns (r: Result<nat, WorkError>)
      requires Ready(schema, pointer, rank)
      requires ShapeOk(schema, Ref) && work <= LIMIT
      modifies this
      ensures Ready(schema, pointer, rank) && WorkExtends(old(memo), memo)
      ensures r == Ok(Saturate(work + Sum(EdgesUnder(schema, Ref), FullChildWork(root, schema))))
      decreases rank + 1, 1
    {
      hide Prove, Ready, FullChildWork, Text, EdgePointer, Work;
      if !Has(schema, Ref) {
        return Ok(work);
      }
      if !schema[Text(Ref)].Str? {
        return Err(BadReference);
      }
      assert Target(root, schema, Single(Ref)).Some? by {
        ReadyChild(schema, pointer, rank, Single(Ref));
      }
      var resolved := ResolveReference(root, schema[Text(Ref)].s);
      if resolved.None? {
        return Err(BadReference);
      }
      RefEdge(root, schema, pointer, resolved.value);
      SumInsert({}, FullChildWork(root, schema), Single(Ref));
      r := AddChild(schema, Single(Ref), resolved.value.value, resolved.value.pointer, pointer, rank, work);
    }
  }

  lemma WorkExtendsSelf<K>(memo: map<K, WorkMemo>)
    ensures WorkExtends(memo, memo)
  {
  }

  lemma WorkExtendsStep<K>(a: map<K, WorkMemo>, b: map<K, WorkMemo>, c: map<K, WorkMemo>)
    requires WorkExtends(a, b) && WorkExtends(b, c)
    ensures WorkExtends(a, c)
  {
  }

  lemma PlainEdge(root: Json, s: Schema, pointer: string, e: Edge)
    requires e != Single(Ref)
    ensures EdgePointer(root, s, pointer, e) == AppendPointer(pointer, EdgeTokens(e))
  {
  }

  lemma RefEdge(root: Json, s: Schema, pointer: string, resolved: Resolved)
    requires Has(s, Ref) && s[Text(Ref)].Str? && Resolve(root, s[Text(Ref)].s) == Some(resolved)
    ensures EdgePointer(root, s, pointer, Single(Ref)) == resolved.pointer
    ensures Target(root, s, Single(Ref)) == Some(resolved.value)
  {
  }

  /** Stopping at the limit loses nothing: the full sum is over the limit too. */
  lemma PartialSum<T(!new)>(work: nat, total: nat, done: set<T>, all: set<T>, f: T -> nat)
    requires done <= all && total == Saturate(work + Sum(done, f))
    requires done == all || total > MAX_WORK
    ensures total == Saturate(work + Sum(all, f))
  {
    SumMonotone(done, all, f, f);
  }

  lemma BoolWork(root: Json, before: WorkTable, v: Json, pointer: string)
    requires WorkMemoRight(root, before) && Addresses(root, pointer, v) && pointer !in before && v.Bool?
    ensures FullWork(root, v) == 1
    ensures WorkMemoRight(root, before[pointer := Done(1)]) && WorkExtends(before, before[pointer := Done(1)])
  {
    var after := before[pointer := Done(1)];
    forall p | p in after ensures WorkEntryRight(root, after, p) {
      if p != pointer {
        assert WorkEntryRight(root, before, p);
      }
    }
  }

  lemma SchemasOnly(root: Json, policy: Policy, v: Json, rank: nat)
    requires Proved(root, policy, v, rank)
    ensures v.Bool? || v.Obj?
  {
    hide LocalOk, ChildrenProved, NodeAdmission, ExactObjectConst;
  }

  lemma WorkStarts(root: Json, s: Schema)
    ensures WorkBefore(root, s, 0) == 0
  {
    assert WORK_KEYWORDS[..0] == [];
  }

  lemma WorkEnds(root: Json, policy: Policy, s: Schema, rank: nat)
    requires Proved(root, policy, Obj(s), rank) && rank <= MAX_DEPTH
    ensures FullWork(root, Obj(s)) == 1 + WorkBefore(root, s, 17)
  {
    hide Prove, FullWork, FullChildWork, EdgesUnder;
    FullWorkUnfold(root, policy, s, rank);
    assert WORK_KEYWORDS[..17] == WORK_KEYWORDS;
  }
}
