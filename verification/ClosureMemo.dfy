/** What the memo table of the closure proof means, and how visiting one subschema
    after another keeps it meaning that. */
module ClosureMemo {
  import opened Wrappers
  import opened JsonModel
  import opened FiniteSums
  import opened SchemaGraph
  import opened Pointers
  import opened Closure
  import opened ProofGraph
  import opened AdmissionFolds
  import opened ExactLiterals

  datatype ProofResult = ProofResult(mode: Admission, maxDepth: nat)

  datatype Memo = Visiting | Done(result: ProofResult)

  type MemoTable = map<string, Memo>

  // ---------- what a memo table means ----------

  ghost predicate ChildrenVisited(root: Json, memo: MemoTable, v: Json, pointer: string)
  {
    v.Obj? && !ExactObjectConst(v.members) ==>
      forall e | ProofEdge(v.members, e) :: EdgeVisited(root, memo, v.members, pointer, e)
  }

  ghost predicate EdgeVisited(root: Json, memo: MemoTable, s: Schema, pointer: string, e: Edge)
  {
    var q := EdgePointer(root, s, pointer, e);
    q in memo && memo[q].Done?
  }

  ghost predicate ResultRight(root: Json, policy: Policy, v: Json, r: ProofResult)
  {
    IsRank(root, policy, v, r.maxDepth) && Prove(root, policy, v, r.maxDepth) == Some(r.mode)
  }

  ghost predicate EntrySound(root: Json, policy: Policy, memo: MemoTable, p: string)
    requires p in memo
  {
    && Canonical(p) && Locate(root, p).Some?
    && (memo[p].Done? ==>
          ResultRight(root, policy, Locate(root, p).value, memo[p].result)
          && ChildrenVisited(root, memo, Locate(root, p).value, p))
  }

  /** Every finished entry records the unmemoised verdict and the longest path
      of the node its pointer names, and the nodes below it are finished too. */
  ghost predicate MemoSound(root: Json, policy: Policy, memo: MemoTable)
  {
    forall p | p in memo :: EntrySound(root, policy, memo, p)
  }

  ghost predicate Extends(before: MemoTable, after: MemoTable)
  {
    && (forall p | p in before :: p in after && after[p] == before[p])
    && (forall p | p in after && p !in before :: after[p].Done?)
  }

  lemma ExtendsTransitive(a: MemoTable, b: MemoTable, c: MemoTable)
    requires Extends(a, b) && Extends(b, c)
    ensures Extends(a, c)
  {
  }

  /** The root is accepted by the unmemoised proof. */
  ghost predicate Accepting(root: Json, policy: Policy)
  {
    Proved(root, policy, root, 64)
  }

  ghost function Everywhere(root: Json): set<string>
  {
    Reach(root, root, "#", MAX_DEPTH)
  }

  /** What an accepted root guarantees about a node about to be visited: it is
      proved within `bound` edges, and no node being visited is, so it is not one
      of them. */
  ghost predicate Guided(root: Json, policy: Policy, memo: MemoTable, v: Json, pointer: string, depth: nat, bound: nat)
  {
    Accepting(root, policy) ==>
      && depth + bound <= MAX_DEPTH
      && Proved(root, policy, v, bound)
      && pointer in Everywhere(root)
      && memo.Keys <= Everywhere(root)
      && forall q | q in memo && memo[q].Visiting? && Locate(root, q).Some? ::
           !Proved(root, policy, Locate(root, q).value, bound)
  }

  // ---------- a node while its subschemas are being visited ----------

  /** The state on entry to a node, fixed while its subschemas are visited. */
  datatype Visit = Visit(schema: Schema, pointer: string, depth: nat, bound: nat, memo: MemoTable, operations: nat)

  ghost predicate EdgesDone(root: Json, policy: Policy, memo: MemoTable, s: Schema, pointer: string, edges: set<Edge>, maxDepth: nat)
  {
    && (forall e | e in edges :: EdgeDone(root, policy, memo, s, pointer, e, maxDepth))
    && (maxDepth > 0 ==>
          exists e | e in edges :: EdgeDone(root, policy, memo, s, pointer, e, maxDepth)
                                   && memo[EdgePointer(root, s, pointer, e)].result.maxDepth + 1 == maxDepth)
  }

  ghost predicate EdgeDone(root: Json, policy: Policy, memo: MemoTable, s: Schema, pointer: string, e: Edge, maxDepth: nat)
  {
    && ProofEdge(s, e) && Target(root, s, e).Some?
    && EdgeVisited(root, memo, s, pointer, e)
    && var r := memo[EdgePointer(root, s, pointer, e)].result;
       ResultRight(root, policy, Target(root, s, e).value, r) && r.maxDepth + 1 <= maxDepth
  }

  lemma EdgesDoneExtends(root: Json, policy: Policy, before: MemoTable, after: MemoTable,
                         s: Schema, pointer: string, edges: set<Edge>, maxDepth: nat, more: nat)
    requires EdgesDone(root, policy, before, s, pointer, edges, maxDepth)
    requires Extends(before, after) && maxDepth <= more
    ensures forall e | e in edges :: EdgeDone(root, policy, after, s, pointer, e, more)
    ensures maxDepth > 0 ==>
              exists e | e in edges :: EdgeDone(root, policy, after, s, pointer, e, more)
                                       && after[EdgePointer(root, s, pointer, e)].result.maxDepth + 1 == maxDepth
  {
    hide ProofEdge, Target, EdgePointer, ResultRight;
    forall e | e in edges
      ensures EdgeDone(root, policy, after, s, pointer, e, more)
    {
      assert EdgeDone(root, policy, before, s, pointer, e, maxDepth);
    }
  }

  ghost predicate VerdictIs(root: Json, policy: Policy, v: Json, mode: Admission)
  {
    exists d :: Prove(root, policy, v, d) == Some(mode)
  }

  lemma VerdictAt(root: Json, policy: Policy, v: Json, mode: Admission, d: nat)
    requires VerdictIs(root, policy, v, mode) && Proved(root, policy, v, d)
    ensures Prove(root, policy, v, d) == Some(mode)
  {
    hide Prove;
    var c: nat :| Prove(root, policy, v, c) == Some(mode);
    if c <= d {
      ProveMonotone(root, policy, v, c, d);
    } else {
      ProveMonotone(root, policy, v, d, c);
    }
  }

  // ---------- finishing a node ----------

  lemma ProveUnfold(root: Json, policy: Policy, s: Schema, d: nat)
    requires LocalOk(policy, s) && !ExactObjectConst(s) && ChildrenProved(root, policy, s, d)
    ensures Prove(root, policy, Obj(s), d) == NodeAdmission(s, ExcludingEdges(root, policy, s, d))
  {
    hide LocalOk, NodeAdmission, ExactObjectConst, ChildrenProved, ExcludingEdges;
  }

  lemma AllEdgesDone(root: Json, policy: Policy, memo: MemoTable, s: Schema, pointer: string, maxDepth: nat)
    requires LocalOk(policy, s) && !ExactObjectConst(s)
    requires EdgesDone(root, policy, memo, s, pointer, ProofEdges(s), maxDepth)
    ensures ChildrenProved(root, policy, s, maxDepth)
    ensures Prove(root, policy, Obj(s), maxDepth) == NodeAdmission(s, ExcludingEdges(root, policy, s, maxDepth))
    ensures maxDepth > 0 ==> !Proved(root, policy, Obj(s), maxDepth - 1)
    ensures ChildrenVisited(root, memo, Obj(s), pointer)
  {
    hide LocalOk, ProofEdge, Target, NodeAdmission, ExactObjectConst, EdgePointer, Prove, EdgeDone, ExcludingEdges;
    forall e | ProofEdge(s, e)
      ensures maxDepth > 0 && Target(root, s, e).Some? && Proved(root, policy, Target(root, s, e).value, maxDepth - 1)
      ensures EdgeVisited(root, memo, s, pointer, e)
    {
      assert EdgeDone(root, policy, memo, s, pointer, e, maxDepth);
      DoneEdgeProved(root, policy, memo, s, pointer, maxDepth, e);
    }
    ProveUnfold(root, policy, s, maxDepth);
    if maxDepth > 0 {
      var e :| e in ProofEdges(s) && EdgeDone(root, policy, memo, s, pointer, e, maxDepth)
               && memo[EdgePointer(root, s, pointer, e)].result.maxDepth + 1 == maxDepth;
      DeepestEdgeTight(root, policy, memo, s, pointer, maxDepth, e);
    }
  }

  lemma DoneEdgeProved(root: Json, policy: Policy, memo: MemoTable, s: Schema, pointer: string, maxDepth: nat, e: Edge)
    requires EdgeDone(root, policy, memo, s, pointer, e, maxDepth)
    ensures maxDepth > 0 && Target(root, s, e).Some? && Proved(root, policy, Target(root, s, e).value, maxDepth - 1)
    ensures EdgeVisited(root, memo, s, pointer, e)
  {
    hide Prove, ProofEdge, Target, EdgePointer;
    ProveMonotone(root, policy, Target(root, s, e).value,
                  memo[EdgePointer(root, s, pointer, e)].result.maxDepth, maxDepth - 1);
  }

  lemma DeepestEdgeTight(root: Json, policy: Policy, memo: MemoTable, s: Schema, pointer: string, maxDepth: nat, e: Edge)
    requires !ExactObjectConst(s) && maxDepth > 0
    requires EdgeDone(root, policy, memo, s, pointer, e, maxDepth)
    requires memo[EdgePointer(root, s, pointer, e)].result.maxDepth + 1 == maxDepth
    ensures !Proved(root, policy, Obj(s), maxDepth - 1)
  {
    hide Prove, ProofEdge, Target, EdgePointer, ExactObjectConst;
    if Proved(root, policy, Obj(s), maxDepth - 1) {
      ProvedChild(root, policy, s, e, maxDepth - 1);
    }
  }

  /** A node whose folded mode stays open is not proved at any depth. */
  lemma OpenIsRejected(root: Json, policy: Policy, s: Schema, maxDepth: nat, fuel: nat)
    requires LocalOk(policy, s) && !ExactObjectConst(s)
    requires ChildrenProved(root, policy, s, maxDepth)
    requires !Proved(root, policy, Obj(s), maxDepth)
    ensures !Proved(root, policy, Obj(s), fuel)
  {
    hide LocalOk, ProofEdge, Target, NodeAdmission, ExactObjectConst;
    if Proved(root, policy, Obj(s), fuel) {
      forall e | ProofEdge(s, e)
        ensures fuel > 0 && maxDepth > 0 && Target(root, s, e).Some?
        ensures Proved(root, policy, Target(root, s, e).value, fuel - 1)
        ensures Prove(root, policy, Target(root, s, e).value, maxDepth - 1) == Prove(root, policy, Target(root, s, e).value, fuel - 1)
      {
        ProvedChild(root, policy, s, e, fuel);
        var child := Target(root, s, e).value;
        if fuel <= maxDepth {
          ProveMonotone(root, policy, child, fuel - 1, maxDepth - 1);
        } else {
          ProveMonotone(root, policy, child, maxDepth - 1, fuel - 1);
        }
      }
      SameChildrenSameVerdict(root, policy, s, fuel, maxDepth);
    }
  }

  // ---------- guidance and budget for one subschema ----------

  /** What stays fixed about a node while its subschemas are visited. */
  ghost predicate NodeFacts(root: Json, policy: Policy, visit: Visit, charged: nat)
  {
    && LocalOk(policy, visit.schema) && !ExactObjectConst(visit.schema)
    && Addresses(root, visit.pointer, Obj(visit.schema))
    && visit.pointer in visit.memo && visit.memo[visit.pointer] == Visiting
    && charged + 1 <= NodeCost(Obj(visit.schema))
    && visit.operations <= Sum(visit.memo.Keys - {visit.pointer}, CostAt(root)) + 1
    && NodeGuided(root, policy, visit)
  }

  /** What has been done about it once `edges` are proved. */
  ghost predicate NodeState(root: Json, policy: Policy, visit: Visit, charged: nat,
                            memo: MemoTable, operations: nat, edges: set<Edge>, maxDepth: nat)
  {
    && MemoSound(root, policy, memo) && Extends(visit.memo, memo)
    && operations <= MAX_OPERATIONS
    && operations == visit.operations + charged + Sum(memo.Keys - visit.memo.Keys, CostAt(root))
    && (Accepting(root, policy) ==> memo.Keys <= Everywhere(root))
    && EdgesDone(root, policy, memo, visit.schema, visit.pointer, edges, maxDepth)
  }

  /** The effect of visiting one node. */
  ghost predicate Visited(root: Json, policy: Policy, before: MemoTable, spent: nat,
                          memo: MemoTable, operations: nat, v: Json, pointer: string, r: ProofResult)
  {
    && MemoSound(root, policy, memo) && Extends(before, memo)
    && operations <= MAX_OPERATIONS
    && operations == spent + Sum(memo.Keys - before.Keys, CostAt(root))
    && pointer in memo && memo[pointer] == Done(r)
    && ResultRight(root, policy, v, r)
    && (Accepting(root, policy) ==> memo.Keys <= Everywhere(root))
  }

  lemma ChildProgress(root: Json, policy: Policy, visit: Visit, charged: nat, before: MemoTable, spent: nat,
                      edges: set<Edge>, maxDepth: nat, memo: MemoTable, operations: nat, e: Edge, r: ProofResult)
    requires NodeState(root, policy, visit, charged, before, spent, edges, maxDepth)
    requires ProofEdge(visit.schema, e) && Target(root, visit.schema, e).Some?
    requires Visited(root, policy, before, spent, memo, operations, Target(root, visit.schema, e).value,
                     EdgePointer(root, visit.schema, visit.pointer, e), r)
    ensures NodeState(root, policy, visit, charged, memo, operations, edges + {e}, Deeper(maxDepth, r.maxDepth))
  {
    hide Prove, ProofEdge, Target, EdgePointer, EdgesDone, MemoSound, ResultRight, Accepting, Everywhere;
    ExtendsTransitive(visit.memo, before, memo);
    SumUnion(before.Keys - visit.memo.Keys, memo.Keys - before.Keys, CostAt(root));
    assert memo.Keys - visit.memo.Keys == (before.Keys - visit.memo.Keys) + (memo.Keys - before.Keys);
    ChildDone(root, policy, before, memo, visit.schema, visit.pointer, edges, maxDepth, e, r);
  }

  lemma NodeStarts(root: Json, policy: Policy, visit: Visit)
    requires MemoSound(root, policy, visit.memo) && visit.operations <= MAX_OPERATIONS
    requires Accepting(root, policy) ==> visit.memo.Keys <= Everywhere(root)
    ensures NodeState(root, policy, visit, 0, visit.memo, visit.operations, EdgesBefore(visit.schema, 0), 0)
  {
    hide MemoSound, EdgesDone;
    NothingDone(root, policy, visit.memo, visit.schema, visit.pointer);
    assert visit.memo.Keys - visit.memo.Keys == {};
  }

  lemma VisitGuided(root: Json, policy: Policy, visit: Visit)
    requires UncachedGuided(root, policy, visit.memo, Obj(visit.schema), visit.pointer, visit.depth, visit.bound)
    ensures NodeGuided(root, policy, visit)
  {
    hide Prove, Reach;
  }

  ghost predicate NodeGuided(root: Json, policy: Policy, visit: Visit)
  {
    Accepting(root, policy) ==>
      && visit.depth + visit.bound <= MAX_DEPTH
      && Proved(root, policy, Obj(visit.schema), visit.bound)
      && (visit.bound > 0 ==> !Proved(root, policy, Obj(visit.schema), visit.bound - 1))
      && visit.pointer in Everywhere(root)
      && forall q | q in visit.memo && visit.memo[q].Visiting? && Locate(root, q).Some? && q != visit.pointer ::
           !Proved(root, policy, Locate(root, q).value, visit.bound)
  }

  function Below(bound: nat): nat
  {
    if bound == 0 then 0 else bound - 1
  }

  lemma ChildGuided(root: Json, policy: Policy, visit: Visit, memo: MemoTable, e: Edge)
    requires NodeGuided(root, policy, visit) && Extends(visit.memo, memo)
    requires Addresses(root, visit.pointer, Obj(visit.schema)) && !ExactObjectConst(visit.schema)
    requires Accepting(root, policy) ==> memo.Keys <= Everywhere(root)
    requires ProofEdge(visit.schema, e) && Target(root, visit.schema, e).Some?
    ensures Guided(root, policy, memo, Target(root, visit.schema, e).value,
                   EdgePointer(root, visit.schema, visit.pointer, e), visit.depth + 1, Below(visit.bound))
  {
    hide Prove, ProofEdge, Target, EdgePointer, ExactObjectConst, Reach;
    if Accepting(root, policy) {
      ProvedChild(root, policy, visit.schema, e, visit.bound);
      RootAddressed(root);
      ReachClosed(root, policy, root, "#", MAX_DEPTH, visit.pointer, visit.schema, e);
      forall q | q in memo && memo[q].Visiting? && Locate(root, q).Some?
        ensures !Proved(root, policy, Locate(root, q).value, Below(visit.bound))
      {
        assert q in visit.memo;
        if q != visit.pointer {
          UnprovedBelow(root, policy, Locate(root, q).value, visit.bound - 1, visit.bound);
        }
      }
    }
  }

  lemma NodeWithinBudget(root: Json, visit: Visit, memo: MemoTable, charged: nat)
    requires Extends(visit.memo, memo) && visit.pointer in visit.memo
    requires Addresses(root, visit.pointer, Obj(visit.schema))
    requires charged + 1 <= NodeCost(Obj(visit.schema))
    requires visit.operations <= Sum(visit.memo.Keys - {visit.pointer}, CostAt(root)) + 1
    ensures visit.operations + charged + Sum(memo.Keys - visit.memo.Keys, CostAt(root)) <= Sum(memo.Keys, CostAt(root))
  {
    hide NodeCost;
    SumRemove(visit.memo.Keys, CostAt(root), visit.pointer);
    SumUnion(visit.memo.Keys, memo.Keys - visit.memo.Keys, CostAt(root));
    assert visit.memo.Keys + (memo.Keys - visit.memo.Keys) == memo.Keys;
  }

  lemma NewPointerWithinBudget(root: Json, policy: Policy, memo: MemoTable, pointer: string, v: Json, operations: nat)
    requires Accepting(root, policy) && Operations(root) <= MAX_OPERATIONS
    requires pointer !in memo && memo.Keys <= Everywhere(root) && pointer in Everywhere(root)
    requires Addresses(root, pointer, v)
    requires operations <= Sum(memo.Keys, CostAt(root))
    ensures operations + NodeCost(v) <= MAX_OPERATIONS
  {
    hide NodeCost, Reach;
    SumInsert(memo.Keys, CostAt(root), pointer);
    SumMonotone(memo.Keys + {pointer}, Everywhere(root), CostAt(root), CostAt(root));
  }

  lemma NodeCostPositive(v: Json)
    ensures NodeCost(v) >= 1
  {
  }

  lemma VisitingSound(root: Json, policy: Policy, before: MemoTable, pointer: string, v: Json)
    requires MemoSound(root, policy, before) && pointer !in before && Addresses(root, pointer, v)
    ensures MemoSound(root, policy, before[pointer := Visiting])
  {
    hide Prove, ProofEdge, EdgePointer, ExactObjectConst, ResultRight;
    var after := before[pointer := Visiting];
    forall p | p in after ensures EntrySound(root, policy, after, p) {
      if p != pointer {
        assert EntrySound(root, policy, before, p);
      }
    }
  }

  /** What `ValidateUncached` needs to know about an accepted root. */
  ghost predicate UncachedGuided(root: Json, policy: Policy, memo: MemoTable, v: Json, pointer: string, depth: nat, rank: nat)
  {
    Accepting(root, policy) ==>
      && depth + rank <= MAX_DEPTH
      && IsRank(root, policy, v, rank)
      && pointer in Everywhere(root)
      && memo.Keys <= Everywhere(root)
      && forall q | q in memo && memo[q].Visiting? && Locate(root, q).Some? && q != pointer ::
           !Proved(root, policy, Locate(root, q).value, rank)
  }

  lemma VisitingGuided(root: Json, policy: Policy, before: MemoTable, v: Json, pointer: string, depth: nat, bound: nat, rank: nat)
    requires Guided(root, policy, before, v, pointer, depth, bound) && pointer !in before
    requires Accepting(root, policy) ==> rank <= bound && IsRank(root, policy, v, rank)
    ensures UncachedGuided(root, policy, before[pointer := Visiting], v, pointer, depth, rank)
  {
    hide Prove, Reach;
    var after := before[pointer := Visiting];
    if Accepting(root, policy) {
      forall q | q in after && after[q].Visiting? && Locate(root, q).Some? && q != pointer
        ensures !Proved(root, policy, Locate(root, q).value, rank)
      {
        UnprovedBelow(root, policy, Locate(root, q).value, rank, bound);
      }
    }
  }

  lemma FinishCost(root: Json, before: MemoTable, memo: MemoTable, pointer: string, v: Json)
    requires pointer !in before && pointer in memo && Addresses(root, pointer, v)
    ensures Sum(memo.Keys - before.Keys, CostAt(root)) ==
            NodeCost(v) + Sum(memo.Keys - (before.Keys + {pointer}), CostAt(root))
  {
    hide NodeCost;
    SumRemove(memo.Keys - before.Keys, CostAt(root), pointer);
    assert memo.Keys - before.Keys - {pointer} == memo.Keys - (before.Keys + {pointer});
  }

  lemma FinishEntry(root: Json, policy: Policy, memo: MemoTable, pointer: string, v: Json, r: ProofResult)
    requires MemoSound(root, policy, memo) && pointer in memo && memo[pointer].Visiting?
    requires Locate(root, pointer) == Some(v)
    requires ResultRight(root, policy, v, r) && ChildrenVisited(root, memo, v, pointer)
    ensures MemoSound(root, policy, memo[pointer := Done(r)])
  {
    hide ResultRight, ChildrenVisited, Locate, Canonical;
    var after := memo[pointer := Done(r)];
    forall p | p in after ensures EntrySound(root, policy, after, p) {
      assert EntrySound(root, policy, memo, p);
      if after[p].Done? {
        ChildrenStayVisited(root, memo, after, Locate(root, p).value, p);
      }
    }
  }

  lemma ChildrenStayVisited(root: Json, memo: MemoTable, after: MemoTable, v: Json, p: string)
    requires memo.Keys <= after.Keys
    requires forall q | q in memo && memo[q].Done? :: after[q].Done?
    ensures ChildrenVisited(root, memo, v, p) ==> ChildrenVisited(root, after, v, p)
  {
    hide ProofEdge, EdgePointer, ExactObjectConst;
    if ChildrenVisited(root, memo, v, p) && v.Obj? && !ExactObjectConst(v.members) {
      forall e | ProofEdge(v.members, e) ensures EdgeVisited(root, after, v.members, p, e) {
        assert EdgeVisited(root, memo, v.members, p, e);
      }
    }
  }

  /** The proof edges of the first `i` keywords in the order they are visited. */
  ghost function EdgesBefore(s: Schema, i: nat): (r: set<Edge>)
    requires i <= |PROOF_KEYWORDS|
    ensures forall e :: e in r <==> ProofEdge(s, e) && e.keyword in PROOF_KEYWORDS[..i]
  {
    set e | e in EdgesOver(s, PROOF_KEYWORDS[..i]) && ProofEdge(s, e)
  }

  ghost function EdgesAt(s: Schema, k: Keyword): (r: set<Edge>)
    ensures forall e :: e in r <==> ProofEdge(s, e) && e.keyword == k
  {
    set e | e in EdgesUnder(s, k) && ProofEdge(s, e)
  }

  lemma NextKeyword(s: Schema, i: nat)
    requires i < |PROOF_KEYWORDS|
    ensures EdgesBefore(s, i + 1) == EdgesBefore(s, i) + EdgesAt(s, PROOF_KEYWORDS[i])
  {
    hide ProofEdge;
    var ks := PROOF_KEYWORDS;
    assert ks[..i + 1] == ks[..i] + [ks[i]];
    forall k: Keyword ensures k in ks[..i + 1] <==> k in ks[..i] || k == ks[i] {}
  }

  lemma AllKeywords(s: Schema)
    ensures EdgesBefore(s, |PROOF_KEYWORDS|) == ProofEdges(s)
  {
    hide ProofEdge;
    assert PROOF_KEYWORDS[..|PROOF_KEYWORDS|] == PROOF_KEYWORDS;
    forall e: Edge ensures e.keyword in PROOF_KEYWORDS { EveryKeyword(e.keyword); }
  }

  lemma SimpleVerdicts(root: Json, policy: Policy, v: Json, rank: nat)
    ensures v == Bool(true) ==> !Proved(root, policy, v, rank)
    ensures v == Bool(false) ==> ResultRight(root, policy, v, ProofResult(Excluded, 0))
    ensures !v.Bool? && !v.Obj? ==> !Proved(root, policy, v, rank)
    ensures v.Obj? && !LocalOk(policy, v.members) ==> !Proved(root, policy, v, rank)
  {
    hide LocalOk, ChildrenProved, NodeAdmission, ExactObjectConst;
  }

  lemma ExactConstVerdict(root: Json, policy: Policy, s: Schema, d: nat)
    requires LocalOk(policy, s) && ExactObjectConst(s)
    ensures Proved(root, policy, Obj(s), d) <==> LiteralWithin(s["const"], d)
    ensures Proved(root, policy, Obj(s), d) ==> Prove(root, policy, Obj(s), d) == Some(Closed)
  {
    hide LocalOk, ChildrenProved, NodeAdmission;
  }

  ghost predicate ModesRight(root: Json, policy: Policy, s: Schema, k: Keyword, modes: seq<Admission>)
  {
    |modes| == |ListUnder(s, k)|
    && forall i | 0 <= i < |modes| :: VerdictIs(root, policy, ListUnder(s, k)[i], modes[i])
  }

  lemma NothingDone(root: Json, policy: Policy, memo: MemoTable, s: Schema, pointer: string)
    ensures EdgesDone(root, policy, memo, s, pointer, EdgesBefore(s, 0), 0)
  {
    hide ProofEdge, Target, EdgePointer;
    assert PROOF_KEYWORDS[..0] == [];
  }

  /** One more proved subschema. */
  lemma ChildDone(root: Json, policy: Policy, before: MemoTable, memo: MemoTable, s: Schema, pointer: string,
                  edges: set<Edge>, maxDepth: nat, e: Edge, r: ProofResult)
    requires EdgesDone(root, policy, before, s, pointer, edges, maxDepth) && Extends(before, memo)
    requires ProofEdge(s, e) && Target(root, s, e).Some?
    requires var q := EdgePointer(root, s, pointer, e); q in memo && memo[q] == Done(r)
    requires ResultRight(root, policy, Target(root, s, e).value, r)
    ensures EdgesDone(root, policy, memo, s, pointer, edges + {e}, Deeper(maxDepth, r.maxDepth))
  {
    hide ProofEdge, Target, EdgePointer, ResultRight;
    var d := Deeper(maxDepth, r.maxDepth);
    EdgesDoneExtends(root, policy, before, memo, s, pointer, edges, maxDepth, d);
    assert EdgeDone(root, policy, memo, s, pointer, e, d);
    if d == r.maxDepth + 1 {
      assert e in edges + {e};
    } else {
      var x :| x in edges && EdgeDone(root, policy, memo, s, pointer, x, d)
               && memo[EdgePointer(root, s, pointer, x)].result.maxDepth + 1 == maxDepth;
      assert x in edges + {e};
    }
  }

  lemma {:induction false} ListModes(root: Json, policy: Policy, s: Schema, k: Keyword, modes: seq<Admission>, d: nat)
    requires ShapeOf(k).InOrder? && ModesRight(root, policy, s, k, modes)
    requires ChildrenProved(root, policy, s, d)
    ensures forall i | 0 <= i < |modes| ::
              modes[i] != Open && (modes[i] == Excluded <==> ExcludingEdges(root, policy, s, d)(Indexed(k, i)))
  {
    hide Prove;
    forall i | 0 <= i < |modes|
      ensures modes[i] != Open && (modes[i] == Excluded <==> ExcludingEdges(root, policy, s, d)(Indexed(k, i)))
    {
      ListEdge(s, k, i);
      assert Target(root, s, Indexed(k, i)) == Some(ListUnder(s, k)[i]);
      VerdictAt(root, policy, ListUnder(s, k)[i], modes[i], d - 1);
      NeverOpen(root, policy, ListUnder(s, k)[i], modes[i]);
    }
  }

  lemma NeverOpen(root: Json, policy: Policy, v: Json, mode: Admission)
    requires VerdictIs(root, policy, v, mode)
    ensures mode != Open
  {
    hide LocalOk, ChildrenProved, NodeAdmission, ExactObjectConst;
  }

  lemma RefMode(root: Json, policy: Policy, s: Schema, refMode: Admission, d: nat)
    requires Has(s, Ref) && ChildrenProved(root, policy, s, d)
    requires Target(root, s, Single(Ref)).Some? && VerdictIs(root, policy, Target(root, s, Single(Ref)).value, refMode)
    ensures refMode != Open && (refMode == Excluded <==> ExcludingEdges(root, policy, s, d)(Single(Ref)))
  {
    hide Prove;
    assert ProofEdge(s, Single(Ref));
    VerdictAt(root, policy, Target(root, s, Single(Ref)).value, refMode, d - 1);
    NeverOpen(root, policy, Target(root, s, Single(Ref)).value, refMode);
  }

  lemma LocalParts(policy: Policy, s: Schema)
    requires LocalOk(policy, s) && !ExactObjectConst(s)
    ensures EnumOk(s) && !ObjectConst(s) && forall k :: ShapeOk(s, k)
  {
    hide KeywordsOk, NamesOk, TypesOk, EnumOk, ShapeOk;
  }

  lemma CompoundModes(root: Json, policy: Policy, s: Schema, d: nat, refMode: Admission, modes: Keyword -> seq<Admission>)
    requires ChildrenProved(root, policy, s, d)
    requires EnumOk(s) && !ObjectConst(s) && forall k :: ShapeOk(s, k)
    requires forall k | k in {AllOf, AnyOf, OneOf} :: ModesRight(root, policy, s, k, modes(k))
    requires Has(s, Ref) ==> Target(root, s, Single(Ref)).Some? && VerdictIs(root, policy, Target(root, s, Single(Ref)).value, refMode)
    ensures NodeAdmission(s, ExcludingEdges(root, policy, s, d)) ==
            if CombinedMode(s, refMode, modes) == Open then None else Some(CombinedMode(s, refMode, modes))
  {
    hide Prove, Target, NodeAdmission, ExcludingEdges, ChildrenProved, CombinedMode, EnumOk, ShapeOk, VerdictIs;
    forall k | k in {AllOf, AnyOf, OneOf}
      ensures |modes(k)| == |ListUnder(s, k)|
      ensures forall i | 0 <= i < |modes(k)| ::
                modes(k)[i] != Open && (modes(k)[i] == Excluded <==> ExcludingEdges(root, policy, s, d)(Indexed(k, i)))
    {
      ListModes(root, policy, s, k, modes(k), d);
    }
    if Has(s, Ref) {
      RefMode(root, policy, s, refMode, d);
    }
    ModeMeaning(s, ExcludingEdges(root, policy, s, d), refMode, modes);
  }

  /** With every subschema proved, the folded mode is the unmemoised verdict. */
  lemma NodeVerdict(root: Json, policy: Policy, memo: MemoTable, s: Schema, pointer: string,
                    maxDepth: nat, fuel: nat, refMode: Admission, modes: Keyword -> seq<Admission>)
    requires LocalOk(policy, s) && !ExactObjectConst(s)
    requires EdgesDone(root, policy, memo, s, pointer, ProofEdges(s), maxDepth)
    requires forall k | k in {AllOf, AnyOf, OneOf} :: ModesRight(root, policy, s, k, modes(k))
    requires Has(s, Ref) ==> Target(root, s, Single(Ref)).Some? && VerdictIs(root, policy, Target(root, s, Single(Ref)).value, refMode)
    ensures CombinedMode(s, refMode, modes) == Open ==> !Proved(root, policy, Obj(s), fuel)
    ensures CombinedMode(s, refMode, modes) != Open ==>
              ResultRight(root, policy, Obj(s), ProofResult(CombinedMode(s, refMode, modes), maxDepth))
    ensures ChildrenVisited(root, memo, Obj(s), pointer)
  {
    hide ProofEdge, Target, NodeAdmission, ExcludingEdges, ChildrenProved, EdgesDone, ChildrenVisited, CombinedMode,
         Prove, LocalOk, ModesRight, ExactObjectConst, VerdictIs;
    AllEdgesDone(root, policy, memo, s, pointer, maxDepth);
    LocalParts(policy, s);
    CompoundModes(root, policy, s, maxDepth, refMode, modes);
    if CombinedMode(s, refMode, modes) == Open {
      OpenIsRejected(root, policy, s, maxDepth, fuel);
    }
  }

  lemma HasVerdict(root: Json, policy: Policy, v: Json, r: ProofResult)
    requires ResultRight(root, policy, v, r)
    ensures VerdictIs(root, policy, v, r.mode)
  {
  }

  lemma VisitFacts(root: Json, policy: Policy, visit: Visit, charged: nat)
    requires LocalOk(policy, visit.schema) && !ExactObjectConst(visit.schema)
    requires Addresses(root, visit.pointer, Obj(visit.schema))
    requires visit.pointer in visit.memo && visit.memo[visit.pointer] == Visiting
    requires visit.operations <= Sum(visit.memo.Keys - {visit.pointer}, CostAt(root)) + 1
    requires UncachedGuided(root, policy, visit.memo, Obj(visit.schema), visit.pointer, visit.depth, visit.bound)
    requires charged == 0
    ensures NodeFacts(root, policy, visit, charged)
  {
    hide LocalOk, NodeGuided, UncachedGuided;
    NodeCostPositive(Obj(visit.schema));
    VisitGuided(root, policy, visit);
  }

  lemma NodeEnds(root: Json, policy: Policy, visit: Visit, charged: nat, memo: MemoTable, operations: nat,
                 edges: set<Edge>, maxDepth: nat)
    requires NodeFacts(root, policy, visit, charged)
    requires NodeState(root, policy, visit, charged, memo, operations, edges, maxDepth)
    requires charged == if Has(visit.schema, Ref) then 1 else 0
    ensures MemoSound(root, policy, memo) && Extends(visit.memo, memo) && operations <= MAX_OPERATIONS
    ensures operations + 1 == visit.operations + NodeCost(Obj(visit.schema)) + Sum(memo.Keys - visit.memo.Keys, CostAt(root))
    ensures Accepting(root, policy) ==> memo.Keys <= Everywhere(root)
    ensures EdgesDone(root, policy, memo, visit.schema, visit.pointer, edges, maxDepth)
  {
    hide LocalOk, NodeGuided, Accepting, Everywhere, MemoSound, EdgesDone, Extends, Addresses;
  }

  /** A memo entry answers for its node: a visiting mark is a cycle, which an
      accepted root does not have, and a finished entry repeats the verdict. */
  lemma MemoHit(root: Json, policy: Policy, memo: MemoTable, v: Json, pointer: string, depth: nat, bound: nat)
    requires MemoSound(root, policy, memo) && Addresses(root, pointer, v) && pointer in memo
    requires Guided(root, policy, memo, v, pointer, depth, bound)
    ensures memo[pointer].Visiting? ==> !Accepting(root, policy)
    ensures memo[pointer].Done? ==> ResultRight(root, policy, v, memo[pointer].result)
    ensures memo[pointer].Done? && Accepting(root, policy) ==>
              depth + memo[pointer].result.maxDepth <= MAX_DEPTH && memo.Keys <= Everywhere(root)
  {
    hide Prove, Reach, ChildrenVisited;
    assert EntrySound(root, policy, memo, pointer);
    if memo[pointer].Done? && Accepting(root, policy) && memo[pointer].result.maxDepth > bound {
      UnprovedBelow(root, policy, v, bound, memo[pointer].result.maxDepth - 1);
    }
  }

  lemma MemoHitVisited(root: Json, policy: Policy, memo: MemoTable, operations: nat, v: Json, pointer: string)
    requires MemoSound(root, policy, memo) && operations <= MAX_OPERATIONS
    requires pointer in memo && memo[pointer].Done? && ResultRight(root, policy, v, memo[pointer].result)
    requires Accepting(root, policy) ==> memo.Keys <= Everywhere(root)
    ensures Visited(root, policy, memo, operations, memo, operations, v, pointer, memo[pointer].result)
  {
    hide MemoSound, ResultRight, Accepting, Everywhere;
    assert memo.Keys - memo.Keys == {};
  }

  lemma MissStarts(root: Json, policy: Policy, before: MemoTable, spent: nat, v: Json, pointer: string,
                   depth: nat, bound: nat, rank: nat)
    requires MemoSound(root, policy, before) && Addresses(root, pointer, v) && pointer !in before
    requires Guided(root, policy, before, v, pointer, depth, bound)
    requires Accepting(root, policy) ==> rank <= bound && IsRank(root, policy, v, rank)
    requires spent <= Sum(before.Keys, CostAt(root))
    ensures var memo := before[pointer := Visiting];
            && MemoSound(root, policy, memo)
            && UncachedGuided(root, policy, memo, v, pointer, depth, rank)
            && spent + 1 <= Sum(memo.Keys - {pointer}, CostAt(root)) + 1
  {
    hide Prove, Reach, Addresses, MemoSound, Guided, UncachedGuided;
    var memo := before[pointer := Visiting];
    assert memo.Keys - {pointer} == before.Keys;
    VisitingSound(root, policy, before, pointer, v);
    VisitingGuided(root, policy, before, v, pointer, depth, bound, rank);
  }

  lemma MissEnds(root: Json, policy: Policy, before: MemoTable, spent: nat, memo: MemoTable, operations: nat,
                 v: Json, pointer: string, r: ProofResult)
    requires pointer !in before && Addresses(root, pointer, v)
    requires MemoSound(root, policy, memo) && Extends(before[pointer := Visiting], memo)
    requires operations <= MAX_OPERATIONS
    requires operations == spent + NodeCost(v) + Sum(memo.Keys - (before.Keys + {pointer}), CostAt(root))
    requires ResultRight(root, policy, v, r) && ChildrenVisited(root, memo, v, pointer)
    requires Accepting(root, policy) ==> memo.Keys <= Everywhere(root)
    ensures Visited(root, policy, before, spent, memo[pointer := Done(r)], operations, v, pointer, r)
  {
    hide MemoSound, ResultRight, Accepting, Everywhere, ChildrenVisited, NodeCost, Sum, CostAt;
    assert pointer in before[pointer := Visiting];
    FinishEntry(root, policy, memo, pointer, v, r);
    FinishCost(root, before, memo, pointer, v);
    assert memo[pointer := Done(r)].Keys == memo.Keys;
  }

  /** Room for one more operation while an accepted node is in progress. */
  lemma RoomForRef(root: Json, policy: Policy, visit: Visit, memo: MemoTable, operations: nat, edges: set<Edge>, maxDepth: nat)
    requires NodeFacts(root, policy, visit, 0) && NodeState(root, policy, visit, 0, memo, operations, edges, maxDepth)
    requires Has(visit.schema, Ref)
    ensures NodeFacts(root, policy, visit, 1)
    ensures visit.schema[Text(Ref)].Str?
    ensures Accepting(root, policy) && Operations(root) <= MAX_OPERATIONS ==> operations + 1 <= MAX_OPERATIONS
    ensures Accepting(root, policy) ==> Target(root, visit.schema, Single(Ref)).Some?
  {
    hide LocalOk, NodeGuided, Accepting, Everywhere, MemoSound, EdgesDone, Addresses, Target, Extends;
    LocalParts(policy, visit.schema);
    assert ShapeOk(visit.schema, Ref);
    assert NodeFacts(root, policy, visit, 1);
    RefBudget(root, policy, visit, memo);
  }

  lemma RefBudget(root: Json, policy: Policy, visit: Visit, memo: MemoTable)
    requires NodeFacts(root, policy, visit, 1) && Extends(visit.memo, memo)
    requires Accepting(root, policy) ==> memo.Keys <= Everywhere(root)
    requires Has(visit.schema, Ref)
    ensures Accepting(root, policy) && Operations(root) <= MAX_OPERATIONS ==>
              visit.operations + 1 + Sum(memo.Keys - visit.memo.Keys, CostAt(root)) <= MAX_OPERATIONS
    ensures Accepting(root, policy) ==> Target(root, visit.schema, Single(Ref)).Some?
  {
    hide LocalOk, Prove, Reach, Addresses, Target, NodeCost;
    NodeWithinBudget(root, visit, memo, 1);
    if Accepting(root, policy) {
      SumMonotone(memo.Keys, Everywhere(root), CostAt(root), CostAt(root));
      assert ProofEdge(visit.schema, Single(Ref));
      ProvedChild(root, policy, visit.schema, Single(Ref), visit.bound);
    }
  }

  lemma RefEdges(s: Schema)
    ensures EdgesAt(s, Ref) == if Has(s, Ref) then {Single(Ref)} else {}
  {
  }

  lemma RefCharged(root: Json, policy: Policy, visit: Visit, memo: MemoTable, operations: nat, edges: set<Edge>, maxDepth: nat)
    requires operations > 0 && operations <= MAX_OPERATIONS
    requires NodeState(root, policy, visit, 0, memo, operations - 1, edges, maxDepth)
    ensures NodeState(root, policy, visit, 1, memo, operations, edges, maxDepth)
  {
    hide MemoSound, EdgesDone, Extends, Accepting, Everywhere;
  }

  lemma GuidedFacts(root: Json, policy: Policy, memo: MemoTable, v: Json, pointer: string, depth: nat, bound: nat)
    requires Guided(root, policy, memo, v, pointer, depth, bound) && Accepting(root, policy)
    ensures depth + bound <= MAX_DEPTH && Proved(root, policy, v, bound)
    ensures pointer in Everywhere(root) && memo.Keys <= Everywhere(root)
  {
    hide Prove, Reach;
  }

  lemma UncachedFacts(root: Json, policy: Policy, memo: MemoTable, v: Json, pointer: string, depth: nat, rank: nat)
    requires UncachedGuided(root, policy, memo, v, pointer, depth, rank) && Accepting(root, policy)
    ensures depth + rank <= MAX_DEPTH && IsRank(root, policy, v, rank)
    ensures memo.Keys <= Everywhere(root)
  {
    hide Prove, Reach;
  }

  lemma LeafVisited(root: Json, memo: MemoTable, v: Json, pointer: string)
    requires !v.Obj? || ExactObjectConst(v.members)
    ensures ChildrenVisited(root, memo, v, pointer)
  {
  }

  lemma LiteralVerdict(root: Json, policy: Policy, s: Schema, d: nat)
    requires LocalOk(policy, s) && ExactObjectConst(s) && LiteralDepth(s["const"], d)
    ensures ResultRight(root, policy, Obj(s), ProofResult(Closed, d))
  {
    hide LocalOk, Prove;
    ExactConstVerdict(root, policy, s, d);
    if d > 0 {
      ExactConstVerdict(root, policy, s, d - 1);
    }
  }

  lemma LiteralCost(s: Schema)
    requires ExactObjectConst(s)
    ensures NodeCost(Obj(s)) == 1 + LiteralNodes(s["const"])
  {
  }

  lemma LeafCost(v: Json)
    requires !v.Obj?
    ensures NodeCost(v) == 1
  {
  }

  lemma RankIsProved(root: Json, policy: Policy, v: Json, rank: nat)
    requires IsRank(root, policy, v, rank)
    ensures Proved(root, policy, v, rank)
  {
  }

  ghost predicate AllDone(memo: MemoTable)
  {
    forall p | p in memo :: memo[p].Done?
  }

  /** A finished table covers everything reachable from a finished node. */
  lemma {:induction false} ReachVisited(root: Json, policy: Policy, memo: MemoTable, v: Json, pointer: string, fuel: nat, q: string)
    requires MemoSound(root, policy, memo) && AllDone(memo)
    requires pointer in memo && Addresses(root, pointer, v)
    requires q in Reach(root, v, pointer, fuel)
    ensures q in memo
    decreases fuel
  {
    hide Prove, ProofEdge, Target, EdgePointer, ExactObjectConst, Addresses, ReachThrough, ProofEdges;
    if q != pointer {
      var s := v.members;
      var e :| e in ProofEdges(s) && q in ReachEdge(root, s, pointer, e, fuel - 1);
      DoneChild(root, policy, memo, s, pointer, e);
      EdgeAddresses(root, s, pointer, e);
      ReachVisited(root, policy, memo, Target(root, s, e).value, EdgePointer(root, s, pointer, e), fuel - 1, q);
    }
  }

  lemma DoneChild(root: Json, policy: Policy, memo: MemoTable, s: Schema, pointer: string, e: Edge)
    requires MemoSound(root, policy, memo) && AllDone(memo)
    requires pointer in memo && Addresses(root, pointer, Obj(s))
    requires !ExactObjectConst(s) && ProofEdge(s, e)
    ensures EdgePointer(root, s, pointer, e) in memo
  {
    hide ProofEdge, EdgePointer, ExactObjectConst, ResultRight;
    assert EntrySound(root, policy, memo, pointer);
    assert EdgeVisited(root, memo, s, pointer, e);
  }

  lemma EmptyMemoSound(root: Json, policy: Policy)
    ensures MemoSound(root, policy, map[])
  {
  }

  lemma RootGuided(root: Json, policy: Policy)
    ensures Guided(root, policy, map[], root, "#", 0, MAX_DEPTH)
  {
    hide Prove;
  }

  lemma ResultAccepts(root: Json, policy: Policy, r: ProofResult)
    requires ResultRight(root, policy, root, r) && r.maxDepth <= MAX_DEPTH
    ensures Accepting(root, policy)
  {
    hide Prove;
    ProveMonotone(root, policy, root, r.maxDepth, MAX_DEPTH);
  }
}
