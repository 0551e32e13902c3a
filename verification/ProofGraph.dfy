/** What acceptance by the closure proof says about the graph: every node has a
    rank, so the child and `$ref` edges are acyclic and no path exceeds the depth
    limit; and the nodes reachable from the root have a definite cost. */
module ProofGraph {
  import opened Wrappers
  import opened JsonModel
  import opened FiniteSums
  import opened SchemaGraph
  import opened Pointers
  import opened Closure

  // ---------- ranks and paths ----------

  /** The length of the longest path below a proved node: the least fuel. */
  ghost predicate IsRank(root: Json, policy: Policy, v: Json, d: nat)
  {
    Proved(root, policy, v, d) && (d == 0 || !Proved(root, policy, v, d - 1))
  }

  ghost function RankWithin(root: Json, policy: Policy, v: Json, fuel: nat): (d: nat)
    requires Proved(root, policy, v, fuel)
    ensures d <= fuel && IsRank(root, policy, v, d)
  {
    if fuel == 0 || !Proved(root, policy, v, fuel - 1) then fuel
    else RankWithin(root, policy, v, fuel - 1)
  }

  lemma RankUnique(root: Json, policy: Policy, v: Json, c: nat, d: nat)
    requires IsRank(root, policy, v, c) && IsRank(root, policy, v, d)
    ensures c == d
  {
    if c < d {
      ProveMonotone(root, policy, v, c, d - 1);
    } else if d < c {
      ProveMonotone(root, policy, v, d, c - 1);
    }
  }

  lemma RankIsTight(root: Json, policy: Policy, v: Json, d: nat)
    requires IsRank(root, policy, v, d)
    ensures Proved(root, policy, v, d) && (d > 0 ==> !Proved(root, policy, v, d - 1))
  {
    hide Prove;
  }

  lemma UnprovedBelow(root: Json, policy: Policy, v: Json, less: nat, fuel: nat)
    requires less <= fuel && !Proved(root, policy, v, fuel)
    ensures !Proved(root, policy, v, less)
  {
    if Proved(root, policy, v, less) {
      ProveMonotone(root, policy, v, less, fuel);
    }
  }

  /** Where a path of proof edges leads. */
  ghost function Follow(root: Json, v: Json, path: seq<Edge>): Option<Json>
    decreases |path|
  {
    if path == [] then Some(v)
    else if !v.Obj? || ExactObjectConst(v.members) || !ProofEdge(v.members, path[0]) then None
    else match Target(root, v.members, path[0])
      case None => None
      case Some(child) => Follow(root, child, path[1..])
  }

  lemma {:induction false} FollowConcat(root: Json, v: Json, a: seq<Edge>, b: seq<Edge>)
    requires Follow(root, v, a).Some?
    ensures Follow(root, v, a + b) == Follow(root, Follow(root, v, a).value, b)
    decreases |a|
  {
    if a == [] {
      assert a + b == b;
    } else {
      assert (a + b)[1..] == a[1..] + b;
      FollowConcat(root, Target(root, v.members, a[0]).value, a[1..], b);
    }
  }

  lemma ProvedChild(root: Json, policy: Policy, s: Schema, e: Edge, fuel: nat)
    requires Proved(root, policy, Obj(s), fuel)
    requires !ExactObjectConst(s) && ProofEdge(s, e)
    ensures fuel > 0 && Target(root, s, e).Some?
    ensures Proved(root, policy, Target(root, s, e).value, fuel - 1)
  {
    hide LocalOk, ProofEdge, Target, NodeAdmission, ExactObjectConst;
    assert ChildrenProved(root, policy, s, fuel);
  }

  /** An accepted schema has no path longer than the depth limit, whether or not
      a memo entry cut the traversal short. */
  lemma {:induction false} PathsAreBounded(root: Json, policy: Policy, v: Json, fuel: nat, path: seq<Edge>)
    requires Proved(root, policy, v, fuel)
    requires Follow(root, v, path).Some?
    ensures |path| <= fuel
    ensures Proved(root, policy, Follow(root, v, path).value, fuel - |path|)
    decreases |path|
  {
    hide Prove;
    if path != [] {
      ProvedChild(root, policy, v.members, path[0], fuel);
      PathsAreBounded(root, policy, Target(root, v.members, path[0]).value, fuel - 1, path[1..]);
    }
  }

  /** Acceptance implies that no node is below itself. */
  lemma AcceptedIsAcyclic(root: Json, policy: Policy, v: Json, fuel: nat, path: seq<Edge>)
    requires Proved(root, policy, v, fuel)
    requires path != []
    ensures Follow(root, v, path) != Some(v)
  {
    hide Prove, Follow;
    var d := RankWithin(root, policy, v, fuel);
    if Follow(root, v, path) == Some(v) {
      PathsAreBounded(root, policy, v, d, path);
      UnprovedBelow(root, policy, v, d - |path|, d - 1);
    }
  }

  /** The rank is attained: some path uses all of it, ending at a leaf or at the
      exact object literal that accounts for the rest. */
  lemma {:induction false} LongestPath(root: Json, policy: Policy, v: Json, d: nat) returns (path: seq<Edge>, end: Json)
    requires IsRank(root, policy, v, d)
    ensures Follow(root, v, path) == Some(end) && |path| <= d
    ensures IsRank(root, policy, end, d - |path|)
    ensures |path| == d || (end.Obj? && ExactObjectConst(end.members))
    decreases d
  {
    hide Prove, ProofEdge, Target, ExactObjectConst;
    if d == 0 || (v.Obj? && ExactObjectConst(v.members)) {
      path, end := [], v;
    } else {
      NonObjectRank(root, policy, v, d);
      var s := v.members;
      var e := DeepestEdge(root, policy, s, d);
      var child := Target(root, s, e).value;
      path, end := LongestPath(root, policy, child, d - 1);
      FollowCons(root, s, e, path);
      path := [e] + path;
    }
  }

  lemma FollowCons(root: Json, s: Schema, e: Edge, path: seq<Edge>)
    requires !ExactObjectConst(s) && ProofEdge(s, e) && Target(root, s, e).Some?
    ensures Follow(root, Obj(s), [e] + path) == Follow(root, Target(root, s, e).value, path)
  {
    hide ProofEdge, Target, ExactObjectConst;
    assert ([e] + path)[1..] == path;
  }

  lemma NonObjectRank(root: Json, policy: Policy, v: Json, d: nat)
    requires IsRank(root, policy, v, d) && d > 0
    ensures v.Obj?
  {
    hide LocalOk, ChildrenProved, NodeAdmission, ExactObjectConst;
  }

  lemma DeepestEdge(root: Json, policy: Policy, s: Schema, d: nat) returns (e: Edge)
    requires IsRank(root, policy, Obj(s), d) && d > 0 && !ExactObjectConst(s)
    ensures ProofEdge(s, e) && Target(root, s, e).Some?
    ensures IsRank(root, policy, Target(root, s, e).value, d - 1)
  {
    hide Prove, ProofEdge, Target;
    forall x | ProofEdge(s, x)
      ensures Target(root, s, x).Some? && Proved(root, policy, Target(root, s, x).value, d - 1)
    {
      ProvedChild(root, policy, s, x, d);
    }
    if d == 1 {
      NoEdgeNoRank(root, policy, s);
      e :| ProofEdge(s, e);
    } else {
      if forall x | ProofEdge(s, x) :: Proved(root, policy, Target(root, s, x).value, d - 2) {
        ShallowerProof(root, policy, s, d);
      }
      e :| ProofEdge(s, e) && !Proved(root, policy, Target(root, s, e).value, d - 2);
    }
  }

  lemma NoEdgeNoRank(root: Json, policy: Policy, s: Schema)
    requires IsRank(root, policy, Obj(s), 1) && !ExactObjectConst(s)
    ensures exists e :: ProofEdge(s, e)
  {
    hide LocalOk, ProofEdge, Target, NodeAdmission, ExactObjectConst;
    if !exists e :: ProofEdge(s, e) {
      SameChildrenSameVerdict(root, policy, s, 0, 1);
    }
  }

  lemma ShallowerProof(root: Json, policy: Policy, s: Schema, d: nat)
    requires Proved(root, policy, Obj(s), d) && d >= 2 && !ExactObjectConst(s)
    requires forall x | ProofEdge(s, x) :: Target(root, s, x).Some? && Proved(root, policy, Target(root, s, x).value, d - 2)
    ensures Proved(root, policy, Obj(s), d - 1)
  {
    hide LocalOk, ProofEdge, Target, NodeAdmission, ExactObjectConst;
    forall e | ProofEdge(s, e)
      ensures Prove(root, policy, Target(root, s, e).value, d - 2) == Prove(root, policy, Target(root, s, e).value, d - 1)
    {
      ProveMonotone(root, policy, Target(root, s, e).value, d - 2, d - 1);
    }
    assert ChildrenProved(root, policy, s, d);
    SameChildrenSameVerdict(root, policy, s, d - 1, d);
  }

  // ---------- reachable pointers and what they cost ----------

  /** Operations one node is charged: itself, its `$ref`, and the nodes of its
      exact object literal. */
  ghost function NodeCost(v: Json): nat
  {
    match v
    case Obj(s) =>
      if ExactObjectConst(s) then 1 + LiteralNodes(s["const"])
      else if Has(s, Ref) then 2
      else 1
    case _ => 1
  }

  ghost function CostAt(root: Json): string -> nat
  {
    pointer => match Locate(root, pointer)
      case None => 0
      case Some(v) => NodeCost(v)
  }

  /** Pointers visited from a node along at most `fuel` edges. */
  ghost function Reach(root: Json, v: Json, pointer: string, fuel: nat): (r: set<string>)
    ensures pointer in r
    decreases fuel, 1
  {
    match v
    case Obj(s) =>
      if ExactObjectConst(s) || fuel == 0 then {pointer}
      else {pointer} + ReachThrough(root, s, pointer, fuel - 1)
    case _ => {pointer}
  }

  ghost function ReachThrough(root: Json, s: Schema, pointer: string, fuel: nat): (r: set<string>)
    ensures forall q :: q in r <==> exists e :: e in ProofEdges(s) && q in ReachEdge(root, s, pointer, e, fuel)
    decreases fuel, 3
  {
    set e, q | e in ProofEdges(s) && q in ReachEdge(root, s, pointer, e, fuel) :: q
  }

  ghost function ReachEdge(root: Json, s: Schema, pointer: string, e: Edge, fuel: nat): set<string>
    decreases fuel, 2
  {
    match Target(root, s, e)
    case None => {}
    case Some(child) => Reach(root, child, EdgePointer(root, s, pointer, e), fuel)
  }

  const PROOF_KEYWORDS: seq<Keyword> :=
    [Defs, Definitions, Properties, DependentSchemas,
     AdditionalProperties, Items, Contains, UnevaluatedItems, UnevaluatedProperties,
     PropertyNames, Not, If, Then, Else, AllOf, AnyOf, OneOf, PrefixItems, Ref]

  lemma EveryKeyword(k: Keyword)
    ensures k in PROOF_KEYWORDS
  {
    match k
    case Defs => assert PROOF_KEYWORDS[0] == k;
    case Definitions => assert PROOF_KEYWORDS[1] == k;
    case Properties => assert PROOF_KEYWORDS[2] == k;
    case DependentSchemas => assert PROOF_KEYWORDS[3] == k;
    case AdditionalProperties => assert PROOF_KEYWORDS[4] == k;
    case Items => assert PROOF_KEYWORDS[5] == k;
    case Contains => assert PROOF_KEYWORDS[6] == k;
    case UnevaluatedItems => assert PROOF_KEYWORDS[7] == k;
    case UnevaluatedProperties => assert PROOF_KEYWORDS[8] == k;
    case PropertyNames => assert PROOF_KEYWORDS[9] == k;
    case Not => assert PROOF_KEYWORDS[10] == k;
    case If => assert PROOF_KEYWORDS[11] == k;
    case Then => assert PROOF_KEYWORDS[12] == k;
    case Else => assert PROOF_KEYWORDS[13] == k;
    case AllOf => assert PROOF_KEYWORDS[14] == k;
    case AnyOf => assert PROOF_KEYWORDS[15] == k;
    case OneOf => assert PROOF_KEYWORDS[16] == k;
    case PrefixItems => assert PROOF_KEYWORDS[17] == k;
    case Ref => assert PROOF_KEYWORDS[18] == k;
  }

  ghost function ProofEdges(s: Schema): (r: set<Edge>)
    ensures forall e :: e in r <==> ProofEdge(s, e)
  {
    var all := EdgesOver(s, PROOF_KEYWORDS);
    assert forall e: Edge :: e.keyword in PROOF_KEYWORDS by {
      forall e: Edge ensures e.keyword in PROOF_KEYWORDS { EveryKeyword(e.keyword); }
    }
    set e | e in all && ProofEdge(s, e)
  }

  /** All the operations the proof of an accepted root can charge. */
  ghost function Operations(root: Json): nat
  {
    Sum(Reach(root, root, "#", MAX_DEPTH), CostAt(root))
  }

  lemma AddressUnique(root: Json, pointer: string, a: Json, b: Json)
    requires Addresses(root, pointer, a) && Addresses(root, pointer, b)
    ensures a == b
  {
  }

  /** The visited set is closed: a visited node's subschemas are visited. */
  lemma {:induction false} ReachClosed(
      root: Json, policy: Policy, v: Json, pointer: string, fuel: nat, q: string, s: Schema, e: Edge)
    requires Proved(root, policy, v, fuel) && Addresses(root, pointer, v)
    requires q in Reach(root, v, pointer, fuel) && Addresses(root, q, Obj(s))
    requires !ExactObjectConst(s) && ProofEdge(s, e)
    ensures EdgePointer(root, s, q, e) in Reach(root, v, pointer, fuel)
    decreases fuel
  {
    hide Prove, ProofEdge, Target, EdgePointer, ExactObjectConst, Addresses, ReachThrough, ProofEdges;
    if q == pointer {
      AddressUnique(root, pointer, v, Obj(s));
      ProvedChild(root, policy, s, e, fuel);
      assert EdgePointer(root, s, q, e) in ReachEdge(root, s, q, e, fuel - 1);
    } else {
      var through := v.members;
      var d :| d in ProofEdges(through) && q in ReachEdge(root, through, pointer, d, fuel - 1);
      ProvedChild(root, policy, through, d, fuel);
      EdgeAddresses(root, through, pointer, d);
      ReachClosed(root, policy, Target(root, through, d).value, EdgePointer(root, through, pointer, d),
                  fuel - 1, q, s, e);
      assert EdgePointer(root, s, q, e) in ReachEdge(root, through, pointer, d, fuel - 1);
    }
  }

  lemma {:induction false} ReachAddressed(
      root: Json, policy: Policy, v: Json, pointer: string, fuel: nat, q: string) returns (w: Json, left: nat)
    requires Proved(root, policy, v, fuel) && Addresses(root, pointer, v)
    requires q in Reach(root, v, pointer, fuel)
    ensures Addresses(root, q, w) && left <= fuel && Proved(root, policy, w, left)
    decreases fuel
  {
    hide Prove, ProofEdge, Target, EdgePointer, ExactObjectConst, Addresses, ReachThrough, ProofEdges;
    if q == pointer {
      w, left := v, fuel;
    } else {
      var through := v.members;
      var d :| d in ProofEdges(through) && q in ReachEdge(root, through, pointer, d, fuel - 1);
      ProvedChild(root, policy, through, d, fuel);
      EdgeAddresses(root, through, pointer, d);
      w, left := ReachAddressed(root, policy, Target(root, through, d).value,
                                EdgePointer(root, through, pointer, d), fuel - 1, q);
    }
  }
}
