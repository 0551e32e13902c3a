/** The memoised closure proof as the library runs it: one object with a memo
    table keyed by canonical pointer, a visiting mark that detects cycles, a depth
    limit and an operation budget. Map children are visited in any order. */
module ClosureValidator {
  import opened Wrappers
  import opened JsonModel
  import opened FiniteSums
  import opened SchemaGraph
  import opened Pointers
  import opened Closure
  import opened ProofGraph
  import opened AdmissionFolds
  import opened ExactLiterals
  import opened ClosureMemo

  class PortableSchemaValidator {
    const root: Json
    const policy: Policy
    var memo: MemoTable
    var operations: nat

    constructor (root: Json, policy: Policy)
      ensures this.root == root && this.policy == policy
      ensures memo == map[] && operations == 0
    {
      this.root, this.policy := root, policy;
      memo, operations := map[], 0;
    }

    /** A node of which `edges` are already proved. */
    ghost predicate InProgress(visit: Visit, charged: nat, edges: set<Edge>, maxDepth: nat)
      reads this
    {
      NodeFacts(root, policy, visit, charged)
      && NodeState(root, policy, visit, charged, memo, operations, edges, maxDepth)
    }

    ghost predicate Complete()
    {
      Accepting(root, policy) && Operations(root) <= MAX_OPERATIONS
    }

    method ConsumeOperation() returns (ok: bool)
      modifies this`operations
      ensures operations == old(operations) + 1
      ensures ok <==> operations <= MAX_OPERATIONS
    {
      operations := operations + 1;
      ok := operations <= MAX_OPERATIONS;
    }

    method Validate(value: Json, pointer: string, depth: nat, ghost bound: nat) returns (r: Option<ProofResult>)
      requires MemoSound(root, policy, memo) && Addresses(root, pointer, value)
      requires operations <= MAX_OPERATIONS && operations <= Sum(memo.Keys, CostAt(root))
      requires Guided(root, policy, memo, value, pointer, depth, bound)
      modifies this
      ensures r.Some? ==> Visited(root, policy, old(memo), old(operations), memo, operations, value, pointer, r.value)
      ensures r.Some? ==> depth + r.value.maxDepth <= MAX_DEPTH
      ensures Complete() ==> r.Some?
      decreases MAX_DEPTH + 1 - depth, 5
    {
      hide Prove, Reach, Everywhere, MemoSound, Guided, UncachedGuided, NodeCost, ChildrenVisited, Addresses, Visited, Extends;
      if Accepting(root, policy) {
        GuidedFacts(root, policy, memo, value, pointer, depth, bound);
      }
      if depth > MAX_DEPTH {
        return None;
      }
      if pointer in memo {
        var entry := memo[pointer];
        MemoHit(root, policy, memo, value, pointer, depth, bound);
        if entry.Visiting? {
          return None;
        }
        if depth + entry.result.maxDepth > MAX_DEPTH {
          return None;
        }
        MemoHitVisited(root, policy, memo, operations, value, pointer);
        return Some(entry.result);
      }
      ghost var before, spent := memo, operations;
      NodeCostPositive(value);
      if Complete() {
        NewPointerWithinBudget(root, policy, memo, pointer, value, operations);
      }
      var ok := ConsumeOperation();
      if !ok {
        return None;
      }
      ghost var rank := if Accepting(root, policy) then RankWithin(root, policy, value, bound) else 0;
      MissStarts(root, policy, before, spent, value, pointer, depth, bound, rank);
      memo := memo[pointer := Visiting];
      assert memo.Keys == before.Keys + {pointer};
      var result := ValidateUncached(value, pointer, depth, rank);
      if result.None? {
        return None;
      }
      if depth + result.value.maxDepth > MAX_DEPTH {
        if Accepting(root, policy) {
          RankUnique(root, policy, value, rank, result.value.maxDepth);
        }
        return None;
      }
      MissEnds(root, policy, before, spent, memo, operations, value, pointer, result.value);
      memo := memo[pointer := Done(result.value)];
      return result;
    }

    method ValidateUncached(value: Json, pointer: string, depth: nat, ghost rank: nat) returns (r: Option<ProofResult>)
      requires depth <= MAX_DEPTH && Addresses(root, pointer, value)
      requires MemoSound(root, policy, memo) && pointer in memo && memo[pointer].Visiting?
      requires operations <= MAX_OPERATIONS
      requires operations <= Sum(memo.Keys - {pointer}, CostAt(root)) + 1
      requires UncachedGuided(root, policy, memo, value, pointer, depth, rank)
      requires Complete() ==> operations + NodeCost(value) <= MAX_OPERATIONS + 1
      modifies this
      ensures r.Some? ==>
                && MemoSound(root, policy, memo) && Extends(old(memo), memo)
                && operations <= MAX_OPERATIONS
                && operations + 1 == old(operations) + NodeCost(value) + Sum(memo.Keys - old(memo.Keys), CostAt(root))
                && ResultRight(root, policy, value, r.value)
                && ChildrenVisited(root, memo, value, pointer)
                && (Accepting(root, policy) ==> memo.Keys <= Everywhere(root))
      ensures Complete() ==> r.Some?
      decreases MAX_DEPTH + 1 - depth, 4
    {
      hide Prove, IsRank, Everywhere, LocalOk, LiteralWithin, LiteralNodes, MemoSound, UncachedGuided, ResultRight,
           ChildrenVisited, NodeCost, Addresses;
      SimpleVerdicts(root, policy, value, rank);
      if Accepting(root, policy) {
        UncachedFacts(root, policy, memo, value, pointer, depth, rank);
        RankIsProved(root, policy, value, rank);
      }
      assert memo.Keys - memo.Keys == {};
      match value {
        case Bool(b) =>
          if b {
            return None;
          }
          LeafVisited(root, memo, value, pointer);
          LeafCost(value);
          return Some(ProofResult(Excluded, 0));
        case Obj(schema) =>
          // The library interleaves these checks with the traversal; the order
          // only decides which of several errors it reports.
          if !LocalOk(policy, schema) {
            return None;
          }
          if ExactObjectConst(schema) {
            ExactConstVerdict(root, policy, schema, rank);
            LiteralCost(schema);
            var literalDepth := ValidateExactObjectConst(schema["const"], 0, rank);
            if literalDepth.None? {
              return None;
            }
            LeafVisited(root, memo, value, pointer);
            LiteralVerdict(root, policy, schema, literalDepth.value);
            return Some(ProofResult(Closed, literalDepth.value));
          }
          r := ValidateNode(schema, pointer, depth, rank);
        case _ =>
          return None;
      }
    }

    /** Proves a node all of whose own checks passed. */
    method ValidateNode(schema: Schema, pointer: string, depth: nat, ghost rank: nat) returns (r: Option<ProofResult>)
      requires depth <= MAX_DEPTH && Addresses(root, pointer, Obj(schema))
      requires LocalOk(policy, schema) && !ExactObjectConst(schema)
      requires MemoSound(root, policy, memo) && pointer in memo && memo[pointer].Visiting?
      requires operations <= MAX_OPERATIONS
      requires operations <= Sum(memo.Keys - {pointer}, CostAt(root)) + 1
      requires UncachedGuided(root, policy, memo, Obj(schema), pointer, depth, rank)
      modifies this
      ensures r.Some? ==>
                && MemoSound(root, policy, memo) && Extends(old(memo), memo)
                && operations <= MAX_OPERATIONS
                && operations + 1 == old(operations) + NodeCost(Obj(schema)) + Sum(memo.Keys - old(memo.Keys), CostAt(root))
                && ResultRight(root, policy, Obj(schema), r.value)
                && ChildrenVisited(root, memo, Obj(schema), pointer)
                && (Accepting(root, policy) ==> memo.Keys <= Everywhere(root))
      ensures Complete() ==> r.Some?
      decreases MAX_DEPTH + 1 - depth, 3
    {
      hide Prove, ProofEdge, Target, EdgePointer, Reach, LocalOk, EdgesDone, ExactObjectConst, NodeState, NodeFacts,
           EdgesBefore, EdgesAt, ModesRight, VerdictIs, CombinedMode, MemoSound, ResultRight, ChildrenVisited;
      ghost var visit := Visit(schema, pointer, depth, rank, memo, operations);
      assert NodeFacts(root, policy, visit, 0) by { VisitFacts(root, policy, visit, 0); }
      NodeStarts(root, policy, visit);
      var named := ValidateNamedKeywords(visit, schema, pointer, depth);
      if named.None? {
        return None;
      }
      var single := ValidateSingleKeywords(visit, schema, pointer, depth, named.value);
      if single.None? {
        return None;
      }
      var listed, compound := ValidateListKeywords(visit, schema, pointer, depth, single.value);
      if listed.None? {
        return None;
      }
      var next, refMode := ValidateRef(visit, EdgesBefore(schema, 18), schema, pointer, depth, listed.value);
      if next.None? {
        return None;
      }
      var maxDepth := next.value;
      NextKeyword(schema, 18);
      AllKeywords(schema);
      var modesOf := k => if k in compound then compound[k] else [];
      var mode := CombineModes(schema, refMode, modesOf);
      NodeEnds(root, policy, visit, if Has(schema, Ref) then 1 else 0, memo, operations, ProofEdges(schema), maxDepth);
      NodeVerdict(root, policy, memo, schema, pointer, maxDepth, rank, refMode, modesOf);
      if mode == Open {
        return None;
      }
      return Some(ProofResult(mode, maxDepth));
    }

    method ValidateNamedKeywords(ghost visit: Visit, schema: Schema, pointer: string, depth: nat) returns (r: Option<nat>)
      requires InProgress(visit, 0, EdgesBefore(schema, 0), 0) && depth == visit.depth <= MAX_DEPTH
      requires schema == visit.schema && pointer == visit.pointer
      modifies this
      ensures r.Some? ==> InProgress(visit, 0, EdgesBefore(schema, 4), r.value)
      ensures Complete() ==> r.Some?
      decreases MAX_DEPTH + 1 - depth, 2
    {
      hide InProgress, Complete, EdgesBefore, EdgesAt;
      var maxDepth, i := 0, 0;
      while i < 4
        invariant 0 <= i <= 4
        invariant InProgress(visit, 0, EdgesBefore(schema, i), maxDepth)
      {
        NextKeyword(schema, i);
        var next := ValidateNamed(visit, EdgesBefore(schema, i), schema, PROOF_KEYWORDS[i], pointer, depth, maxDepth);
        if next.None? {
          return None;
        }
        maxDepth, i := next.value, i + 1;
      }
      return Some(maxDepth);
    }

    method ValidateSingleKeywords(ghost visit: Visit, schema: Schema, pointer: string, depth: nat, soFar: nat) returns (r: Option<nat>)
      requires InProgress(visit, 0, EdgesBefore(schema, 4), soFar) && depth == visit.depth <= MAX_DEPTH
      requires schema == visit.schema && pointer == visit.pointer
      modifies this
      ensures r.Some? ==> InProgress(visit, 0, EdgesBefore(schema, 14), r.value)
      ensures Complete() ==> r.Some?
      decreases MAX_DEPTH + 1 - depth, 2
    {
      hide InProgress, Complete, EdgesBefore, EdgesAt;
      var maxDepth, i := soFar, 4;
      while i < 14
        invariant 4 <= i <= 14
        invariant InProgress(visit, 0, EdgesBefore(schema, i), maxDepth)
      {
        NextKeyword(schema, i);
        var next := ValidateSingle(visit, EdgesBefore(schema, i), schema, PROOF_KEYWORDS[i], pointer, depth, maxDepth);
        if next.None? {
          return None;
        }
        maxDepth, i := next.value, i + 1;
      }
      return Some(maxDepth);
    }

    method ValidateListKeywords(ghost visit: Visit, schema: Schema, pointer: string, depth: nat, soFar: nat)
      returns (r: Option<nat>, compound: map<Keyword, seq<Admission>>)
      requires InProgress(visit, 0, EdgesBefore(schema, 14), soFar) && depth == visit.depth <= MAX_DEPTH
      requires schema == visit.schema && pointer == visit.pointer
      modifies this
      ensures r.Some? ==> InProgress(visit, 0, EdgesBefore(schema, 18), r.value)
      ensures r.Some? ==> forall k | k in {AllOf, AnyOf, OneOf} :: k in compound && ModesRight(root, policy, schema, k, compound[k])
      ensures Complete() ==> r.Some?
      decreases MAX_DEPTH + 1 - depth, 2
    {
      hide InProgress, Complete, EdgesBefore, EdgesAt, ModesRight;
      compound := map[];
      var maxDepth, i := soFar, 14;
      while i < 18
        invariant 14 <= i <= 18
        invariant InProgress(visit, 0, EdgesBefore(schema, i), maxDepth)
        invariant forall j | 14 <= j < i :: PROOF_KEYWORDS[j] in compound && ModesRight(root, policy, schema, PROOF_KEYWORDS[j], compound[PROOF_KEYWORDS[j]])
      {
        NextKeyword(schema, i);
        var next, modes := ValidateList(visit, EdgesBefore(schema, i), schema, PROOF_KEYWORDS[i], pointer, depth, maxDepth);
        if next.None? {
          return None, compound;
        }
        compound := compound[PROOF_KEYWORDS[i] := modes];
        maxDepth, i := next.value, i + 1;
      }
      assert PROOF_KEYWORDS[14] == AllOf && PROOF_KEYWORDS[15] == AnyOf && PROOF_KEYWORDS[16] == OneOf;
      return Some(maxDepth), compound;
    }

    method ValidateChild(ghost visit: Visit, ghost charged: nat, ghost edges: set<Edge>, ghost e: Edge,
                         child: Json, childPointer: string, depth: nat, maxDepth: nat)
      returns (r: Option<ProofResult>, newMax: nat)
      requires InProgress(visit, charged, edges, maxDepth) && depth == visit.depth <= MAX_DEPTH
      requires ProofEdge(visit.schema, e) && Target(root, visit.schema, e) == Some(child)
      requires childPointer == EdgePointer(root, visit.schema, visit.pointer, e)
      modifies this
      ensures r.Some? ==> InProgress(visit, charged, edges + {e}, newMax)
      ensures r.Some? ==> VerdictIs(root, policy, child, r.value.mode)
      ensures Complete() ==> r.Some?
      decreases MAX_DEPTH + 1 - depth, 0
    {
      hide Prove, ProofEdge, Target, EdgePointer, Accepting, Everywhere, LocalOk, EdgesDone, ExactObjectConst, NodeCost,
           NodeGuided, Guided, MemoSound, ResultRight, Addresses;
      EdgeAddresses(root, visit.schema, visit.pointer, e);
      ChildGuided(root, policy, visit, memo, e);
      NodeWithinBudget(root, visit, memo, charged);
      ghost var before, spent := memo, operations;
      r := Validate(child, childPointer, depth + 1, Below(visit.bound));
      newMax := maxDepth;
      if r.Some? {
        ChildProgress(root, policy, visit, charged, before, spent, edges, maxDepth, memo, operations, e, r.value);
        HasVerdict(root, policy, child, r.value);
        if r.value.maxDepth + 1 > maxDepth {
          newMax := r.value.maxDepth + 1;
        }
      }
    }

    method ValidateNamed(ghost visit: Visit, ghost edges: set<Edge>, schema: Schema, keyword: Keyword,
                         pointer: string, depth: nat, maxDepth: nat) returns (r: Option<nat>)
      requires InProgress(visit, 0, edges, maxDepth) && depth == visit.depth <= MAX_DEPTH
      requires schema == visit.schema && pointer == visit.pointer && ShapeOf(keyword).ByName?
      modifies this
      ensures r.Some? ==> InProgress(visit, 0, edges + EdgesAt(schema, keyword), r.value)
      ensures Complete() ==> r.Some?
      decreases MAX_DEPTH + 1 - depth, 1
    {
      hide InProgress, Prove;
      var children := NamesUnder(schema, keyword);
      var remaining := children.Keys;
      var deepest := maxDepth;
      ghost var done := edges;
      while remaining != {}
        invariant remaining <= children.Keys
        invariant done == edges + set n | n in children.Keys - remaining :: Named(keyword, n)
        invariant InProgress(visit, 0, done, deepest)
      {
        var name :| name in remaining;
        var result, newMax := ValidateChild(visit, 0, done, Named(keyword, name), children[name],
                                            AppendPointer(pointer, [Text(keyword), name]), depth, deepest);
        if result.None? {
          return None;
        }
        deepest := newMax;
        done := done + {Named(keyword, name)};
        remaining := remaining - {name};
      }
      assert done == edges + EdgesAt(schema, keyword);
      return Some(deepest);
    }

    method ValidateSingle(ghost visit: Visit, ghost edges: set<Edge>, schema: Schema, keyword: Keyword,
                          pointer: string, depth: nat, maxDepth: nat) returns (r: Option<nat>)
      requires InProgress(visit, 0, edges, maxDepth) && depth == visit.depth <= MAX_DEPTH
      requires schema == visit.schema && pointer == visit.pointer && ShapeOf(keyword).One? && keyword != Ref
      modifies this
      ensures r.Some? ==> InProgress(visit, 0, edges + EdgesAt(schema, keyword), r.value)
      ensures Complete() ==> r.Some?
      decreases MAX_DEPTH + 1 - depth, 1
    {
      hide InProgress, Prove;
      if !Has(schema, keyword) || (keyword == AdditionalProperties && schema[Text(keyword)] == Bool(false)) {
        assert edges + EdgesAt(schema, keyword) == edges;
        return Some(maxDepth);
      }
      var result, newMax := ValidateChild(visit, 0, edges, Single(keyword), schema[Text(keyword)],
                                          AppendPointer(pointer, [Text(keyword)]), depth, maxDepth);
      if result.None? {
        return None;
      }
      assert EdgesAt(schema, keyword) == {Single(keyword)};
      return Some(newMax);
    }

    method ValidateList(ghost visit: Visit, ghost edges: set<Edge>, schema: Schema, keyword: Keyword,
                        pointer: string, depth: nat, maxDepth: nat) returns (r: Option<nat>, modes: seq<Admission>)
      requires InProgress(visit, 0, edges, maxDepth) && depth == visit.depth <= MAX_DEPTH
      requires schema == visit.schema && pointer == visit.pointer && ShapeOf(keyword).InOrder?
      modifies this
      ensures r.Some? ==> InProgress(visit, 0, edges + EdgesAt(schema, keyword), r.value)
      ensures r.Some? ==> ModesRight(root, policy, schema, keyword, modes)
      ensures Complete() ==> r.Some?
      decreases MAX_DEPTH + 1 - depth, 1
    {
      hide InProgress, Prove, VerdictIs;
      var children := ListUnder(schema, keyword);
      modes := [];
      var deepest := maxDepth;
      ghost var done := edges;
      var index := 0;
      while index < |children|
        invariant 0 <= index <= |children| && |modes| == index
        invariant forall i | 0 <= i < index :: VerdictIs(root, policy, children[i], modes[i])
        invariant done == edges + set i | i in Indices(index) :: Indexed(keyword, i)
        invariant InProgress(visit, 0, done, deepest)
      {
        ListEdge(schema, keyword, index);
        var result, newMax := ValidateChild(visit, 0, done, Indexed(keyword, index), children[index],
                                            AppendPointer(pointer, [Text(keyword), Itoa(index)]), depth, deepest);
        if result.None? {
          return None, modes;
        }
        deepest := newMax;
        modes := modes + [result.value.mode];
        done := done + {Indexed(keyword, index)};
        index := index + 1;
      }
      assert done == edges + EdgesAt(schema, keyword);
      return Some(deepest), modes;
    }

    method ValidateRef(ghost visit: Visit, ghost edges: set<Edge>, schema: Schema,
                       pointer: string, depth: nat, maxDepth: nat) returns (r: Option<nat>, mode: Admission)
      requires InProgress(visit, 0, edges, maxDepth) && depth == visit.depth <= MAX_DEPTH
      requires schema == visit.schema && pointer == visit.pointer
      modifies this
      ensures r.Some? ==> InProgress(visit, if Has(schema, Ref) then 1 else 0, edges + EdgesAt(schema, Ref), r.value)
      ensures r.Some? && Has(schema, Ref) ==>
                Target(root, schema, Single(Ref)).Some?
                && VerdictIs(root, policy, Target(root, schema, Single(Ref)).value, mode)
      ensures Complete() ==> r.Some?
      decreases MAX_DEPTH + 1 - depth, 1
    {
      hide Prove, NodeFacts, NodeState, VerdictIs, Reach, EdgesAt;
      mode := Open;
      RefEdges(schema);
      if !Has(schema, Ref) {
        assert edges + EdgesAt(schema, Ref) == edges;
        return Some(maxDepth), mode;
      }
      RoomForRef(root, policy, visit, memo, operations, edges, maxDepth);
      var ok := ConsumeOperation();
      if !ok {
        return None, mode;
      }
      var resolved := ResolveReference(root, schema[Text(Ref)].s);
      if resolved.None? {
        return None, mode;
      }
      RefCharged(root, policy, visit, memo, operations, edges, maxDepth);
      var result, newMax := ValidateChild(visit, 1, edges, Single(Ref), resolved.value.value,
                                          resolved.value.pointer, depth, maxDepth);
      if result.None? {
        return None, mode;
      }
      return Some(newMax), result.value.mode;
    }

    method CombineModes(schema: Schema, refMode: Admission, modes: Keyword -> seq<Admission>) returns (mode: Admission)
      ensures mode == CombinedMode(schema, refMode, modes)
    {
      mode := BaseMode(schema);
      if "const" in schema {
        mode := Intersect(mode, AdmissionForLiteral(schema["const"]));
      }
      if "enum" in schema && schema["enum"].Arr? {
        var enumMode := UnionAll(LiteralModes(schema["enum"].items));
        mode := Intersect(mode, enumMode);
      }
      if Has(schema, Ref) {
        mode := Intersect(mode, refMode);
      }
      if Has(schema, AllOf) {
        var allMode := IntersectAll(modes(AllOf));
        mode := Intersect(mode, allMode);
      }
      if Has(schema, AnyOf) {
        var unionMode := UnionAll(modes(AnyOf));
        mode := Intersect(mode, unionMode);
      }
      if Has(schema, OneOf) {
        var unionMode := UnionAll(modes(OneOf));
        mode := Intersect(mode, unionMode);
      }
    }

    static method IntersectAll(modes: seq<Admission>) returns (mode: Admission)
      ensures mode == FoldIntersect(modes)
    {
      mode := Open;
      var i := 0;
      while i < |modes|
        invariant 0 <= i <= |modes| && mode == FoldIntersect(modes[..i])
      {
        assert modes[..i + 1][..i] == modes[..i];
        mode := Intersect(mode, modes[i]);
        i := i + 1;
      }
      assert modes[..i] == modes;
    }

    static method UnionAll(modes: seq<Admission>) returns (mode: Admission)
      ensures mode == FoldUnion(modes)
    {
      mode := Excluded;
      var i := 0;
      while i < |modes|
        invariant 0 <= i <= |modes| && mode == FoldUnion(modes[..i])
      {
        assert modes[..i + 1][..i] == modes[..i];
        mode := Union(mode, modes[i]);
        i := i + 1;
      }
      assert modes[..i] == modes;
    }

    /** Bounds the finite literal of an exact object const, one operation a node. */
    method ValidateExactObjectConst(value: Json, depth: nat, ghost within: nat) returns (r: Option<nat>)
      requires operations <= MAX_OPERATIONS
      modifies this`operations
      ensures r.Some? ==> operations == old(operations) + LiteralNodes(value) && operations <= MAX_OPERATIONS
      ensures r.Some? ==> LiteralDepth(value, r.value)
      ensures (LiteralWithin(value, within) && depth + within <= MAX_DEPTH
               && old(operations) + LiteralNodes(value) <= MAX_OPERATIONS) ==> r.Some?
      decreases value, 1
    {
      hide LiteralNodes;
      LiteralNodesUnfold(value);
      if depth > MAX_DEPTH {
        return None;
      }
      var ok := ConsumeOperation();
      if !ok {
        return None;
      }
      match value {
        case Obj(members) => r := ValidateLiteralMembers(value, members, depth, within);
        case Arr(items) => r := ValidateLiteralItems(value, items, depth, within);
        case _ => return Some(0);
      }
    }

    method ValidateLiteralMembers(ghost value: Json, members: map<string, Json>, depth: nat, ghost within: nat) returns (r: Option<nat>)
      requires value == Obj(members) && depth <= MAX_DEPTH && operations <= MAX_OPERATIONS
      modifies this`operations
      ensures r.Some? ==> operations == old(operations) + Sum(members.Keys, MemberNodes(members)) && operations <= MAX_OPERATIONS
      ensures r.Some? ==> LiteralDepth(value, r.value)
      ensures (LiteralWithin(value, within) && depth + within <= MAX_DEPTH
               && old(operations) + Sum(members.Keys, MemberNodes(members)) <= MAX_OPERATIONS) ==> r.Some?
      decreases value, 0
    {
      hide LiteralNodes, MemberNodes;
      var remaining := members.Keys;
      var maxDepth := 0;
      while remaining != {}
        invariant remaining <= members.Keys
        invariant operations <= MAX_OPERATIONS
        invariant operations == old(operations) + Sum(members.Keys - remaining, MemberNodes(members))
        invariant MembersWithin(members, members.Keys - remaining, maxDepth)
      {
        var name :| name in remaining;
        LiteralMemberBudget(members, remaining, name);
        var childDepth := ValidateExactObjectConst(members[name], depth + 1, Below(within));
        if childDepth.None? {
          return None;
        }
        LiteralMemberDeepens(members, members.Keys - remaining, name, maxDepth, childDepth.value);
        assert members.Keys - remaining + {name} == members.Keys - (remaining - {name});
        if childDepth.value + 1 > maxDepth {
          maxDepth := childDepth.value + 1;
        }
        remaining := remaining - {name};
      }
      assert members.Keys - remaining == members.Keys;
      return Some(maxDepth);
    }

    method ValidateLiteralItems(ghost value: Json, items: seq<Json>, depth: nat, ghost within: nat) returns (r: Option<nat>)
      requires value == Arr(items) && depth <= MAX_DEPTH && operations <= MAX_OPERATIONS
      modifies this`operations
      ensures r.Some? ==> operations == old(operations) + Sum(Indices(|items|), ItemNodes(items)) && operations <= MAX_OPERATIONS
      ensures r.Some? ==> LiteralDepth(value, r.value)
      ensures (LiteralWithin(value, within) && depth + within <= MAX_DEPTH
               && old(operations) + Sum(Indices(|items|), ItemNodes(items)) <= MAX_OPERATIONS) ==> r.Some?
      decreases value, 0
    {
      hide LiteralNodes, ItemNodes;
      var index, maxDepth := 0, 0;
      while index < |items|
        invariant 0 <= index <= |items|
        invariant operations <= MAX_OPERATIONS
        invariant operations == old(operations) + Sum(Indices(index), ItemNodes(items))
        invariant ItemsWithin(items, index, maxDepth)
      {
        LiteralItemBudget(items, index);
        var childDepth := ValidateExactObjectConst(items[index], depth + 1, Below(within));
        if childDepth.None? {
          return None;
        }
        LiteralItemDeepens(items, index, maxDepth, childDepth.value);
        if childDepth.value + 1 > maxDepth {
          maxDepth := childDepth.value + 1;
        }
        index := index + 1;
      }
      ItemsDepth(items, maxDepth);
      return Some(maxDepth);
    }
  }

  /** The closure proof of a whole schema. Its verdict is that of the unmemoised
      proof together with the operation budget over the pointers it reaches, so
      it does not depend on the order in which map children are visited. */
  method ProveClosure(root: Json, policy: Policy) returns (r: Option<ProofResult>, operations: nat)
    ensures r.Some? <==> Accepting(root, policy) && Operations(root) <= 4096
    ensures r.Some? ==> ResultRight(root, policy, root, r.value) && r.value.maxDepth <= 64
    ensures r.Some? ==> operations == Operations(root)
  {
    hide Prove, Reach, MemoSound, ResultRight;
    var validator := new PortableSchemaValidator(root, policy);
    RootAddressed(root);
    assert MemoSound(root, policy, map[]) by { EmptyMemoSound(root, policy); }
    RootGuided(root, policy);
    r := validator.Validate(root, "#", 0, MAX_DEPTH);
    operations := validator.operations;
    if r.Some? {
      ResultAccepts(root, policy, r.value);
      forall q | q in Everywhere(root) ensures q in validator.memo {
        ReachVisited(root, policy, validator.memo, root, "#", MAX_DEPTH, q);
      }
      assert validator.memo.Keys == Everywhere(root);
      assert validator.memo.Keys - {} == validator.memo.Keys;
    }
  }
}
