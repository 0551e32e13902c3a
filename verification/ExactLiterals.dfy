/** The nodes and the depth of a finite literal, as the walk of an exact object
    const counts them one member or item at a time. */
module ExactLiterals {
  import opened JsonModel
  import opened FiniteSums
  import opened Closure

  /** The walk of a literal has a definite depth, like the rank of a node. */
  ghost predicate LiteralDepth(v: Json, d: nat)
  {
    LiteralWithin(v, d) && (d == 0 || !LiteralWithin(v, d - 1))
  }

  ghost function MemberNodes(members: map<string, Json>): string -> nat
  {
    k => if k in members then LiteralNodes(members[k]) else 0
  }

  ghost function ItemNodes(items: seq<Json>): nat -> nat
  {
    i => if 0 <= i < |items| then LiteralNodes(items[i]) else 0
  }

  lemma LiteralNodesUnfold(v: Json)
    ensures v.Arr? ==> LiteralNodes(v) == 1 + Sum(Indices(|v.items|), ItemNodes(v.items))
    ensures v.Obj? ==> LiteralNodes(v) == 1 + Sum(v.members.Keys, MemberNodes(v.members))
    ensures !v.Arr? && !v.Obj? ==> LiteralNodes(v) == 1
  {
    match v
    case Arr(items) =>
      SumCongruent(Indices(|items|), i => if 0 <= i < |items| then LiteralNodes(items[i]) else 0, ItemNodes(items));
    case Obj(members) =>
      SumCongruent(members.Keys, k => if k in members then LiteralNodes(members[k]) else 0, MemberNodes(members));
    case _ =>
  }

  function Deeper(maxDepth: nat, childDepth: nat): nat
  {
    if childDepth + 1 > maxDepth then childDepth + 1 else maxDepth
  }

  lemma LiteralMemberBudget(members: map<string, Json>, remaining: set<string>, name: string)
    requires remaining <= members.Keys && name in remaining
    ensures Sum(members.Keys - (remaining - {name}), MemberNodes(members)) ==
            Sum(members.Keys - remaining, MemberNodes(members)) + LiteralNodes(members[name])
    ensures Sum(members.Keys - (remaining - {name}), MemberNodes(members)) <= Sum(members.Keys, MemberNodes(members))
  {
    hide LiteralNodes;
    SumInsert(members.Keys - remaining, MemberNodes(members), name);
    assert members.Keys - remaining + {name} == members.Keys - (remaining - {name});
    SumMonotone(members.Keys - (remaining - {name}), members.Keys, MemberNodes(members), MemberNodes(members));
  }

  /** The members named in `done` fit below depth `maxDepth`, one of them tightly. */
  ghost predicate MembersWithin(members: map<string, Json>, done: set<string>, maxDepth: nat)
  {
    && (forall k | k in done :: k in members && maxDepth > 0 && LiteralWithin(members[k], maxDepth - 1))
    && (maxDepth > 0 ==> exists k | k in done :: k in members && LiteralDepth(members[k], maxDepth - 1))
  }

  lemma LiteralMemberDeepens(members: map<string, Json>, done: set<string>, name: string, maxDepth: nat, childDepth: nat)
    requires name in members && LiteralDepth(members[name], childDepth)
    requires MembersWithin(members, done, maxDepth)
    ensures MembersWithin(members, done + {name}, Deeper(maxDepth, childDepth))
  {
    hide LiteralWithin;
    var d := Deeper(maxDepth, childDepth);
    forall k | k in done + {name} ensures LiteralWithin(members[k], d - 1) {
      if k == name {
        LiteralWithinMonotone(members[k], childDepth, d - 1);
      }
      if k in done {
        LiteralWithinMonotone(members[k], maxDepth - 1, d - 1);
      }
    }
    if d == childDepth + 1 {
      assert name in done + {name} && LiteralDepth(members[name], d - 1);
    } else {
      var k :| k in done && k in members && LiteralDepth(members[k], maxDepth - 1);
      assert k in done + {name};
    }
  }

  lemma LiteralItemBudget(items: seq<Json>, index: nat)
    requires index < |items|
    ensures Sum(Indices(index + 1), ItemNodes(items)) == Sum(Indices(index), ItemNodes(items)) + LiteralNodes(items[index])
    ensures Sum(Indices(index + 1), ItemNodes(items)) <= Sum(Indices(|items|), ItemNodes(items))
  {
    hide LiteralNodes;
    SumInsert(Indices(index), ItemNodes(items), index);
    SumMonotone(Indices(index + 1), Indices(|items|), ItemNodes(items), ItemNodes(items));
  }

  ghost predicate ItemsWithin(items: seq<Json>, index: nat, maxDepth: nat)
    requires index <= |items|
  {
    && (index > 0 ==> maxDepth > 0)
    && (forall i | 0 <= i < index :: LiteralWithin(items[i], maxDepth - 1))
    && (maxDepth > 0 ==> exists i | 0 <= i < index :: LiteralDepth(items[i], maxDepth - 1))
  }

  lemma LiteralItemDeepens(items: seq<Json>, index: nat, maxDepth: nat, childDepth: nat)
    requires index < |items| && LiteralDepth(items[index], childDepth)
    requires ItemsWithin(items, index, maxDepth)
    ensures ItemsWithin(items, index + 1, Deeper(maxDepth, childDepth))
  {
    hide LiteralWithin;
    var d := Deeper(maxDepth, childDepth);
    forall i | 0 <= i < index + 1 ensures LiteralWithin(items[i], d - 1) {
      if i == index {
        LiteralWithinMonotone(items[i], childDepth, d - 1);
      } else {
        LiteralWithinMonotone(items[i], maxDepth - 1, d - 1);
      }
    }
    if d == childDepth + 1 {
      assert LiteralDepth(items[index], d - 1);
    } else {
      var i :| 0 <= i < index && LiteralDepth(items[i], maxDepth - 1);
      assert LiteralDepth(items[i], d - 1);
    }
  }

  lemma ItemWithin(items: seq<Json>, i: nat, d: nat)
    requires i < |items| && LiteralWithin(Arr(items), d)
    ensures d > 0 && LiteralWithin(items[i], d - 1)
  {
    assert items[i] == Arr(items).items[i];
  }

  lemma ItemsDepth(items: seq<Json>, maxDepth: nat)
    requires ItemsWithin(items, |items|, maxDepth)
    ensures LiteralDepth(Arr(items), maxDepth)
  {
    assert LiteralWithin(Arr(items), maxDepth) by {
      forall i | 0 <= i < |items| ensures maxDepth > 0 && LiteralWithin(items[i], maxDepth - 1) {
      }
    }
    if maxDepth > 0 {
      var i :| 0 <= i < |items| && LiteralDepth(items[i], maxDepth - 1);
      var less: nat := maxDepth - 1;
      if LiteralWithin(Arr(items), less) {
        ItemWithin(items, i, less);
      }
    }
  }
}
