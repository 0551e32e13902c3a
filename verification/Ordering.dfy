/** Strict orders, lexicographic comparison and sorting. Every order the snapshot
    compiler puts on its output is a lexicographic comparison of strings, and a
    sorted permutation under such an order is unique, so it cannot show the order
    in which the input came or in which a map was read. */
module Ordering {

  /** `less` is irreflexive, transitive and total on the members of `s`. */
  ghost predicate Orders<T(!new)>(less: (T, T) -> bool, s: set<T>)
  {
    && (forall x | x in s :: !less(x, x))
    && (forall x, y | x in s && y in s :: x == y || less(x, y) || less(y, x))
    && (forall x, y, z | x in s && y in s && z in s && less(x, y) && less(y, z) :: less(x, z))
  }

  ghost predicate OrdersAll<T(!new)>(less: (T, T) -> bool)
  {
    forall s: set<T> :: Orders(less, s)
  }

  // ---------- lexicographic comparison ----------

  function LexLess<T(==)>(less: (T, T) -> bool, a: seq<T>, b: seq<T>): bool
  {
    if b == [] then false
    else if a == [] then true
    else if a[0] != b[0] then less(a[0], b[0])
    else LexLess(less, a[1..], b[1..])
  }

  lemma {:induction false} LexLaws<T(!new)>(less: (T, T) -> bool, a: seq<T>, b: seq<T>, c: seq<T>, s: set<T>)
    requires Orders(less, s)
    requires (forall x | x in a :: x in s) && (forall x | x in b :: x in s) && (forall x | x in c :: x in s)
    ensures !LexLess(less, a, a)
    ensures a == b || LexLess(less, a, b) || LexLess(less, b, a)
    ensures LexLess(less, a, b) && LexLess(less, b, c) ==> LexLess(less, a, c)
    decreases |a| + |b| + |c|
  {
    var a', b', c' := Rest(a), Rest(b), Rest(c);
    if a != [] || b != [] || c != [] {
      assert a != [] ==> a == [a[0]] + a';
      assert b != [] ==> b == [b[0]] + b';
      LexLaws(less, a', b', c', s);
    }
  }

  function Rest<T>(a: seq<T>): seq<T>
  {
    if a == [] then [] else a[1..]
  }

  lemma LexOrders<T(!new)>(less: (T, T) -> bool, lists: set<seq<T>>)
    requires OrdersAll(less)
    ensures Orders((a: seq<T>, b: seq<T>) => LexLess(less, a, b), lists)
  {
    forall a, b, c | a in lists && b in lists && c in lists
      ensures !LexLess(less, a, a)
      ensures a == b || LexLess(less, a, b) || LexLess(less, b, a)
      ensures LexLess(less, a, b) && LexLess(less, b, c) ==> LexLess(less, a, c)
    {
      var s := (set x | x in a) + (set x | x in b) + (set x | x in c);
      assert Orders(less, s);
      LexLaws(less, a, b, c, s);
    }
  }

  function CharLess(a: char, b: char): bool
  {
    a < b
  }

  /** How strings compare: byte by byte, a prefix first. */
  function BytesLess(a: string, b: string): bool
  {
    LexLess(CharLess, a, b)
  }

  /** How records of strings compare: by their first differing field. */
  function FieldsLess(a: seq<string>, b: seq<string>): bool
  {
    LexLess(BytesLess, a, b)
  }

  lemma BytesOrder()
    ensures OrdersAll(BytesLess)
  {
    assert OrdersAll(CharLess);
    forall s: set<string> ensures Orders(BytesLess, s) {
      LexOrders(CharLess, s);
    }
  }

  lemma FieldsOrder()
    ensures OrdersAll(FieldsLess)
  {
    BytesOrder();
    forall s: set<seq<string>> ensures Orders(FieldsLess, s) {
      LexOrders(BytesLess, s);
    }
  }

  // ---------- sorting ----------

  ghost predicate Sorted<T>(less: (T, T) -> bool, ys: seq<T>)
  {
    forall i, j | 0 <= i < j < |ys| :: !less(ys[j], ys[i])
  }

  function Insert<T>(less: (T, T) -> bool, x: T, ys: seq<T>): seq<T>
  {
    if ys == [] || less(x, ys[0]) then [x] + ys else [ys[0]] + Insert(less, x, ys[1..])
  }

  function Sort<T>(less: (T, T) -> bool, xs: seq<T>): seq<T>
  {
    if xs == [] then [] else Insert(less, xs[0], Sort(less, xs[1..]))
  }

  lemma {:induction false} InsertPermutes<T>(less: (T, T) -> bool, x: T, ys: seq<T>)
    ensures multiset(Insert(less, x, ys)) == multiset{x} + multiset(ys)
  {
    if !(ys == [] || less(x, ys[0])) {
      InsertPermutes(less, x, ys[1..]);
      assert ys == [ys[0]] + ys[1..];
    }
  }

  /** Whatever the comparison is, sorting loses and repeats nothing. */
  lemma {:induction false} SortPermutes<T>(less: (T, T) -> bool, xs: seq<T>)
    ensures multiset(Sort(less, xs)) == multiset(xs)
  {
    if xs != [] {
      SortPermutes(less, xs[1..]);
      InsertPermutes(less, xs[0], Sort(less, xs[1..]));
      assert xs == [xs[0]] + xs[1..];
    }
  }

  lemma {:induction false} InsertSorts<T(!new)>(less: (T, T) -> bool, x: T, ys: seq<T>, s: set<T>)
    requires Orders(less, s) && x in s && forall y | y in ys :: y in s
    requires Sorted(less, ys)
    ensures Sorted(less, Insert(less, x, ys))
  {
    if ys == [] {
    } else if less(x, ys[0]) {
      var all := [x] + ys;
      forall i, j | 0 <= i < j < |all| ensures !less(all[j], all[i]) {
        assert all[j] == ys[j - 1] && ys[j - 1] in s && ys[0] in s;
        if i == 0 {
          assert j - 1 == 0 || !less(ys[j - 1], ys[0]);
        } else {
          assert all[i] == ys[i - 1];
        }
      }
    } else {
      assert Sorted(less, ys[1..]) by {
        forall i, j | 0 <= i < j < |ys[1..]| ensures !less(ys[1..][j], ys[1..][i]) {
          assert ys[1..][j] == ys[j + 1] && ys[1..][i] == ys[i + 1];
        }
      }
      InsertSorts(less, x, ys[1..], s);
      InsertPermutes(less, x, ys[1..]);
      var tail := Insert(less, x, ys[1..]);
      forall j | 0 <= j < |tail| ensures !less(tail[j], ys[0]) {
        assert tail[j] in multiset{x} + multiset(ys[1..]);
        if tail[j] != x {
          assert tail[j] in ys[1..];
          var k :| 0 <= k < |ys[1..]| && ys[1..][k] == tail[j];
          assert ys[k + 1] == tail[j];
        }
      }
    }
  }

  lemma {:induction false} SortSorts<T(!new)>(less: (T, T) -> bool, xs: seq<T>, s: set<T>)
    requires Orders(less, s) && forall x | x in xs :: x in s
    ensures Sorted(less, Sort(less, xs))
  {
    if xs != [] {
      SortSorts(less, xs[1..], s);
      SortPermutes(less, xs[1..]);
      forall y | y in Sort(less, xs[1..]) ensures y in s {
        assert y in multiset(xs[1..]);
        assert y in xs[1..];
      }
      InsertSorts(less, xs[0], Sort(less, xs[1..]), s);
    }
  }

  /** Two sorted arrangements of the same elements are the same sequence. */
  lemma {:induction false} SortedIsUnique<T(!new)>(less: (T, T) -> bool, a: seq<T>, b: seq<T>, s: set<T>)
    requires Orders(less, s) && (forall x | x in a :: x in s)
    requires multiset(a) == multiset(b) && Sorted(less, a) && Sorted(less, b)
    ensures a == b
  {
    hide Orders, Sorted;
    SameLength(a, b);
    if a != [] {
      LeastFirst(less, a, b, s);
      SortedTail(less, a);
      SortedTail(less, b);
      SameTails(a, b);
      SortedIsUnique(less, a[1..], b[1..], s);
      assert a == [a[0]] + a[1..] && b == [b[0]] + b[1..];
    }
  }

  lemma SameTails<T>(a: seq<T>, b: seq<T>)
    requires multiset(a) == multiset(b) && a != [] && b != [] && a[0] == b[0]
    ensures multiset(a[1..]) == multiset(b[1..])
  {
    assert a == [a[0]] + a[1..] && b == [b[0]] + b[1..];
    assert multiset(a[1..]) == multiset(a) - multiset{a[0]} == multiset(b[1..]);
  }

  lemma SameLength<T>(a: seq<T>, b: seq<T>)
    requires multiset(a) == multiset(b)
    ensures |a| == |b|
  {
    assert |multiset(a)| == |multiset(b)|;
  }

  lemma SortedTail<T(!new)>(less: (T, T) -> bool, a: seq<T>)
    requires a != [] && Sorted(less, a)
    ensures Sorted(less, a[1..])
  {
    forall i, j | 0 <= i < j < |a[1..]| ensures !less(a[1..][j], a[1..][i]) {
      assert a[1..][j] == a[j + 1] && a[1..][i] == a[i + 1];
    }
  }

  lemma LeastFirst<T(!new)>(less: (T, T) -> bool, a: seq<T>, b: seq<T>, s: set<T>)
    requires Orders(less, s) && (forall x | x in a :: x in s)
    requires multiset(a) == multiset(b) && Sorted(less, a) && Sorted(less, b) && a != [] && b != []
    ensures a[0] == b[0]
  {
    assert a[0] in multiset(b) && b[0] in multiset(a);
    var i :| 0 <= i < |b| && b[i] == a[0];
    var j :| 0 <= j < |a| && a[j] == b[0];
    assert i == 0 || !less(b[i], b[0]);
    assert j == 0 || !less(a[j], a[0]);
  }

  /** The outcome of a sort is fixed by what is sorted, not by how it came. */
  lemma SortIsUnique<T(!new)>(less: (T, T) -> bool, xs: seq<T>, ys: seq<T>, s: set<T>)
    requires Orders(less, s) && (forall x | x in xs :: x in s)
    requires multiset(xs) == multiset(ys)
    ensures Sort(less, xs) == Sort(less, ys)
  {
    forall y | y in ys ensures y in s {
      assert y in multiset(ys);
      assert y in multiset(xs);
    }
    SortPermutes(less, xs);
    SortPermutes(less, ys);
    SortSorts(less, xs, s);
    SortSorts(less, ys, s);
    forall x | x in Sort(less, xs) ensures x in s {
      assert x in multiset(Sort(less, xs));
      assert x in multiset(xs);
    }
    SortedIsUnique(less, Sort(less, xs), Sort(less, ys), s);
  }

  // ---------- listing a set ----------

  /** `xs` lists every member of `s` once, in some order. */
  ghost predicate Lists<T>(xs: seq<T>, s: set<T>)
  {
    multiset(xs) == multiset(s)
  }

  ghost function Listing<T(!new)>(s: set<T>): (xs: seq<T>)
    ensures Lists(xs, s)
  {
    if s == {} then []
    else
      var x :| x in s;
      [x] + Listing(s - {x})
  }

  /** The sorted listing of a set. */
  ghost function Ordered<T(!new)>(less: (T, T) -> bool, s: set<T>): (xs: seq<T>)
    ensures Lists(xs, s)
  {
    SortPermutes(less, Listing(s));
    Sort(less, Listing(s))
  }

  lemma ListsMeaning<T(!new)>(xs: seq<T>, s: set<T>)
    requires Lists(xs, s)
    ensures forall x :: x in xs <==> x in s
    ensures forall i, j | 0 <= i < j < |xs| :: xs[i] != xs[j]
  {
    forall x ensures x in xs <==> x in s {
      assert x in multiset(xs) <==> x in multiset(s);
    }
    forall i, j | 0 <= i < j < |xs| ensures xs[i] != xs[j] {
      var x := xs[j];
      assert xs == xs[..j] + [x] + xs[j + 1..];
      assert multiset(xs) == multiset(xs[..j]) + multiset{x} + multiset(xs[j + 1..]);
      assert multiset(s)[x] <= 1;
      assert x !in xs[..j];
      assert xs[i] in xs[..j];
    }
  }

  /** Sorting any listing of a set gives its sorted listing. */
  lemma ListingOrderIrrelevant<T(!new)>(less: (T, T) -> bool, xs: seq<T>, s: set<T>)
    requires Orders(less, s) && Lists(xs, s)
    ensures Sort(less, xs) == Ordered(less, s)
  {
    ListsMeaning(xs, s);
    SortIsUnique(less, xs, Listing(s), s);
  }

  method SortedListing<T(==,!new)>(less: (T, T) -> bool, s: set<T>) returns (keys: seq<T>)
    ensures Lists(keys, s)
    ensures Orders(less, s) ==> keys == Ordered(less, s)
  {
    keys := [];
    var unread := s;
    while unread != {}
      invariant unread <= s && Lists(keys, s - unread)
      decreases unread
    {
      var key :| key in unread;
      keys := keys + [key];
      assert s - (unread - {key}) == (s - unread) + {key};
      unread := unread - {key};
    }
    assert s - unread == s;
    SortPermutes(less, keys);
    if Orders(less, s) {
      ListingOrderIrrelevant(less, keys, s);
    }
    keys := Sort(less, keys);
  }

  // ---------- flattening ----------

  function FlatMap<A, B>(f: A -> seq<B>, xs: seq<A>): seq<B>
  {
    if xs == [] then [] else f(xs[0]) + FlatMap(f, xs[1..])
  }

  lemma {:induction false} FlatMapConcat<A, B>(f: A -> seq<B>, xs: seq<A>, ys: seq<A>)
    ensures FlatMap(f, xs + ys) == FlatMap(f, xs) + FlatMap(f, ys)
  {
    if xs == [] {
      assert xs + ys == ys;
    } else {
      FlatMapConcat(f, xs[1..], ys);
      assert (xs + ys)[1..] == xs[1..] + ys;
    }
  }

  lemma FlatMapSnoc<A, B>(f: A -> seq<B>, xs: seq<A>, i: nat)
    requires i < |xs|
    ensures FlatMap(f, xs[..i + 1]) == FlatMap(f, xs[..i]) + f(xs[i])
  {
    FlatMapConcat(f, xs[..i], [xs[i]]);
    assert xs[..i + 1] == xs[..i] + [xs[i]];
    assert FlatMap(f, [xs[i]][1..]) == [] && FlatMap(f, [xs[i]]) == f(xs[i]) + [];
  }

  lemma {:induction false} InFlatMap<A(!new), B>(f: A -> seq<B>, xs: seq<A>, y: B)
    ensures y in FlatMap(f, xs) <==> exists x :: x in xs && y in f(x)
  {
    if xs != [] {
      InFlatMap(f, xs[1..], y);
      assert xs == [xs[0]] + xs[1..];
    }
  }

  /** Permuting what is flattened permutes the outcome. */
  lemma {:induction false} FlatMapPermutes<A, B>(f: A -> seq<B>, xs: seq<A>, ys: seq<A>)
    requires multiset(xs) == multiset(ys)
    ensures multiset(FlatMap(f, xs)) == multiset(FlatMap(f, ys))
  {
    SameLength(xs, ys);
    if xs != [] {
      var k := TakeOut(xs, ys);
      FlatMapPermutes(f, xs[1..], ys[..k] + ys[k + 1..]);
      FlatMapWithout(f, ys, k);
    }
  }

  lemma TakeOut<A>(xs: seq<A>, ys: seq<A>) returns (k: nat)
    requires xs != [] && multiset(xs) == multiset(ys)
    ensures k < |ys| && ys[k] == xs[0]
    ensures multiset(xs[1..]) == multiset(ys[..k] + ys[k + 1..])
  {
    assert xs[0] in multiset(ys);
    k :| 0 <= k < |ys| && ys[k] == xs[0];
    assert xs == [xs[0]] + xs[1..];
    assert ys == ys[..k] + ([ys[k]] + ys[k + 1..]);
    assert multiset(xs[1..]) == multiset(xs) - multiset{xs[0]};
    assert multiset(ys[..k] + ys[k + 1..]) == multiset(ys) - multiset{ys[k]};
  }

  lemma FlatMapWithout<A, B>(f: A -> seq<B>, ys: seq<A>, k: nat)
    requires k < |ys|
    ensures multiset(FlatMap(f, ys)) == multiset(f(ys[k])) + multiset(FlatMap(f, ys[..k] + ys[k + 1..]))
  {
    var before, after := ys[..k], ys[k + 1..];
    assert ys == before + ([ys[k]] + after);
    FlatMapConcat(f, before, after);
    FlatMapConcat(f, before, [ys[k]] + after);
    assert ([ys[k]] + after)[1..] == after;
  }

  lemma {:induction false} FlatMapCongruent<A, B>(f: A -> seq<B>, g: A -> seq<B>, xs: seq<A>)
    requires forall x | x in xs :: f(x) == g(x)
    ensures FlatMap(f, xs) == FlatMap(g, xs)
  {
    if xs != [] {
      FlatMapCongruent(f, g, xs[1..]);
    }
  }
}
