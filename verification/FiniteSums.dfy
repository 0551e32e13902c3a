/** Sums of natural numbers over a finite set, in no particular order, and the
    saturating addition the work estimators use to compute them. */
module FiniteSums {

  ghost function Sum<T(!new)>(s: set<T>, f: T -> nat): nat
  {
    if s == {} then 0
    else
      var x :| x in s;
      f(x) + Sum(s - {x}, f)
  }

  /** Any element may be taken out first: the sum does not depend on the order. */
  lemma {:induction false} SumRemove<T(!new)>(s: set<T>, f: T -> nat, y: T)
    requires y in s
    ensures Sum(s, f) == f(y) + Sum(s - {y}, f)
    decreases s
  {
    var x :| x in s && Sum(s, f) == f(x) + Sum(s - {x}, f);
    if x != y {
      SumRemove(s - {x}, f, y);
      SumRemove(s - {y}, f, x);
      assert s - {x} - {y} == s - {y} - {x};
    }
  }

  lemma SumInsert<T(!new)>(s: set<T>, f: T -> nat, y: T)
    requires y !in s
    ensures Sum(s + {y}, f) == Sum(s, f) + f(y)
  {
    SumRemove(s + {y}, f, y);
    assert s + {y} - {y} == s;
  }

  lemma {:induction false} SumUnion<T(!new)>(s: set<T>, t: set<T>, f: T -> nat)
    requires s !! t
    ensures Sum(s + t, f) == Sum(s, f) + Sum(t, f)
    decreases t
  {
    if t == {} {
      assert s + t == s;
    } else {
      var y :| y in t;
      SumUnion(s, t - {y}, f);
      SumRemove(t, f, y);
      SumRemove(s + t, f, y);
      assert s + t - {y} == s + (t - {y});
    }
  }

  /** Monotone in both the set and the summand. */
  lemma {:induction false} SumMonotone<T(!new)>(s: set<T>, t: set<T>, f: T -> nat, g: T -> nat)
    requires s <= t
    requires forall x :: x in s ==> f(x) <= g(x)
    ensures Sum(s, f) <= Sum(t, g)
    decreases s
  {
    if s != {} {
      var x :| x in s;
      SumMonotone(s - {x}, t - {x}, f, g);
      SumRemove(s, f, x);
      SumRemove(t, g, x);
    }
  }

  lemma SumCongruent<T(!new)>(s: set<T>, f: T -> nat, g: T -> nat)
    requires forall x :: x in s ==> f(x) == g(x)
    ensures Sum(s, f) == Sum(s, g)
  {
    SumMonotone(s, s, f, g);
    SumMonotone(s, s, g, f);
  }

  function Indices(n: nat): (r: set<nat>)
    ensures forall i: nat :: i in r <==> i < n
  {
    if n == 0 then {} else Indices(n - 1) + {n - 1}
  }
}
