/** Finite sums over sets of keys, for ledgers and totals. */
module Sums {

  ghost function Sum<K(!new)>(s: set<K>, f: K -> nat): nat {
    if s == {} then 0 else var x :| x in s; f(x) + Sum(s - {x}, f)
  }

  lemma {:induction false} SumRemove<K(!new)>(s: set<K>, f: K -> nat, x: K)
    requires x in s
    ensures Sum(s, f) == f(x) + Sum(s - {x}, f)
  {
    var y :| y in s && Sum(s, f) == f(y) + Sum(s - {y}, f);
    if y != x {
      SumRemove(s - {y}, f, x);
      SumRemove(s - {x}, f, y);
      assert s - {y} - {x} == s - {x} - {y};
    }
  }

  lemma {:induction false} SumAgree<K(!new)>(s: set<K>, f: K -> nat, g: K -> nat)
    requires forall x :: x in s ==> f(x) == g(x)
    ensures Sum(s, f) == Sum(s, g)
  {
    if s != {} {
      var x :| x in s;
      SumRemove(s, f, x);
      SumRemove(s, g, x);
      SumAgree(s - {x}, f, g);
    }
  }

  /** Adding a fresh key adds its value. */
  lemma SumAdd<K(!new)>(s: set<K>, f: K -> nat, x: K)
    requires x !in s
    ensures Sum(s + {x}, f) == Sum(s, f) + f(x)
  {
    SumRemove(s + {x}, f, x);
    assert s + {x} - {x} == s;
  }

  /** Changing the summand at one key moves the sum by the difference. */
  lemma SumChange<K(!new)>(s: set<K>, f: K -> nat, g: K -> nat, x: K)
    requires x in s && forall y :: y in s && y != x ==> f(y) == g(y)
    ensures Sum(s, g) + f(x) == Sum(s, f) + g(x)
  {
    SumRemove(s, f, x);
    SumRemove(s, g, x);
    SumAgree(s - {x}, f, g);
  }

  lemma {:induction false} SumPart<K(!new)>(s: set<K>, f: K -> nat, x: K)
    requires x in s
    ensures f(x) <= Sum(s, f)
  {
    SumRemove(s, f, x);
  }
}
