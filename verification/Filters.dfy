/** What it means to keep some entries of a sequence: all of those and no others, each once, in order. */
module Filters {

  /** `picked` is what `all` holds at the places `at`, which ascend and are exactly those to keep. */
  ghost predicate Picks<T>(all: seq<T>, picked: seq<T>, keep: T -> bool, at: seq<nat>) {
    && |at| == |picked|
    && (forall i, j :: 0 <= i < j < |at| ==> at[i] < at[j])
    && (forall i :: 0 <= i < |at| ==> at[i] < |all| && picked[i] == all[at[i]])
    && (forall k :: 0 <= k < |all| ==> (k in at <==> keep(all[k])))
  }

  ghost predicate Keeps<T>(all: seq<T>, picked: seq<T>, keep: T -> bool) {
    exists at :: Picks(all, picked, keep, at)
  }

  lemma KeepsNone<T>(keep: T -> bool)
    ensures Keeps<T>([], [], keep)
  {
    var none: seq<nat> := [];
    assert Picks<T>([], [], keep, none);
  }

  lemma KeepsNext<T>(all: seq<T>, picked: seq<T>, keep: T -> bool, x: T)
    requires Keeps(all, picked, keep)
    ensures Keeps(all + [x], if keep(x) then picked + [x] else picked, keep)
  {
    var at :| Picks(all, picked, keep, at);
    if keep(x) {
      PicksLast(all, picked, keep, at, x);
    } else {
      PicksNotLast(all, picked, keep, at, x);
    }
  }

  lemma PicksLast<T>(all: seq<T>, picked: seq<T>, keep: T -> bool, at: seq<nat>, x: T)
    requires Picks(all, picked, keep, at) && keep(x)
    ensures Picks(all + [x], picked + [x], keep, at + [|all|])
  {
    var more, after := all + [x], at + [|all|];
    forall k | 0 <= k < |more| ensures k in after <==> keep(more[k]) {
      if k < |all| {
        assert more[k] == all[k];
      }
    }
  }

  lemma PicksNotLast<T>(all: seq<T>, picked: seq<T>, keep: T -> bool, at: seq<nat>, x: T)
    requires Picks(all, picked, keep, at) && !keep(x)
    ensures Picks(all + [x], picked, keep, at)
  {
    var more := all + [x];
    forall k | 0 <= k < |more| ensures k in at <==> keep(more[k]) {
      if k < |all| {
        assert more[k] == all[k];
      }
    }
  }

  function Moved(at: seq<nat>): (r: seq<nat>)
    ensures |r| == |at| && forall i :: 0 <= i < |at| ==> r[i] == at[i] + 1
  {
    seq(|at|, i requires 0 <= i < |at| => at[i] + 1)
  }

  lemma InMoved(at: seq<nat>, k: nat)
    ensures k in Moved(at) <==> k > 0 && k - 1 in at
  {
    if k in Moved(at) {
      var i :| 0 <= i < |at| && Moved(at)[i] == k;
      assert at[i] == k - 1;
    }
    if k > 0 && k - 1 in at {
      var i :| 0 <= i < |at| && at[i] == k - 1;
      assert Moved(at)[i] == k;
    }
  }

  lemma KeepsFirst<T>(x: T, all: seq<T>, picked: seq<T>, keep: T -> bool)
    requires Keeps(all, picked, keep)
    ensures Keeps([x] + all, if keep(x) then [x] + picked else picked, keep)
  {
    var at :| Picks(all, picked, keep, at);
    if keep(x) {
      PicksFirst(x, all, picked, keep, at);
    } else {
      PicksNotFirst(x, all, picked, keep, at);
    }
  }

  lemma PicksFirst<T>(x: T, all: seq<T>, picked: seq<T>, keep: T -> bool, at: seq<nat>)
    requires Picks(all, picked, keep, at) && keep(x)
    ensures Picks([x] + all, [x] + picked, keep, [0] + Moved(at))
  {
    hide Moved;
    var more, after := [x] + all, [0] + Moved(at);
    forall k | 0 <= k < |more| ensures k in after <==> keep(more[k]) {
      InMoved(at, k);
      if k > 0 {
        assert more[k] == all[k - 1];
      }
    }
  }

  lemma PicksNotFirst<T>(x: T, all: seq<T>, picked: seq<T>, keep: T -> bool, at: seq<nat>)
    requires Picks(all, picked, keep, at) && !keep(x)
    ensures Picks([x] + all, picked, keep, Moved(at))
  {
    hide Moved;
    var more := [x] + all;
    forall k | 0 <= k < |more| ensures k in Moved(at) <==> keep(more[k]) {
      InMoved(at, k);
      if k > 0 {
        assert more[k] == all[k - 1];
      }
    }
  }

  /** There is only one way to keep some entries. */
  lemma {:induction false} KeepsOneWay<T>(all: seq<T>, p: seq<T>, q: seq<T>, keep: T -> bool)
    requires Keeps(all, p, keep) && Keeps(all, q, keep)
    ensures p == q
  {
    var a :| Picks(all, p, keep, a);
    var b :| Picks(all, q, keep, b);
    SamePlaces(a, b);
  }

  ghost predicate Climbs(at: seq<nat>) {
    forall i, j :: 0 <= i < j < |at| ==> at[i] < at[j]
  }

  lemma {:induction false} SamePlaces(a: seq<nat>, b: seq<nat>)
    requires Climbs(a) && Climbs(b) && forall k :: k in a <==> k in b
    ensures a == b
  {
    assert a == [] <==> b == [] by {
      if a != [] {
        assert a[0] in a;
      }
      if b != [] {
        assert b[0] in b;
      }
    }
    if a != [] {
      var m, n := |a| - 1, |b| - 1;
      assert a[m] in b && b[n] in a;
      assert a[m] == b[n];
      forall k ensures k in a[..m] <==> k in b[..n] {
        assert k in a[..m] <==> k in a && k != a[m];
        assert k in b[..n] <==> k in b && k != b[n];
      }
      SamePlaces(a[..m], b[..n]);
    }
  }
}
