/**
 Linear probing over a circular table, stated on sequences so that every table of the
 repository (pending positions, tick identities, palette slots) can share the theory.
 A slot holding the sentinel `e` is empty; `h` gives the home slot of a key. Index
 arithmetic `& (n - 1)` on a power-of-two table is arithmetic modulo `n`.
 */
module Probing {

  ghost predicate Bounded<K(!new)>(h: K -> nat, n: nat) {
    forall k: K :: h(k) < n
  }

  function Next(i: nat, n: nat): (r: nat)
    requires i < n
    ensures r < n
  {
    if i + 1 == n then 0 else i + 1
  }

  /** Steps from slot `a` forward to slot `b`. */
  function Dist(a: nat, b: nat, n: nat): (r: nat)
    requires a < n && b < n
    ensures r < n
    ensures r == 0 <==> a == b
  {
    if a <= b then b - a else b + n - a
  }

  /** Slot `j` is visited before slot `i` when probing from home `a`. */
  ghost predicate Before(a: nat, j: nat, i: nat, n: nat)
    requires a < n && j < n && i < n
  {
    Dist(a, j, n) < Dist(a, i, n)
  }

  /** Every probe path from a key's home to its slot is fully occupied. */
  ghost predicate Reachable<K(!new)>(s: seq<K>, e: K, h: K -> nat)
    requires Bounded(h, |s|)
  {
    forall i, j ::
      0 <= i < |s| && 0 <= j < |s| && s[i] != e && Before(h(s[i]), j, i, |s|) ==> s[j] != e
  }

  ghost predicate Unique<K>(s: seq<K>, e: K) {
    forall i, j :: 0 <= i < j < |s| && s[i] != e ==> s[i] != s[j]
  }

  ghost function Keys<K>(s: seq<K>, e: K): set<K> {
    set k | k in s && k != e
  }

  ghost predicate HasEmpty<K>(s: seq<K>, e: K) {
    exists c :: 0 <= c < |s| && s[c] == e
  }

  ghost predicate Table<K(!new)>(s: seq<K>, e: K, h: K -> nat) {
    && Bounded(h, |s|)
    && Reachable(s, e, h)
    && Unique(s, e)
    && HasEmpty(s, e)
  }

  /** All slots probed from home `a` before `i` hold keys other than `k`. */
  ghost predicate Passed<K>(s: seq<K>, e: K, k: K, a: nat, i: nat)
    requires a < |s| && i < |s|
  {
    forall j ::
      0 <= j < |s| && Before(a, j, i, |s|) ==> s[j] != e && s[j] != k
  }

  /** Probing that stops at an empty slot proves absence; stopping at the key proves presence. */
  lemma ProbeDecides<K(!new)>(s: seq<K>, e: K, h: K -> nat, k: K, i: nat)
    requires Table(s, e, h) && k != e && i < |s|
    requires Passed(s, e, k, h(k), i) && (s[i] == e || s[i] == k)
    ensures s[i] == k <==> k in Keys(s, e)
  {
    if k in Keys(s, e) {
      var p :| 0 <= p < |s| && s[p] == k;
    }
  }

  /** Storing an absent key in the first empty slot of its probe path keeps the table. */
  lemma StoreKeeps<K(!new)>(s: seq<K>, e: K, h: K -> nat, k: K, i: nat)
    requires Bounded(h, |s|) && Reachable(s, e, h) && Unique(s, e)
    requires k != e && i < |s| && s[i] == e && k !in Keys(s, e)
    requires Passed(s, e, k, h(k), i)
    ensures Reachable(s[i := k], e, h) && Unique(s[i := k], e)
    ensures Keys(s[i := k], e) == Keys(s, e) + {k}
  {
    var t := s[i := k];
    KeysOfStored(s, e, i, k);
    forall a, b | 0 <= a < |t| && 0 <= b < |t| && t[a] != e && Before(h(t[a]), b, a, |t|) ensures t[b] != e {
      if a == i {
        assert Before(h(k), b, i, |s|);
      }
    }
  }

  lemma KeysOfStored<K>(s: seq<K>, e: K, i: nat, k: K)
    requires i < |s| && s[i] == e && k != e
    ensures Keys(s[i := k], e) == Keys(s, e) + {k}
  {
    var t := s[i := k];
    forall x | x in s && x != e ensures x in t {
      var p :| 0 <= p < |s| && s[p] == x;
      assert t[p] == x;
    }
    forall x | x in t && x != k ensures x in s {
      var p :| 0 <= p < |t| && t[p] == x;
      assert s[p] == x;
    }
    assert t[i] == k;
    assert Keys(t, e) == Keys(s, e) + {k};
  }

  lemma KeysOfRemoved<K>(s: seq<K>, e: K, i: nat)
    requires i < |s| && s[i] != e && Unique(s, e)
    ensures Unique(s[i := e], e) && Keys(s[i := e], e) == Keys(s, e) - {s[i]}
  {
    var t := s[i := e];
    forall x | x in s && x != e && x != s[i] ensures x in t {
      var p :| 0 <= p < |s| && s[p] == x;
      assert t[p] == x;
    }
    forall x | x in t && x != e ensures x in s && x != s[i] {
      var p :| 0 <= p < |t| && t[p] == x;
      assert s[p] == x && p != i;
    }
    assert Keys(t, e) == Keys(s, e) - {s[i]};
  }

  lemma KeysOfMoved<K>(t: seq<K>, e: K, from: nat, to: nat)
    requires from < |t| && to < |t| && from != to && t[to] == e && t[from] != e && Unique(t, e)
    ensures var u := t[to := t[from]][from := e];
            Unique(u, e) && Keys(u, e) == Keys(t, e)
  {
    var u := t[to := t[from]][from := e];
    forall x | x in t && x != e ensures x in u {
      var p :| 0 <= p < |t| && t[p] == x;
      assert if p == from then u[to] == x else u[p] == x;
    }
    forall x | x in u && x != e ensures x in t {
      var p :| 0 <= p < |u| && u[p] == x;
      assert if p == to then t[from] == x else t[p] == x;
    }
    assert Keys(u, e) == Keys(t, e);
  }

  /** Unique keys fill no more slots than there are: fewer keys than slots leave one empty. */
  lemma FewKeysLeaveEmpty<K>(s: seq<K>, e: K)
    requires Unique(s, e) && |Keys(s, e)| < |s|
    ensures HasEmpty(s, e)
  {
    if !HasEmpty(s, e) {
      FullTableCount(s, e);
    }
  }

  lemma {:induction false} FullTableCount<K>(s: seq<K>, e: K)
    requires Unique(s, e) && forall i :: 0 <= i < |s| ==> s[i] != e
    ensures |Keys(s, e)| == |s|
  {
    if |s| > 0 {
      var init := s[..|s| - 1];
      FullTableCount(init, e);
      assert s == init + [s[|s| - 1]] && s[|s| - 1] !in init;
      assert Keys(s, e) == Keys(init, e) + {s[|s| - 1]};
    }
  }

  /** Appending one slot to a prefix of a table. */
  lemma KeysOfPrefix<K>(s: seq<K>, e: K, i: nat)
    requires i < |s| && Unique(s, e)
    ensures Keys(s[..i + 1], e) == Keys(s[..i], e) + (if s[i] == e then {} else {s[i]})
    ensures s[i] != e ==> s[i] !in Keys(s[..i], e)
  {
    assert s[..i + 1][..i] == s[..i];
  }

  /** Prepending one slot to a suffix of a table. */
  lemma KeysOfSuffix<K>(s: seq<K>, e: K, i: nat)
    requires i < |s| && Unique(s, e)
    ensures Keys(s[i..], e) == Keys(s[i + 1..], e) + (if s[i] == e then {} else {s[i]})
    ensures s[i] != e ==> s[i] !in Keys(s[i + 1..], e)
    ensures Keys(s[i..], e) <= Keys(s, e)
  {
    var a, b := s[i..], s[i + 1..];
    assert a == [s[i]] + b;
    assert forall k :: k in a <==> k == s[i] || k in b;
    assert s[i] != e ==> s[i] !in b;
    assert Keys(a, e) == Keys(b, e) + (if s[i] == e then {} else {s[i]});
  }

  lemma {:induction false} SubsetSize<T>(a: set<T>, b: set<T>)
    requires a <= b
    ensures |a| <= |b|
  {
    if a != {} {
      var x :| x in a;
      SubsetSize(a - {x}, b - {x});
    }
  }

  // ----- backward-shift deletion -----

  /** `hole` is being repaired; entries from `scan` on may still probe through it. */
  ghost predicate Repairing<K(!new)>(t: seq<K>, e: K, h: K -> nat, hole: nat, scan: nat)
    requires Bounded(h, |t|)
  {
    && hole < |t| && scan < |t| && hole != scan && t[hole] == e
    && (forall j ::
          0 <= j < |t| && j != hole && Before(hole, j, scan, |t|) ==> t[j] != e)
    && (forall i, j ::
          0 <= i < |t| && 0 <= j < |t| && t[i] != e && Before(h(t[i]), j, i, |t|) ==>
            t[j] != e || (j == hole && !Before(hole, i, scan, |t|)))
  }

  lemma RepairStart<K(!new)>(s: seq<K>, e: K, h: K -> nat, hole: nat)
    requires |s| > 1 && Bounded(h, |s|) && Reachable(s, e, h) && hole < |s|
    ensures Repairing(s[hole := e], e, h, hole, Next(hole, |s|))
  {
  }

  lemma RepairSkip<K(!new)>(t: seq<K>, e: K, h: K -> nat, hole: nat, scan: nat)
    requires Bounded(h, |t|) && Repairing(t, e, h, hole, scan)
    requires t[scan] != e && !Before(h(t[scan]), hole, scan, |t|) && Next(scan, |t|) != hole
    ensures Repairing(t, e, h, hole, Next(scan, |t|))
  {
  }

  lemma RepairMove<K(!new)>(t: seq<K>, e: K, h: K -> nat, hole: nat, scan: nat)
    requires Bounded(h, |t|) && Repairing(t, e, h, hole, scan)
    requires t[scan] != e && Before(h(t[scan]), hole, scan, |t|)
    ensures Repairing(t[hole := t[scan]][scan := e], e, h, scan, Next(scan, |t|))
  {
    var n := |t|;
    var u := t[hole := t[scan]][scan := e];
    forall i, j | 0 <= i < n && 0 <= j < n && u[i] != e && Before(h(u[i]), j, i, n)
      ensures u[j] != e || (j == scan && !Before(scan, i, Next(scan, n), n))
    {
      if i == hole {
        assert Before(h(t[scan]), j, scan, n);
      }
    }
  }

  lemma RepairDone<K(!new)>(t: seq<K>, e: K, h: K -> nat, hole: nat, scan: nat)
    requires Bounded(h, |t|) && Repairing(t, e, h, hole, scan) && t[scan] == e
    ensures Reachable(t, e, h)
  {
    forall i, j | 0 <= i < |t| && 0 <= j < |t| && t[i] != e && Before(h(t[i]), j, i, |t|)
      ensures t[j] != e
    {
      if t[j] == e {
        assert Before(h(t[i]), scan, i, |t|);
      }
    }
  }

  /** The loop state of backward-shift deletion; `c` is an empty slot the scan never passes. */
  ghost predicate Shifting<K(!new)>(t: seq<K>, e: K, h: K -> nat, keys: set<K>, start: nat, hole: nat, scan: nat, c: nat)
  {
    && Bounded(h, |t|)
    && start < |t| && hole < |t| && scan < |t| && c < |t| && t[c] == e
    && Repairing(t, e, h, hole, scan) && Unique(t, e) && Keys(t, e) == keys
    && Dist(start, hole, |t|) < Dist(start, scan, |t|) <= Dist(start, c, |t|)
  }

  lemma ShiftStart<K(!new)>(s: seq<K>, e: K, h: K -> nat, start: nat) returns (c: nat)
    requires Table(s, e, h) && start < |s| && s[start] != e
    ensures c < |s| && c != start
    ensures Shifting(s[start := e], e, h, Keys(s, e) - {s[start]}, start, start, Next(start, |s|), c)
  {
    c :| 0 <= c < |s| && s[c] == e;
    RepairStart(s, e, h, start);
    KeysOfRemoved(s, e, start);
  }

  lemma ShiftStep<K(!new)>(t: seq<K>, e: K, h: K -> nat, keys: set<K>, start: nat, hole: nat, scan: nat, c: nat)
    requires Shifting(t, e, h, keys, start, hole, scan, c) && t[scan] != e
    ensures if Before(h(t[scan]), hole, scan, |t|)
            then Shifting(t[hole := t[scan]][scan := e], e, h, keys, start, scan, Next(scan, |t|), c)
            else Shifting(t, e, h, keys, start, hole, Next(scan, |t|), c)
    ensures Dist(start, scan, |t|) < Dist(start, Next(scan, |t|), |t|)
  {
    if Before(h(t[scan]), hole, scan, |t|) {
      RepairMove(t, e, h, hole, scan);
      KeysOfMoved(t, e, scan, hole);
    } else {
      RepairSkip(t, e, h, hole, scan);
    }
  }

  lemma ShiftDone<K(!new)>(t: seq<K>, e: K, h: K -> nat, keys: set<K>, start: nat, hole: nat, scan: nat, c: nat)
    requires Shifting(t, e, h, keys, start, hole, scan, c) && t[scan] == e
    ensures Table(t, e, h) && Keys(t, e) == keys
  {
    RepairDone(t, e, h, hole, scan);
  }

  // ----- deletion by reinserting the following cluster -----

  /**
   Slots are linearised behind the empty slot `c`. Entries from `idx` up to `c` are still
   to be reinserted; only they may probe through the slots emptied from `start` on.
   */
  ghost predicate Reinserting<K(!new)>(t: seq<K>, e: K, h: K -> nat, start: nat, idx: nat, c: nat)
    requires Bounded(h, |t|)
  {
    && start < |t| && idx < |t| && c < |t| && t[c] == e
    && var o := Next(c, |t|);
      && Before(o, start, idx, |t|)
      && (forall i ::
            0 <= i < |t| && t[i] != e ==> !Before(o, i, h(t[i]), |t|))
      && (forall i ::
            0 <= i < |t| && !Before(o, i, idx, |t|) && i != c ==> t[i] != e)
      && (forall i, j ::
                         (0 <= i < |t| && 0 <= j < |t| && t[i] != e
                          && !Before(o, j, h(t[i]), |t|) && Before(o, j, i, |t|)) ==>
            t[j] != e || (!Before(o, i, idx, |t|) && !Before(o, j, start, |t|) && Before(o, j, idx, |t|)))
  }

  /** The first empty slot after `start`. */
  lemma ClusterEnd<K>(s: seq<K>, e: K, start: nat) returns (c: nat)
    requires start < |s| && s[start] != e && HasEmpty(s, e)
    ensures c < |s| && s[c] == e
    ensures forall i :: 0 <= i < |s| && Before(start, i, c, |s|) ==> s[i] != e
  {
    c := Next(start, |s|);
    var w :| 0 <= w < |s| && s[w] == e;
    while s[c] != e
      invariant c < |s| && c != start
      invariant Dist(start, c, |s|) <= Dist(start, w, |s|)
      invariant forall i :: 0 <= i < |s| && Before(start, i, c, |s|) ==> s[i] != e
      decreases |s| - Dist(start, c, |s|)
    {
      c := Next(c, |s|);
    }
  }

  lemma ReinsertStart<K(!new)>(s: seq<K>, e: K, h: K -> nat, start: nat, c: nat)
    requires Bounded(h, |s|) && Reachable(s, e, h) && start < |s| && c < |s|
    requires s[start] != e && s[c] == e
    requires forall i :: 0 <= i < |s| && Before(start, i, c, |s|) ==> s[i] != e
    ensures Reinserting(s[start := e], e, h, start, Next(start, |s|), c)
  {
    var n, o := |s|, Next(c, |s|);
    forall i | 0 <= i < n && s[i] != e ensures !Before(o, i, h(s[i]), n) {
      if Before(o, i, h(s[i]), n) {
        assert Before(h(s[i]), c, i, n);
      }
    }
    var t := s[start := e];
    forall i | 0 <= i < n && !Before(o, i, Next(start, n), n) && i != c ensures t[i] != e {
      assert Before(start, i, c, n);
    }
    forall i, j | 0 <= i < n && 0 <= j < n && t[i] != e && !Before(o, j, h(t[i]), n) && Before(o, j, i, n)
      ensures t[j] != e || (!Before(o, i, Next(start, n), n) && !Before(o, j, start, n) && Before(o, j, Next(start, n), n))
    {
      assert Before(h(s[i]), j, i, n);
    }
  }

  /** The reinserted key lands between its home and the slot it was taken from. */
  lemma ReinsertSlot<K(!new)>(t: seq<K>, e: K, h: K -> nat, start: nat, idx: nat, c: nat, m: nat)
    requires Bounded(h, |t|) && Reinserting(t, e, h, start, idx, c)
    requires t[idx] != e && m < |t| && t[idx := e][m] == e
    requires Passed(t[idx := e], e, t[idx], h(t[idx]), m)
    ensures idx != c
    ensures !Before(Next(c, |t|), idx, m, |t|) && !Before(Next(c, |t|), m, h(t[idx]), |t|)
  {
    var n, o, a := |t|, Next(c, |t|), h(t[idx]);
    assert !Before(o, idx, a, n);
    assert t[idx := e][idx] == e;
    assert !Before(a, idx, m, n);
  }

  lemma ReinsertStep<K(!new)>(t: seq<K>, e: K, h: K -> nat, start: nat, idx: nat, c: nat, m: nat)
    requires Bounded(h, |t|) && Reinserting(t, e, h, start, idx, c)
    requires t[idx] != e && m < |t| && t[idx := e][m] == e
    requires Passed(t[idx := e], e, t[idx], h(t[idx]), m)
    ensures Reinserting(t[idx := e][m := t[idx]], e, h, start, Next(idx, |t|), c)
  {
    var n, o, k := |t|, Next(c, |t|), t[idx];
    var t0 := t[idx := e];
    var u := t0[m := k];
    ReinsertSlot(t, e, h, start, idx, c, m);
    assert forall i :: 0 <= i < n && i != m && i != idx ==> u[i] == t[i];
    forall i, j | 0 <= i < n && 0 <= j < n && u[i] != e && !Before(o, j, h(u[i]), n) && Before(o, j, i, n)
      ensures u[j] != e || (!Before(o, i, Next(idx, n), n) && !Before(o, j, start, n) && Before(o, j, Next(idx, n), n))
    {
      if i == m {
        assert Before(h(k), j, m, n);
      }
    }
  }

  lemma ReinsertKeys<K>(t: seq<K>, e: K, idx: nat, m: nat)
    requires Unique(t, e) && idx < |t| && t[idx] != e && m < |t| && t[idx := e][m] == e
    ensures Unique(t[idx := e][m := t[idx]], e)
    ensures Keys(t[idx := e][m := t[idx]], e) == Keys(t, e)
  {
    var u := t[idx := e][m := t[idx]];
    if m != idx {
      KeysOfMoved(t, e, idx, m);
      assert u == t[m := t[idx]][idx := e];
    } else {
      assert u == t;
    }
  }

  lemma ReinsertDone<K(!new)>(t: seq<K>, e: K, h: K -> nat, start: nat, idx: nat, c: nat)
    requires Bounded(h, |t|) && Reinserting(t, e, h, start, idx, c) && t[idx] == e
    ensures idx == c && Reachable(t, e, h)
  {
    var n, o := |t|, Next(c, |t|);
    forall i, j | 0 <= i < n && 0 <= j < n && t[i] != e && Before(h(t[i]), j, i, n)
      ensures t[j] != e
    {
      assert !Before(o, i, h(t[i]), n);
      assert !Before(o, j, h(t[i]), n) && Before(o, j, i, n);
    }
  }
}
