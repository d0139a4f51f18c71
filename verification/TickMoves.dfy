/** Swaps of a sequence, one after another, and where each element ends up. */
module TickMoves {
  type Moves = seq<(nat, nat)>

  function Swap<T>(s: seq<T>, i: nat, j: nat): (r: seq<T>)
    requires i < |s| && j < |s|
    ensures |r| == |s|
    ensures multiset(r) == multiset(s)
  {
    SwapPermutes(s, i, j);
    s[i := s[j]][j := s[i]]
  }

  lemma SwapPermutes<T>(s: seq<T>, i: nat, j: nat)
    requires i < |s| && j < |s|
    ensures multiset(s[i := s[j]][j := s[i]]) == multiset(s)
  {
  }

  predicate Within(moves: Moves, n: nat) {
    forall k :: 0 <= k < |moves| ==> moves[k].0 < n && moves[k].1 < n
  }

  function Moved<T>(s: seq<T>, moves: Moves): (r: seq<T>)
    requires Within(moves, |s|)
    ensures |r| == |s|
    decreases |moves|
  {
    if moves == [] then s
    else
      var last := |moves| - 1;
      Swap(Moved(s, moves[..last]), moves[last].0, moves[last].1)
  }

  lemma {:induction false} MovedPermutes<T>(s: seq<T>, moves: Moves)
    requires Within(moves, |s|)
    ensures multiset(Moved(s, moves)) == multiset(s)
    decreases |moves|
  {
    if moves != [] {
      MovedPermutes(s, moves[..|moves| - 1]);
    }
  }

  lemma MovedAppend<T>(s: seq<T>, moves: Moves, i: nat, j: nat)
    requires Within(moves, |s|) && i < |s| && j < |s|
    ensures Within(moves + [(i, j)], |s|) && Moved(s, moves + [(i, j)]) == Swap(Moved(s, moves), i, j)
  {
    assert (moves + [(i, j)])[..|moves|] == moves;
  }

  lemma {:induction false} MovedConcat<T>(s: seq<T>, a: Moves, b: Moves)
    requires Within(a, |s|) && Within(b, |s|)
    ensures Within(a + b, |s|) && Moved(s, a + b) == Moved(Moved(s, a), b)
    decreases |b|
  {
    if b == [] {
      assert a + b == a;
    } else {
      var last := |b| - 1;
      MovedConcat(s, a, b[..last]);
      assert (a + b)[..|a + b| - 1] == a + b[..last];
    }
  }

  function Ids(n: nat): (r: seq<nat>)
    ensures |r| == n && forall i :: 0 <= i < n ==> r[i] == i
  {
    seq(n, i requires 0 <= i => i)
  }

  /** For each place, where its element came from. */
  function Places(n: nat, moves: Moves): (r: seq<nat>)
    requires Within(moves, n)
    ensures |r| == n
  {
    Moved(Ids(n), moves)
  }

  lemma PlacesAppend(n: nat, moves: Moves, i: nat, j: nat)
    requires Within(moves, n) && i < n && j < n
    ensures Within(moves + [(i, j)], n) && Places(n, moves + [(i, j)]) == Swap(Places(n, moves), i, j)
  {
    MovedAppend(Ids(n), moves, i, j);
  }

  /** Any sequence moves as the places do, and stays beyond them. */
  lemma {:induction false} MovedBy<T>(s: seq<T>, moves: Moves, n: nat)
    requires n <= |s| && Within(moves, n)
    ensures forall i :: 0 <= i < n ==> Places(n, moves)[i] < n && Moved(s, moves)[i] == s[Places(n, moves)[i]]
    ensures forall i :: n <= i < |s| ==> Moved(s, moves)[i] == s[i]
    decreases |moves|
  {
    if moves != [] {
      MovedBy(s, moves[..|moves| - 1], n);
    }
  }

  predicate Distinct<T(==)>(s: seq<T>) {
    forall i, j :: 0 <= i < j < |s| ==> s[i] != s[j]
  }

  lemma {:induction false} MovedDistinct<T>(s: seq<T>, moves: Moves)
    requires Distinct(s) && Within(moves, |s|)
    ensures Distinct(Moved(s, moves))
    decreases |moves|
  {
    if moves != [] {
      MovedDistinct(s, moves[..|moves| - 1]);
    }
  }

  /** Exchanging a place with the last one, then moving only before it. */
  lemma CutPlaces(n: nat, index: nat, more: Moves)
    requires index < n - 1 && Within(more, n - 1)
    ensures Within([(index, n - 1)] + more, n)
    ensures var from, inner := Places(n, [(index, n - 1)] + more), Places(n - 1, more);
      from[n - 1] == index && forall i :: 0 <= i < n - 1 ==> from[i] == if inner[i] == index then n - 1 else inner[i]
  {
    hide Moved;
    var first: Moves := [(index, n - 1)];
    OneMove(Ids(n), index, n - 1);
    MovedConcat(Ids(n), first, more);
    MovedBy(Swap(Ids(n), index, n - 1), more, n - 1);
  }

  lemma OneMove<T>(s: seq<T>, i: nat, j: nat)
    requires i < |s| && j < |s|
    ensures Moved(s, [(i, j)]) == Swap(s, i, j)
  {
    MovedAppend(s, [], i, j);
    assert [] + [(i, j)] == [(i, j)];
  }

  /** Moving only before the end of a longer sequence. */
  lemma {:induction false} MovedPrefix<T>(s: seq<T>, moves: Moves, n: nat)
    requires n <= |s| && Within(moves, n)
    ensures Moved(s, moves)[..n] == Moved(s[..n], moves)
    decreases |moves|
  {
    if moves != [] {
      MovedPrefix(s, moves[..|moves| - 1], n);
    }
  }
}
