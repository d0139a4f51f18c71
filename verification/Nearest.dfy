/** Sorting chunk positions by distance: what a stable sort is, and the in-place bottom-up merge. */
module Nearest {
  import opened World

  /** Squared distance in wrapping 32-bit arithmetic, as the client computes it. */
  function Distance(position: ChunkAddress, center: ChunkAddress): i32 {
    var x := WrapI32(position.x - center.x);
    var z := WrapI32(position.z - center.z);
    WrapI32(WrapI32(x * x) + WrapI32(z * z))
  }

  /** Where nothing wraps it is the squared distance on the plane, and it never depends on the way round. */
  lemma DistanceMeans(position: ChunkAddress, center: ChunkAddress)
    ensures var x: int, z: int := position.x - center.x, position.z - center.z;
            && (-0x7fff <= x <= 0x7fff && -0x7fff <= z <= 0x7fff ==> Distance(position, center) == x * x + z * z)
            && (Distance(position, center) - (x * x + z * z)) % 0x1_0000_0000 == 0
  {
    hide WrapI32;
    var x: int, z: int := position.x - center.x, position.z - center.z;
    if -0x7fff <= x <= 0x7fff && -0x7fff <= z <= 0x7fff {
      SquareBound(x);
      SquareBound(z);
      NoWrap(x);
      NoWrap(z);
      NoWrap(x * x);
      NoWrap(z * z);
      NoWrap(x * x + z * z);
    }
    var a: int, b: int := WrapI32(x), WrapI32(z);
    SquareWraps(x);
    SquareWraps(z);
    WrapsBy(a * a);
    WrapsBy(b * b);
    WrapsBy(WrapI32(a * a) + WrapI32(b * b));
    SumWraps(Distance(position, center), WrapI32(a * a) + WrapI32(b * b), WrapI32(a * a), a * a, x * x, WrapI32(b * b), b * b, z * z);
  }

  lemma SquareBound(x: int)
    requires -0x7fff <= x <= 0x7fff
    ensures 0 <= x * x <= 0x7fff * 0x7fff
  {
    var size := if x < 0 then -x else x;
    assert x * x == size * size;
    assert size * size + size * (0x7fff - size) == size * 0x7fff;
    NatProduct(size, 0x7fff - size);
  }

  lemma NoWrap(v: int)
    requires -0x8000_0000 <= v < 0x8000_0000
    ensures WrapI32(v) == v
  {
  }

  lemma NatProduct(a: nat, b: nat)
    ensures a * b >= 0
  {
  }

  lemma WrapsBy(v: int)
    ensures (WrapI32(v) - v) % 0x1_0000_0000 == 0
  {
  }

  lemma SquareWraps(x: int)
    ensures (WrapI32(x) * WrapI32(x) - x * x) % 0x1_0000_0000 == 0
  {
    var a := WrapI32(x);
    WrapsBy(x);
    var k := (a - x) / 0x1_0000_0000;
    assert a == x + k * 0x1_0000_0000;
    assert a * a - x * x == (a - x) * (a + x) == 0x1_0000_0000 * (k * (a + x));
    TimesWhole(k * (a + x));
  }

  lemma TimesWhole(m: int)
    ensures (0x1_0000_0000 * m) % 0x1_0000_0000 == 0
  {
  }

  lemma SumWraps(d: int, s: int, p: int, p1: int, p2: int, q: int, q1: int, q2: int)
    requires s == p + q
    requires (d - s) % 0x1_0000_0000 == 0 && (p - p1) % 0x1_0000_0000 == 0 && (p1 - p2) % 0x1_0000_0000 == 0
    requires (q - q1) % 0x1_0000_0000 == 0 && (q1 - q2) % 0x1_0000_0000 == 0
    ensures (d - (p2 + q2)) % 0x1_0000_0000 == 0
  {
  }

  ghost predicate Sorted(s: seq<ChunkAddress>, center: ChunkAddress) {
    forall i, j :: 0 <= i <= j < |s| ==> Distance(s[i], center) <= Distance(s[j], center)
  }

  /** The positions at one distance, in order. */
  function At(s: seq<ChunkAddress>, center: ChunkAddress, k: int): seq<ChunkAddress> {
    if s == [] then []
    else
      var rest := At(s[..|s| - 1], center, k);
      if Distance(s[|s| - 1], center) == k then rest + [s[|s| - 1]] else rest
  }

  /** Equal distances keep their order, and nothing is gained or lost. */
  ghost predicate SameOrder(a: seq<ChunkAddress>, b: seq<ChunkAddress>, center: ChunkAddress) {
    forall k :: At(a, center, k) == At(b, center, k)
  }

  ghost predicate StablySorts(a: seq<ChunkAddress>, b: seq<ChunkAddress>, center: ChunkAddress) {
    Sorted(b, center) && SameOrder(a, b, center)
  }

  // ----- a stable sort is unique, and commutes with filtering -----

  lemma {:induction false} AtConcat(a: seq<ChunkAddress>, b: seq<ChunkAddress>, center: ChunkAddress, k: int)
    ensures At(a + b, center, k) == At(a, center, k) + At(b, center, k)
  {
    if b == [] {
      assert a + b == a;
    } else {
      AtConcat(a, b[..|b| - 1], center, k);
      assert (a + b)[..|a + b| - 1] == a + b[..|b| - 1];
    }
  }

  lemma {:induction false} AtMember(s: seq<ChunkAddress>, center: ChunkAddress, k: int, p: ChunkAddress)
    ensures p in At(s, center, k) <==> p in s && Distance(p, center) == k
  {
    if s != [] {
      AtMember(s[..|s| - 1], center, k, p);
      assert s == s[..|s| - 1] + [s[|s| - 1]];
    }
  }

  lemma SameOrderMember(a: seq<ChunkAddress>, b: seq<ChunkAddress>, center: ChunkAddress, p: ChunkAddress)
    requires SameOrder(a, b, center)
    ensures p in a <==> p in b
  {
    AtMember(a, center, Distance(p, center), p);
    AtMember(b, center, Distance(p, center), p);
  }

  /** Two stable sorts of the same positions end in the same position. */
  lemma LastAgrees(b: seq<ChunkAddress>, c: seq<ChunkAddress>, center: ChunkAddress)
    requires Sorted(b, center) && Sorted(c, center) && SameOrder(b, c, center) && b != [] && c != []
    ensures b[|b| - 1] == c[|c| - 1] && SameOrder(b[..|b| - 1], c[..|c| - 1], center)
  {
    hide Distance;
    var x, y := b[|b| - 1], c[|c| - 1];
    SameOrderMember(b, c, center, x);
    SameOrderMember(b, c, center, y);
    var b', c' := b[..|b| - 1], c[..|c| - 1];
    assert x in c && y in b;
    var k := Distance(x, center);
    assert Distance(y, center) == k;
    assert At(b, center, k) == At(c, center, k);
    assert At(b, center, k) == At(b', center, k) + [x] && At(c, center, k) == At(c', center, k) + [y];
    var p := At(b, center, k);
    assert p[|p| - 1] == x && p[|p| - 1] == y;
    forall m ensures At(b', center, m) == At(c', center, m) {
      assert At(b, center, m) == At(c, center, m);
      assert At(b, center, m) == At(b', center, m) + if Distance(x, center) == m then [x] else [];
      assert At(c, center, m) == At(c', center, m) + if Distance(x, center) == m then [x] else [];
      DropSuffix(At(b', center, m), At(c', center, m), if Distance(x, center) == m then [x] else []);
    }
  }

  lemma DropSuffix(a: seq<ChunkAddress>, b: seq<ChunkAddress>, end: seq<ChunkAddress>)
    requires a + end == b + end
    ensures a == b
  {
    assert |a + end| == |b + end|;
    assert a == (a + end)[..|a|] && b == (b + end)[..|a|];
  }

  /** The order of equal elements fixes the whole sorted sequence. */
  lemma {:induction false} StableSortIsUnique(b: seq<ChunkAddress>, c: seq<ChunkAddress>, center: ChunkAddress)
    requires Sorted(b, center) && Sorted(c, center) && SameOrder(b, c, center)
    ensures b == c
    decreases |b|
  {
    if b == [] {
      if c != [] {
        SameOrderMember(b, c, center, c[0]);
      }
    } else {
      SameOrderMember(b, c, center, b[|b| - 1]);
      LastAgrees(b, c, center);
      StableSortIsUnique(b[..|b| - 1], c[..|c| - 1], center);
      assert b == b[..|b| - 1] + [b[|b| - 1]] && c == c[..|c| - 1] + [c[|c| - 1]];
    }
  }

  function Keep(s: seq<ChunkAddress>, keep: set<ChunkAddress>): seq<ChunkAddress> {
    if s == [] then []
    else
      var rest := Keep(s[..|s| - 1], keep);
      if s[|s| - 1] in keep then rest + [s[|s| - 1]] else rest
  }

  lemma {:induction false} KeepAt(s: seq<ChunkAddress>, keep: set<ChunkAddress>, center: ChunkAddress, k: int)
    ensures At(Keep(s, keep), center, k) == Keep(At(s, center, k), keep)
  {
    if s != [] {
      KeepAt(s[..|s| - 1], keep, center, k);
    }
  }

  lemma {:induction false} KeepSorted(s: seq<ChunkAddress>, keep: set<ChunkAddress>, center: ChunkAddress)
    requires Sorted(s, center)
    ensures Sorted(Keep(s, keep), center)
    ensures forall p :: p in Keep(s, keep) ==> p in s
  {
    if s != [] {
      KeepSorted(s[..|s| - 1], keep, center);
      assert forall p :: p in s[..|s| - 1] ==> Distance(p, center) <= Distance(s[|s| - 1], center);
    }
  }

  /** Sorting everything and then dropping entries equals dropping them first and then sorting. */
  lemma FilterAfterSort(all: seq<ChunkAddress>, sorted: seq<ChunkAddress>, keep: set<ChunkAddress>,
                        filteredFirst: seq<ChunkAddress>, center: ChunkAddress)
    requires StablySorts(all, sorted, center) && StablySorts(Keep(all, keep), filteredFirst, center)
    ensures Keep(sorted, keep) == filteredFirst
  {
    KeepSorted(sorted, keep, center);
    forall k ensures At(Keep(sorted, keep), center, k) == At(filteredFirst, center, k) {
      KeepAt(sorted, keep, center, k);
      KeepAt(all, keep, center, k);
      assert At(all, center, k) == At(sorted, center, k);
      assert At(Keep(all, keep), center, k) == At(filteredFirst, center, k);
    }
    StableSortIsUnique(Keep(sorted, keep), filteredFirst, center);
  }

  lemma SameOrderIsPermutation(a: seq<ChunkAddress>, b: seq<ChunkAddress>, center: ChunkAddress)
    requires SameOrder(a, b, center)
    ensures multiset(a) == multiset(b)
  {
    forall p ensures multiset(a)[p] == multiset(b)[p] {
      AtCounts(a, center, p);
      AtCounts(b, center, p);
    }
  }

  lemma {:induction false} AtCounts(s: seq<ChunkAddress>, center: ChunkAddress, p: ChunkAddress)
    ensures multiset(s)[p] == multiset(At(s, center, Distance(p, center)))[p]
  {
    if s != [] {
      AtCounts(s[..|s| - 1], center, p);
      assert s == s[..|s| - 1] + [s[|s| - 1]];
    }
  }

  // ----- merging two sorted runs -----

  /** `out` merges s[start..left] with s[middle..right]; nothing left of the two runs precedes it. */
  ghost predicate Merging(s: seq<ChunkAddress>, start: nat, middle: nat, end: nat, left: nat, right: nat,
                          out: seq<ChunkAddress>, center: ChunkAddress)
  {
    && start <= left <= middle <= right <= end <= |s| && |out| == (left - start) + (right - middle)
    && Sorted(out, center)
    && (forall p, k :: p in out && (left <= k < middle || right <= k < end) ==> Distance(p, center) <= Distance(s[k], center))
    && (forall m, k :: middle <= m < right && left <= k < middle ==> Distance(s[m], center) < Distance(s[k], center))
    && (forall k :: At(out, center, k) == At(s[start..left], center, k) + At(s[middle..right], center, k))
  }

  /** The next output is the head of the left run unless the right run's head is strictly nearer. */
  lemma MergeStep(s: seq<ChunkAddress>, start: nat, middle: nat, end: nat, left: nat, right: nat,
                  out: seq<ChunkAddress>, takeLeft: bool, center: ChunkAddress)
    requires Merging(s, start, middle, end, left, right, out, center) && |out| < end - start
    requires Sorted(s[start..middle], center) && Sorted(s[middle..end], center)
    requires takeLeft <==> right == end || (left < middle && Distance(s[left], center) <= Distance(s[right], center))
    ensures if takeLeft then left < middle && Merging(s, start, middle, end, left + 1, right, out + [s[left]], center)
            else right < end && Merging(s, start, middle, end, left, right + 1, out + [s[right]], center)
  {
    SortedSlice(s, start, middle, center);
    SortedSlice(s, middle, end, center);
    if takeLeft {
      TakeLeft(s, start, middle, end, left, right, out, center);
    } else {
      TakeRight(s, start, middle, end, left, right, out, center);
    }
  }

  lemma SortedSlice(s: seq<ChunkAddress>, x: nat, y: nat, center: ChunkAddress)
    requires x <= y <= |s| && Sorted(s[x..y], center)
    ensures forall i, j :: x <= i <= j < y ==> Distance(s[i], center) <= Distance(s[j], center)
  {
    forall i, j | x <= i <= j < y ensures Distance(s[i], center) <= Distance(s[j], center) {
      assert s[x..y][i - x] == s[i] && s[x..y][j - x] == s[j];
    }
  }

  lemma TakeLeft(s: seq<ChunkAddress>, start: nat, middle: nat, end: nat, left: nat, right: nat, out: seq<ChunkAddress>, center: ChunkAddress)
    requires Merging(s, start, middle, end, left, right, out, center) && left < middle
    requires forall i :: left <= i < middle ==> Distance(s[left], center) <= Distance(s[i], center)
    requires forall i :: right <= i < end ==> Distance(s[left], center) <= Distance(s[i], center)
    ensures Merging(s, start, middle, end, left + 1, right, out + [s[left]], center)
  {
    hide Distance, At;
    var next := out + [s[left]];
    forall k ensures At(next, center, k) == At(s[start..left + 1], center, k) + At(s[middle..right], center, k) {
      assert At(out, center, k) == At(s[start..left], center, k) + At(s[middle..right], center, k);
      AtAppend(out, s[left], center, k);
      AtAppend(s[start..left], s[left], center, k);
      assert s[start..left + 1] == s[start..left] + [s[left]];
      if k == Distance(s[left], center) {
        NoneAt(s[middle..right], center, k);
      }
    }
  }

  lemma TakeRight(s: seq<ChunkAddress>, start: nat, middle: nat, end: nat, left: nat, right: nat, out: seq<ChunkAddress>, center: ChunkAddress)
    requires Merging(s, start, middle, end, left, right, out, center) && right < end
    requires forall i :: left <= i < middle ==> Distance(s[right], center) < Distance(s[i], center)
    requires forall i :: right <= i < end ==> Distance(s[right], center) <= Distance(s[i], center)
    ensures Merging(s, start, middle, end, left, right + 1, out + [s[right]], center)
  {
    hide Distance, At;
    var next := out + [s[right]];
    forall k ensures At(next, center, k) == At(s[start..left], center, k) + At(s[middle..right + 1], center, k) {
      assert At(out, center, k) == At(s[start..left], center, k) + At(s[middle..right], center, k);
      AtAppend(out, s[right], center, k);
      AtAppend(s[middle..right], s[right], center, k);
      assert s[middle..right + 1] == s[middle..right] + [s[right]];
    }
  }

  lemma AtAppend(s: seq<ChunkAddress>, p: ChunkAddress, center: ChunkAddress, k: int)
    ensures At(s + [p], center, k) == At(s, center, k) + if Distance(p, center) == k then [p] else []
  {
    assert (s + [p])[..|s|] == s;
  }

  lemma {:induction false} NoneAt(s: seq<ChunkAddress>, center: ChunkAddress, k: int)
    requires forall p :: p in s ==> Distance(p, center) != k
    ensures At(s, center, k) == []
  {
    if s != [] {
      NoneAt(s[..|s| - 1], center, k);
    }
  }

  lemma MergeDone(s: seq<ChunkAddress>, start: nat, middle: nat, end: nat, out: seq<ChunkAddress>, center: ChunkAddress)
    requires Merging(s, start, middle, end, middle, end, out, center)
    ensures StablySorts(s[start..end], out, center)
  {
    assert s[start..end] == s[start..middle] + s[middle..end];
    forall k ensures At(s[start..end], center, k) == At(out, center, k) {
      AtConcat(s[start..middle], s[middle..end], center, k);
    }
  }

  // ----- runs of a given width -----

  ghost predicate RunsSorted(s: seq<ChunkAddress>, width: nat, center: ChunkAddress)
    requires width > 0
    decreases |s|
  {
    if |s| <= width then Sorted(s, center)
    else Sorted(s[..width], center) && RunsSorted(s[width..], width, center)
  }

  ghost predicate Whole(s: seq<ChunkAddress>, width: nat)
    requires width > 0
    decreases |s|
  {
    s == [] || (|s| >= width && Whole(s[width..], width))
  }

  lemma {:induction false} UnitRuns(s: seq<ChunkAddress>, center: ChunkAddress)
    ensures RunsSorted(s, 1, center)
  {
    if |s| > 1 {
      UnitRuns(s[1..], center);
    }
  }

  lemma {:induction false} AppendRun(s: seq<ChunkAddress>, run: seq<ChunkAddress>, width: nat, center: ChunkAddress)
    requires width > 0 && Whole(s, width) && RunsSorted(s, width, center)
    requires |run| <= width && Sorted(run, center)
    ensures RunsSorted(s + run, width, center)
    ensures |run| == width ==> Whole(s + run, width)
    decreases |s|
  {
    if s == [] {
      assert s + run == run;
      if |run| == width {
        assert run[width..] == [];
      }
    } else {
      var rest := s[width..];
      assert (s + run)[width..] == rest + run && (s + run)[..width] == s[..width];
      if |s| == width {
        assert rest == [] && s[..width] == s;
      }
      AppendRun(rest, run, width, center);
      if |s + run| == width {
        assert run == [] && s + run == s[..width];
      }
    }
  }

  /** The two runs that one merge of doubled width consumes. */
  lemma NextRuns(s: seq<ChunkAddress>, width: nat, center: ChunkAddress)
    requires width > 0 && s != [] && RunsSorted(s, width, center)
    ensures var middle := if width < |s| then width else |s|;
            var end := if middle + width < |s| then middle + width else |s|;
            Sorted(s[..middle], center) && Sorted(s[middle..end], center) && (end < |s| ==> RunsSorted(s[end..], width, center))
  {
    hide Sorted;
    if |s| <= width {
      assert s[..|s|] == s && s[|s|..|s|] == [];
      NothingSorted(center);
    } else {
      var rest := s[width..];
      if |rest| <= width {
        assert s[width..|s|] == rest;
      } else {
        assert rest[..width] == s[width..width + width] && rest[width..] == s[width + width..];
      }
    }
  }

  lemma NothingSorted(center: ChunkAddress)
    ensures Sorted([], center)
  {
  }

  lemma SameOrderConcat(a: seq<ChunkAddress>, b: seq<ChunkAddress>, c: seq<ChunkAddress>, d: seq<ChunkAddress>, center: ChunkAddress)
    requires SameOrder(a, b, center) && SameOrder(c, d, center)
    ensures SameOrder(a + c, b + d, center)
  {
    forall k ensures At(a + c, center, k) == At(b + d, center, k) {
      AtConcat(a, c, center, k);
      AtConcat(b, d, center, k);
      assert At(a, center, k) == At(b, center, k) && At(c, center, k) == At(d, center, k);
    }
  }

  // ----- the sort -----

  /** Merges two adjacent sorted runs of `values[lo..hi]` into the scratch. */
  method MergeRuns(values: array<ChunkAddress>, scratch: array<ChunkAddress>, lo: nat, hi: nat, start: nat, middle: nat, end: nat, center: ChunkAddress)
    requires values != scratch && lo <= hi <= values.Length && start <= middle <= end <= scratch.Length && lo + end <= hi
    requires Sorted(values[lo..hi][start..middle], center) && Sorted(values[lo..hi][middle..end], center)
    modifies scratch
    ensures forall k :: 0 <= k < scratch.Length && !(start <= k < end) ==> scratch[k] == old(scratch[k])
    ensures StablySorts(values[lo..hi][start..end], scratch[start..end], center)
  {
    hide *;
    ghost var s := values[lo..hi];
    var left: nat, right: nat, out: nat := start, middle, start;
    ghost var merged: seq<ChunkAddress> := [];
    MergeStart(s, start, middle, end, center);
    while out < end
      invariant start <= left <= middle <= right <= end && out == left + right - middle == start + |merged|
      invariant forall k :: 0 <= k < scratch.Length && !(start <= k < end) ==> scratch[k] == old(scratch[k])
      invariant forall k :: 0 <= k < |merged| ==> scratch[start + k] == merged[k]
      invariant Merging(s, start, middle, end, left, right, merged, center)
    {
      var takeLeft := right == end || (left < middle && Distance(values[lo + left], center) <= Distance(values[lo + right], center));
      MergeStep(s, start, middle, end, left, right, merged, takeLeft, center);
      scratch[out] := values[lo + if takeLeft then left else right];
      merged := merged + [scratch[out]];
      out := out + 1;
      if takeLeft {
        left := left + 1;
      } else {
        right := right + 1;
      }
    }
    MergeDone(s, start, middle, end, merged, center);
    assert scratch[start..end] == merged;
  }

  lemma MergeStart(s: seq<ChunkAddress>, start: nat, middle: nat, end: nat, center: ChunkAddress)
    requires start <= middle <= end <= |s|
    ensures Merging(s, start, middle, end, start, middle, [], center)
  {
    assert s[start..start] == [] && s[middle..middle] == [];
  }

  /** What a pass has merged so far: whole runs of doubled width, in the order of the values. */
  ghost predicate Passing(s: seq<ChunkAddress>, width: nat, start: nat, merged: seq<ChunkAddress>, center: ChunkAddress)
    requires width > 0
  {
    && |merged| == (if start < |s| then start else |s|) && SameOrder(s[..|merged|], merged, center)
    && RunsSorted(merged, 2 * width, center)
    && (start < |s| ==> Whole(merged, 2 * width) && RunsSorted(s[start..], width, center))
  }

  lemma PassStarts(s: seq<ChunkAddress>, width: nat, center: ChunkAddress)
    requires width > 0 && RunsSorted(s, width, center)
    ensures Passing(s, width, 0, [], center)
  {
    assert s[0..] == s && s[..0] == [];
  }

  lemma PassStep(s: seq<ChunkAddress>, width: nat, start: nat, merged: seq<ChunkAddress>, run: seq<ChunkAddress>, center: ChunkAddress)
    requires width > 0 && start < |s| && Passing(s, width, start, merged, center)
    requires StablySorts(s[start..if start + 2 * width < |s| then start + 2 * width else |s|], run, center)
    ensures Passing(s, width, start + 2 * width, merged + run, center)
  {
    hide Sorted, SameOrder, RunsSorted, Whole;
    var end := if start + 2 * width < |s| then start + 2 * width else |s|;
    SameOrderIsPermutation(s[start..end], run, center);
    assert |multiset(s[start..end])| == |multiset(run)|;
    SameOrderConcat(s[..start], merged, s[start..end], run, center);
    assert s[..start] + s[start..end] == s[..end];
    AppendRun(merged, run, 2 * width, center);
    NextRuns(s[start..], width, center);
    if end < |s| {
      assert s[start..][2 * width..] == s[end..];
    }
  }

  lemma PassDone(s: seq<ChunkAddress>, width: nat, start: nat, merged: seq<ChunkAddress>, center: ChunkAddress)
    requires width > 0 && start >= |s| && Passing(s, width, start, merged, center)
    ensures |merged| == |s| && SameOrder(s, merged, center) && RunsSorted(merged, 2 * width, center)
  {
    assert s[..|s|] == s;
  }

  /** The runs that a merge at `start` consumes are sorted. */
  lemma RunsAt(s: seq<ChunkAddress>, width: nat, start: nat, merged: seq<ChunkAddress>, center: ChunkAddress)
    requires width > 0 && start < |s| && Passing(s, width, start, merged, center)
    ensures var middle := if start + width < |s| then start + width else |s|;
            var end := if middle + width < |s| then middle + width else |s|;
            Sorted(s[start..middle], center) && Sorted(s[middle..end], center)
  {
    hide Sorted, SameOrder, RunsSorted, Whole;
    NextRuns(s[start..], width, center);
    var middle := if start + width < |s| then start + width else |s|;
    var end := if middle + width < |s| then middle + width else |s|;
    TailSlice(s, start, start, middle);
    TailSlice(s, start, middle, end);
  }

  lemma TailSlice(s: seq<ChunkAddress>, start: nat, x: nat, y: nat)
    requires start <= x <= y <= |s|
    ensures s[start..][x - start..y - start] == s[x..y]
  {
  }

  /** One pass: every pair of neighbouring runs is merged into the scratch. */
  method MergePass(values: array<ChunkAddress>, scratch: array<ChunkAddress>, lo: nat, hi: nat, width: nat, center: ChunkAddress)
    requires values != scratch && lo <= hi <= values.Length && hi - lo <= scratch.Length
    requires width > 0 && RunsSorted(values[lo..hi], width, center)
    modifies scratch
    ensures SameOrder(values[lo..hi], scratch[..hi - lo], center)
    ensures RunsSorted(scratch[..hi - lo], 2 * width, center)
  {
    hide *;
    ghost var s := values[lo..hi];
    var n: nat := hi - lo;
    var start: nat := 0;
    PassStarts(s, width, center);
    assert scratch[..0] == [];
    while start < n
      invariant Passing(s, width, start, scratch[..if start < n then start else n], center)
    {
      var middle := if start + width < n then start + width else n;
      var end := if middle + width < n then middle + width else n;
      ghost var merged := scratch[..start];
      RunsAt(s, width, start, merged, center);
      MergeRuns(values, scratch, lo, hi, start, middle, end, center);
      PassStep(s, width, start, merged, scratch[start..end], center);
      assert scratch[..end] == merged + scratch[start..end];
      start := start + 2 * width;
    }
    PassDone(s, width, start, scratch[..n], center);
  }

  lemma OneRunIsSorted(s: seq<ChunkAddress>, width: nat, center: ChunkAddress)
    requires width > 0 && RunsSorted(s, width, center) && width >= |s|
    ensures Sorted(s, center)
  {
  }

  lemma SameOrderChain(a: seq<ChunkAddress>, b: seq<ChunkAddress>, c: seq<ChunkAddress>, center: ChunkAddress)
    requires SameOrder(a, b, center) && SameOrder(b, c, center)
    ensures SameOrder(a, c, center)
  {
  }

  lemma SameOrderSelf(a: seq<ChunkAddress>, center: ChunkAddress)
    ensures SameOrder(a, a, center)
  {
  }

  /** Bottom-up stable merge sort of `values[lo..hi]`, using only the given scratch. */
  method StableSort(values: array<ChunkAddress>, scratch: array<ChunkAddress>, lo: nat, hi: nat, center: ChunkAddress)
    requires values != scratch && lo <= hi <= values.Length && hi - lo <= scratch.Length
    modifies values, scratch
    ensures values[..lo] == old(values[..lo]) && values[hi..] == old(values[hi..])
    ensures StablySorts(old(values[lo..hi]), values[lo..hi], center)
  {
    hide Sorted, SameOrder, RunsSorted, At;
    var width: nat := 1;
    UnitRuns(values[lo..hi], center);
    SameOrderSelf(values[lo..hi], center);
    while width < hi - lo
      invariant width > 0 && RunsSorted(values[lo..hi], width, center)
      invariant SameOrder(old(values[lo..hi]), values[lo..hi], center)
      invariant values[..lo] == old(values[..lo]) && values[hi..] == old(values[hi..])
      decreases hi - lo - width
    {
      ghost var before := values[lo..hi];
      MergePass(values, scratch, lo, hi, width, center);
      CopyBack(values, scratch, lo, hi);
      SameOrderChain(old(values[lo..hi]), before, values[lo..hi], center);
      width := 2 * width;
    }
    OneRunIsSorted(values[lo..hi], width, center);
  }

  method CopyBack(values: array<ChunkAddress>, scratch: array<ChunkAddress>, lo: nat, hi: nat)
    requires values != scratch && lo <= hi <= values.Length && hi - lo <= scratch.Length
    modifies values
    ensures values[..lo] == old(values[..lo]) && values[hi..] == old(values[hi..])
    ensures values[lo..hi] == scratch[..hi - lo]
  {
    forall i | lo <= i < hi {
      values[i] := scratch[i - lo];
    }
  }
}
