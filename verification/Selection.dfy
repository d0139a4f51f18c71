/**
 Bounded selection of the nearest positions: a buffer of twice the wanted count, cut back by
 a capped quickselect whenever it fills.
 */
module Selection {
  import opened World
  import opened Nearest

  /** `x` separates nearer from farther: nothing before it is farther than anything after it. */
  ghost predicate SplitAt(s: seq<ChunkAddress>, x: int, center: ChunkAddress) {
    forall i, j :: 0 <= i < x <= j < |s| ==> Distance(s[i], center) <= Distance(s[j], center)
  }

  /** Rearranging only a range keeps every split at or outside its ends. */
  ghost predicate Rearranges(s: seq<ChunkAddress>, t: seq<ChunkAddress>, left: nat, right: nat) {
    && |s| == |t| && left <= right <= |s|
    && s[..left] == t[..left] && s[right..] == t[right..]
    && multiset(s[left..right]) == multiset(t[left..right])
  }

  lemma RearrangeMember(s: seq<ChunkAddress>, t: seq<ChunkAddress>, left: nat, right: nat, j: nat)
    requires Rearranges(s, t, left, right) && left <= j < right
    ensures exists i :: left <= i < right && s[i] == t[j]
  {
    assert t[left..right][j - left] == t[j];
    assert t[j] in multiset(t[left..right]);
    assert t[j] in s[left..right];
    var k :| 0 <= k < right - left && s[left..right][k] == t[j];
    assert s[left + k] == t[j];
  }

  lemma RearrangeKeepsSplit(s: seq<ChunkAddress>, t: seq<ChunkAddress>, left: nat, right: nat, x: int, center: ChunkAddress)
    requires Rearranges(s, t, left, right) && SplitAt(s, x, center) && (x <= left || x >= right)
    ensures SplitAt(t, x, center)
  {
    forall i, j | 0 <= i < x <= j < |t| ensures Distance(t[i], center) <= Distance(t[j], center) {
      var i' :| 0 <= i' < x && s[i'] == t[i] by {
        if left <= i < right {
          RearrangeMember(s, t, left, right, i);
        } else if i < left {
          assert s[..left][i] == t[..left][i];
        } else {
          assert s[right..][i - right] == t[right..][i - right];
        }
      }
      var j' :| x <= j' < |s| && s[j'] == t[j] by {
        if left <= j < right {
          RearrangeMember(s, t, left, right, j);
        } else if j < left {
          assert s[..left][j] == t[..left][j];
        } else {
          assert s[right..][j - right] == t[right..][j - right];
        }
      }
    }
  }

  lemma RearrangeIsPermutation(s: seq<ChunkAddress>, t: seq<ChunkAddress>, left: nat, right: nat)
    requires Rearranges(s, t, left, right)
    ensures multiset(s) == multiset(t)
  {
    assert s == s[..left] + s[left..right] + s[right..];
    assert t == t[..left] + t[left..right] + t[right..];
  }

  lemma RearrangeChain(s: seq<ChunkAddress>, t: seq<ChunkAddress>, u: seq<ChunkAddress>, left: nat, right: nat)
    requires Rearranges(s, t, left, right) && Rearranges(t, u, left, right)
    ensures Rearranges(s, u, left, right)
  {
  }

  function Swapped(s: seq<ChunkAddress>, i: nat, j: nat): (r: seq<ChunkAddress>)
    requires i < |s| && j < |s|
    ensures |r| == |s|
  {
    s[i := s[j]][j := s[i]]
  }

  lemma SwapRearranges(s: seq<ChunkAddress>, i: nat, j: nat, left: nat, right: nat)
    requires left <= i < right <= |s| && left <= j < right
    ensures Rearranges(s, Swapped(s, i, j), left, right)
  {
    var t := Swapped(s, i, j);
    var a, b := s[left..right], t[left..right];
    assert b == a[i - left := a[j - left]][j - left := a[i - left]];
    SwapPermutes(a, i - left, j - left);
  }

  lemma SwapPermutes(a: seq<ChunkAddress>, i: nat, j: nat)
    requires i < |a| && j < |a|
    ensures multiset(a[i := a[j]][j := a[i]]) == multiset(a)
  {
  }

  /** The pivot's place after partitioning: strictly nearer before it, the rest after it. */
  ghost predicate Partitioned(s: seq<ChunkAddress>, left: nat, boundary: nat, right: nat, center: ChunkAddress) {
    && left <= boundary <= right < |s|
    && (forall i :: left <= i < boundary ==> Distance(s[i], center) < Distance(s[boundary], center))
    && (forall i :: boundary < i <= right ==> Distance(s[boundary], center) <= Distance(s[i], center))
  }

  /** Mid-partition, seeing the pivot at `right`: strictly nearer entries fill [left, boundary). */
  ghost predicate Scanning(start: seq<ChunkAddress>, s: seq<ChunkAddress>, left: nat, boundary: nat, scan: nat, right: nat, center: ChunkAddress) {
    && Rearranges(start, s, left, right + 1) && left <= boundary <= scan <= right < |s|
    && (forall i :: left <= i < boundary ==> Distance(s[i], center) < Distance(s[right], center))
    && (forall i :: boundary <= i < scan ==> Distance(s[right], center) <= Distance(s[i], center))
  }

  lemma ScanStarts(s: seq<ChunkAddress>, pivot: nat, left: nat, right: nat, center: ChunkAddress)
    requires left <= pivot <= right < |s|
    ensures Scanning(s, Swapped(s, pivot, right), left, left, left, right, center)
  {
    SwapRearranges(s, pivot, right, left, right + 1);
  }

  lemma ScanStep(start: seq<ChunkAddress>, s: seq<ChunkAddress>, left: nat, boundary: nat, scan: nat, right: nat, center: ChunkAddress)
    requires Scanning(start, s, left, boundary, scan, right, center) && scan < right
    ensures if Distance(s[scan], center) < Distance(s[right], center)
            then Scanning(start, Swapped(s, scan, boundary), left, boundary + 1, scan + 1, right, center)
            else Scanning(start, s, left, boundary, scan + 1, right, center)
  {
    hide Distance, Rearranges, Swapped;
    if Distance(s[scan], center) < Distance(s[right], center) {
      var t := Swapped(s, scan, boundary);
      SwapRearranges(s, scan, boundary, left, right + 1);
      RearrangeChain(start, s, t, left, right + 1);
      SwappedAt(s, scan, boundary, right);
      forall i | left <= i < boundary + 1 ensures Distance(t[i], center) < Distance(t[right], center) {
        SwappedAt(s, scan, boundary, i);
      }
      forall i | boundary + 1 <= i < scan + 1 ensures Distance(t[right], center) <= Distance(t[i], center) {
        SwappedAt(s, scan, boundary, i);
      }
    }
  }

  lemma SwappedAt(s: seq<ChunkAddress>, i: nat, j: nat, k: nat)
    requires i < |s| && j < |s| && k < |s|
    ensures Swapped(s, i, j)[k] == if k == j then s[i] else if k == i then s[j] else s[k]
  {
  }

  lemma ScanDone(start: seq<ChunkAddress>, s: seq<ChunkAddress>, left: nat, boundary: nat, right: nat, center: ChunkAddress)
    requires Scanning(start, s, left, boundary, right, right, center)
    ensures left <= boundary <= right < |s|
    ensures var t := Swapped(s, boundary, right);
            Partitioned(t, left, boundary, right, center) && Rearranges(start, t, left, right + 1)
  {
    hide Distance, Rearranges;
    SwapRearranges(s, boundary, right, left, right + 1);
    RearrangeChain(start, s, Swapped(s, boundary, right), left, right + 1);
  }

  /** Lomuto partition around the middle element, with the pivot held aside during the scan. */
  method Partition(values: array<ChunkAddress>, left: nat, right: nat, center: ChunkAddress) returns (boundary: nat)
    requires left < right < values.Length
    modifies values
    ensures Partitioned(values[..], left, boundary, right, center)
    ensures Rearranges(old(values[..]), values[..], left, right + 1)
  {
    hide Distance, Rearranges, Scanning, Partitioned;
    var pivot := (left + right + 1) / 2;
    var value := values[pivot];
    var pivotDistance := Distance(value, center);
    ghost var before := values[..];
    ScanStarts(before, pivot, left, right, center);
    values[pivot] := values[right];
    boundary := left;
    ghost var s := Swapped(before, pivot, right);
    for scan := left to right
      invariant left <= boundary <= scan && |s| == values.Length && s[right] == value
      invariant values[..][right := value] == s
      invariant Scanning(before, s, left, boundary, scan, right, center)
    {
      ScanStep(before, s, left, boundary, scan, right, center);
      assert values[scan] == s[scan];
      if Distance(values[scan], center) < pivotDistance {
        s := Swapped(s, scan, boundary);
        values[scan], values[boundary] := values[boundary], values[scan];
        boundary := boundary + 1;
      }
    }
    ScanDone(before, s, left, boundary, right, center);
    values[right] := values[boundary];
    values[boundary] := value;
    assert values[..] == Swapped(s, boundary, right);
  }

  // ----- the capped quickselect -----

  function BitLength(n: nat): nat {
    if n == 0 then 0 else 1 + BitLength(n / 2)
  }

  /** The wanted cut lies between `left` and `right`, all three marks split nearer from farther. */
  ghost predicate Narrowed(s: seq<ChunkAddress>, count: nat, left: nat, right: nat, mark: nat, center: ChunkAddress) {
    && mark <= left <= count <= right < |s| && mark < count
    && SplitAt(s, left, center) && SplitAt(s, right + 1, center) && SplitAt(s, mark, center)
  }

  lemma PivotSplits(s: seq<ChunkAddress>, left: nat, boundary: nat, right: nat, center: ChunkAddress)
    requires Partitioned(s, left, boundary, right, center) && SplitAt(s, left, center) && SplitAt(s, right + 1, center)
    ensures SplitAt(s, boundary, center) && SplitAt(s, boundary + 1, center)
  {
    hide Distance;
  }

  lemma NarrowedRearranged(s: seq<ChunkAddress>, t: seq<ChunkAddress>, count: nat, left: nat, right: nat, mark: nat, center: ChunkAddress)
    requires Narrowed(s, count, left, right, mark, center) && Rearranges(s, t, left, right + 1)
    ensures Narrowed(t, count, left, right, mark, center)
  {
    RearrangeKeepsSplit(s, t, left, right + 1, left, center);
    RearrangeKeepsSplit(s, t, left, right + 1, right + 1, center);
    RearrangeKeepsSplit(s, t, left, right + 1, mark, center);
  }

  lemma SortedRangeSplits(s: seq<ChunkAddress>, count: nat, left: nat, right: nat, mark: nat, center: ChunkAddress)
    requires Narrowed(s, count, left, right, mark, center) && Sorted(s[left..right + 1], center)
    ensures SplitAt(s, count, center)
  {
    SortedSlice(s, left, right + 1, center);
  }

  lemma SortRearranges(s: seq<ChunkAddress>, t: seq<ChunkAddress>, left: nat, right: nat, center: ChunkAddress)
    requires |s| == |t| && left <= right <= |s| && s[..left] == t[..left] && s[right..] == t[right..]
    requires StablySorts(s[left..right], t[left..right], center)
    ensures Rearranges(s, t, left, right)
  {
    SameOrderIsPermutation(s[left..right], t[left..right], center);
  }

  lemma PrefixRearranges(s: seq<ChunkAddress>, t: seq<ChunkAddress>, left: nat, right: nat, n: nat)
    requires Rearranges(s, t, left, right) && right <= n <= |s|
    ensures Rearranges(s[..n], t[..n], left, right)
  {
    assert s[..n][left..right] == s[left..right] && t[..n][left..right] == t[left..right];
    assert s[..n][..left] == s[..left] && t[..n][..left] == t[..left];
    forall i | right <= i < n ensures s[i] == t[i] {
      assert s[right..][i - right] == t[right..][i - right];
    }
    assert s[..n][right..] == t[..n][right..];
  }

  /** One narrowing: the new marks after a pivot landed at `boundary`. */
  lemma NarrowStep(s: seq<ChunkAddress>, count: nat, left: nat, right: nat, mark: nat, boundary: nat, center: ChunkAddress)
    requires Narrowed(s, count, left, right, mark, center) && Partitioned(s, left, boundary, right, center)
    ensures SplitAt(s, boundary, center)
    ensures boundary > count ==> Narrowed(s, count, left, boundary - 1, mark, center)
    ensures boundary < count ==> Narrowed(s, count, if boundary > left then boundary else left + 1, right, boundary, center)
  {
    PivotSplits(s, left, boundary, right, center);
  }

  /** Mid-selection: the first `n` values are a rearrangement of what they were, narrowed around the cut. */
  ghost predicate Selecting(start: seq<ChunkAddress>, s: seq<ChunkAddress>, n: nat, count: nat, left: nat, right: nat, mark: nat, center: ChunkAddress) {
    n <= |s| && Rearranges(start, s, 0, n) && Narrowed(s[..n], count, left, right, mark, center)
  }

  /** Reorders the first `n` values so that the nearest `count` come first; returns a mark that also splits them. */
  method Select(values: array<ChunkAddress>, n: nat, count: nat, center: ChunkAddress) returns (mark: nat)
    requires 0 < count < n <= values.Length && n <= 128
    modifies values
    ensures Rearranges(old(values[..n]), values[..n], 0, n) && values[n..] == old(values[n..])
    ensures mark < count && SplitAt(values[..n], count, center) && SplitAt(values[..n], mark, center)
  {
    hide *;
    ghost var start := values[..];
    var left: nat, right: nat := 0, n - 1;
    mark := 0;
    var iterations := 3 * BitLength(n - 2);
    var rounds := if iterations == 0 then 1 else iterations;
    var iteration := 0;
    SelectStarts(start, n, count, center);
    while iteration < rounds && left < right
      invariant left <= count <= right < n && iteration <= rounds
      invariant Selecting(start, values[..], n, count, left, right, mark, center)
      invariant iteration == rounds ==> SplitAt(values[..n], count, center)
      decreases rounds - iteration
    {
      var boundary;
      boundary, left, right, mark := Narrow(values, n, count, left, right, mark, start, center);
      if boundary == count {
        SelectDone(start, values[..], n, count, left, right, mark, center);
        return;
      }
      if iteration + 1 >= iterations {
        var scratch := new ChunkAddress[128](_ => ZERO_ADDRESS);
        ghost var before := values[..];
        StableSort(values, scratch, left, right + 1, center);
        SortStep(start, before, values[..], n, count, left, right, mark, center);
      }
      iteration := iteration + 1;
    }
    if left >= right {
      SelectExact(start, values[..], n, count, left, right, mark, center);
    }
    SelectDone(start, values[..], n, count, left, right, mark, center);
  }

  /** One round: partition, then keep the side that holds the cut. */
  method Narrow(values: array<ChunkAddress>, n: nat, count: nat, left: nat, right: nat, mark: nat, ghost start: seq<ChunkAddress>, center: ChunkAddress)
      returns (boundary: nat, l: nat, r: nat, m: nat)
    requires left < right < n <= values.Length && Selecting(start, values[..], n, count, left, right, mark, center)
    modifies values
    ensures Selecting(start, values[..], n, count, l, r, m, center) && l <= count <= r < n
    ensures boundary == count ==> SplitAt(values[..n], count, center)
  {
    hide *;
    ghost var before := values[..];
    boundary := Partition(values, left, right, center);
    SelectMoves(start, before, values[..], n, count, left, right, mark, center);
    l, r, m := left, right, mark;
    if boundary > count {
      r := boundary - 1;
    } else if boundary < count {
      l := if boundary > left then boundary else left + 1;
      m := boundary;
    }
    NarrowSelects(start, values[..], n, count, left, right, mark, boundary, l, r, m, center);
  }

  lemma NarrowSelects(start: seq<ChunkAddress>, s: seq<ChunkAddress>, n: nat, count: nat, left: nat, right: nat, mark: nat,
                      boundary: nat, l: nat, r: nat, m: nat, center: ChunkAddress)
    requires Selecting(start, s, n, count, left, right, mark, center) && Partitioned(s, left, boundary, right, center)
    requires r == (if boundary > count then boundary - 1 else right)
    requires if boundary < count then l == (if boundary > left then boundary else left + 1) && m == boundary else l == left && m == mark
    ensures Selecting(start, s, n, count, l, r, m, center) && l <= count <= r < n
    ensures boundary == count ==> SplitAt(s[..n], count, center)
  {
    PartitionedPrefix(s, n, left, boundary, right, center);
    NarrowStep(s[..n], count, left, right, mark, boundary, center);
  }

  lemma SelectStarts(s: seq<ChunkAddress>, n: nat, count: nat, center: ChunkAddress)
    requires 0 < count < n <= |s|
    ensures Selecting(s, s, n, count, 0, n - 1, 0, center)
  {
  }

  lemma SelectExact(start: seq<ChunkAddress>, s: seq<ChunkAddress>, n: nat, count: nat, left: nat, right: nat, mark: nat, center: ChunkAddress)
    requires Selecting(start, s, n, count, left, right, mark, center) && left >= right
    ensures SplitAt(s[..n], count, center)
  {
  }

  lemma PartitionedPrefix(s: seq<ChunkAddress>, n: nat, left: nat, boundary: nat, right: nat, center: ChunkAddress)
    requires Partitioned(s, left, boundary, right, center) && right < n <= |s|
    ensures Partitioned(s[..n], left, boundary, right, center)
  {
  }

  lemma WiderRearranges(s: seq<ChunkAddress>, t: seq<ChunkAddress>, left: nat, right: nat, n: nat)
    requires Rearranges(s, t, left, right) && right <= n <= |s|
    ensures Rearranges(s, t, 0, n)
  {
    PrefixRearranges(s, t, left, right, n);
    RearrangeIsPermutation(s[..n], t[..n], left, right);
    assert s[0..n] == s[..n] && t[0..n] == t[..n];
    assert s[n..] == s[right..][n - right..] && t[n..] == t[right..][n - right..];
  }

  lemma SelectMoves(start: seq<ChunkAddress>, before: seq<ChunkAddress>, after: seq<ChunkAddress>, n: nat, count: nat,
                    left: nat, right: nat, mark: nat, center: ChunkAddress)
    requires Selecting(start, before, n, count, left, right, mark, center)
    requires Rearranges(before, after, left, right + 1) && right < n
    ensures Selecting(start, after, n, count, left, right, mark, center)
  {
    WiderRearranges(before, after, left, right + 1, n);
    RearrangeChain(start, before, after, 0, n);
    PrefixRearranges(before, after, left, right + 1, n);
    NarrowedRearranged(before[..n], after[..n], count, left, right, mark, center);
  }

  lemma SortStep(start: seq<ChunkAddress>, before: seq<ChunkAddress>, after: seq<ChunkAddress>, n: nat, count: nat,
                 left: nat, right: nat, mark: nat, center: ChunkAddress)
    requires Selecting(start, before, n, count, left, right, mark, center) && left <= right < n <= |before| == |after|
    requires before[..left] == after[..left] && before[right + 1..] == after[right + 1..]
    requires StablySorts(before[left..right + 1], after[left..right + 1], center)
    ensures Selecting(start, after, n, count, left, right, mark, center)
    ensures SplitAt(after[..n], count, center)
  {
    SortRearranges(before, after, left, right + 1, center);
    SelectMoves(start, before, after, n, count, left, right, mark, center);
    assert after[..n][left..right + 1] == after[left..right + 1];
    SortedRangeSplits(after[..n], count, left, right, mark, center);
  }

  lemma SelectDone(start: seq<ChunkAddress>, s: seq<ChunkAddress>, n: nat, count: nat, left: nat, right: nat, mark: nat, center: ChunkAddress)
    requires Selecting(start, s, n, count, left, right, mark, center)
    ensures n <= |start| == |s| && Rearranges(start[..n], s[..n], 0, n) && s[n..] == start[n..]
    ensures mark < count && SplitAt(s[..n], mark, center)
  {
    PrefixRearranges(start, s, 0, n, n);
  }

  // ----- the collector -----

  /** Every kept position is at most `threshold` away and every rejected one at least that far. */
  ghost predicate Bounded(kept: seq<ChunkAddress>, rejected: multiset<ChunkAddress>, threshold: int, center: ChunkAddress) {
    && (forall p :: p in kept ==> Distance(p, center) <= threshold)
    && (forall p :: p in rejected ==> threshold <= Distance(p, center))
  }

  /** A sorted choice of the `count` nearest of all offered positions. */
  ghost predicate IsNearest(offered: multiset<ChunkAddress>, count: nat, chosen: seq<ChunkAddress>, center: ChunkAddress) {
    && Sorted(chosen, center) && multiset(chosen) <= offered
    && |chosen| == (if |offered| < count then |offered| else count)
    && (forall p, q :: p in chosen && q in offered - multiset(chosen) ==> Distance(p, center) <= Distance(q, center))
  }

  /** The collector's state: everything offered is kept or rejected, and nothing is rejected early. */
  ghost predicate Holding(kept: seq<ChunkAddress>, offered: multiset<ChunkAddress>, rejected: multiset<ChunkAddress>,
                          count: nat, threshold: int, center: ChunkAddress)
  {
    && offered == multiset(kept) + rejected
    && (|kept| < count ==> rejected == multiset{})
    && Bounded(kept, rejected, threshold, center)
  }

  /** Appending is right while the buffer is short, and afterwards for anything under the threshold. */
  lemma AppendKeeps(kept: seq<ChunkAddress>, offered: multiset<ChunkAddress>, rejected: multiset<ChunkAddress>,
                    count: nat, threshold: int, center: ChunkAddress, p: ChunkAddress, next: int)
    requires Holding(kept, offered, rejected, count, threshold, center)
    requires |kept| < count || Distance(p, center) < threshold
    requires next == if threshold < Distance(p, center) then Distance(p, center) else threshold
    ensures Holding(kept + [p], offered + multiset{p}, rejected, count, next, center)
  {
    hide Distance;
    assert forall q :: q in kept + [p] ==> q in kept || q == p;
  }

  lemma RejectKeeps(kept: seq<ChunkAddress>, offered: multiset<ChunkAddress>, rejected: multiset<ChunkAddress>,
                    count: nat, threshold: int, center: ChunkAddress, p: ChunkAddress)
    requires Holding(kept, offered, rejected, count, threshold, center)
    requires |kept| >= count && Distance(p, center) >= threshold
    ensures Holding(kept, offered + multiset{p}, rejected + multiset{p}, count, threshold, center)
  {
    hide Distance;
    assert forall q :: q in rejected + multiset{p} ==> q in rejected || q == p;
  }

  /** Cutting at `count` rejects only what is at least as far as the new threshold. */
  lemma CutKeeps(kept: seq<ChunkAddress>, after: seq<ChunkAddress>, offered: multiset<ChunkAddress>, rejected: multiset<ChunkAddress>,
                 count: nat, mark: nat, threshold: int, next: int, center: ChunkAddress)
    requires Holding(kept, offered, rejected, count, threshold, center)
    requires Rearranges(kept, after, 0, |kept|) && mark < count < |kept|
    requires SplitAt(after, count, center) && SplitAt(after, mark, center)
    requires forall i :: mark <= i < count ==> Distance(after[i], center) <= next
    requires exists i :: mark <= i < count && Distance(after[i], center) == next
    ensures Holding(after[..count], offered, rejected + multiset(after[count..]), count, next, center)
  {
    hide Distance;
    RearrangeIsPermutation(kept, after, 0, |kept|);
    assert after == after[..count] + after[count..];
    var m :| mark <= m < count && Distance(after[m], center) == next;
    assert after[m] in multiset(kept);
    forall p | p in after[..count] ensures Distance(p, center) <= next {
      var i :| 0 <= i < count && after[i] == p;
    }
    forall p | p in rejected + multiset(after[count..]) ensures next <= Distance(p, center) {
      if p !in rejected {
        assert p in after[count..];
        var j :| count <= j < |after| && after[j] == p;
      }
    }
  }

  /** What is left over is a rejected position or lies after the cut. */
  lemma FinishIsNearest(offered: multiset<ChunkAddress>, kept: seq<ChunkAddress>, sorted: seq<ChunkAddress>,
                        rejected: multiset<ChunkAddress>, threshold: int, count: nat, center: ChunkAddress)
    requires Holding(kept, offered, rejected, count, threshold, center) && StablySorts(kept, sorted, center)
    ensures IsNearest(offered, count, sorted[..if |sorted| < count then |sorted| else count], center)
  {
    hide Distance, SameOrder, Sorted;
    SameOrderIsPermutation(kept, sorted, center);
    assert |multiset(kept)| == |kept| && |multiset(sorted)| == |sorted|;
    var n := if |sorted| < count then |sorted| else count;
    var chosen, rest := sorted[..n], sorted[n..];
    assert sorted == chosen + rest;
    assert offered - multiset(chosen) == multiset(rest) + rejected;
    forall p | p in sorted ensures p in kept {
      assert p in multiset(sorted);
    }
    SortedCut(sorted, n, center);
  }

  lemma SortedCut(sorted: seq<ChunkAddress>, n: nat, center: ChunkAddress)
    requires Sorted(sorted, center) && n <= |sorted|
    ensures Sorted(sorted[..n], center)
    ensures forall p, q :: p in sorted[..n] && q in sorted[n..] ==> Distance(p, center) <= Distance(q, center)
  {
    hide Distance;
    forall p, q | p in sorted[..n] && q in sorted[n..] ensures Distance(p, center) <= Distance(q, center) {
      var i :| 0 <= i < n && sorted[i] == p;
      var j :| n <= j < |sorted| && sorted[j] == q;
    }
  }

  class Least {
    const values: array<ChunkAddress>
    const count: nat
    const center: ChunkAddress
    var len: nat
    var threshold: i32
    ghost var offered: multiset<ChunkAddress>
    ghost var rejected: multiset<ChunkAddress>

    ghost predicate Valid() reads this, values {
      && values.Length == 128 && 1 <= count <= 64 && len < 2 * count
      && Holding(values[..len], offered, rejected, count, threshold, center)
    }

    constructor (count: nat, center: ChunkAddress)
      requires 1 <= count <= 64
      ensures Valid() && fresh(values) && offered == multiset{} && this.count == count && this.center == center
    {
      this.count, this.center := count, center;
      values := new ChunkAddress[128](_ => ZERO_ADDRESS);
      len, threshold := 0, I32_MIN;
      offered, rejected := multiset{}, multiset{};
    }

    /** Keeps the position unless enough nearer ones are already known. */
    method Offer(position: ChunkAddress)
      requires Valid()
      modifies this, values
      ensures Valid() && offered == old(offered) + multiset{position}
    {
      hide Distance, Holding;
      var value := Distance(position, center);
      ghost var before := values[..len];
      if len < count || value < threshold {
        var next := if len < count && threshold < value then value else threshold;
        AppendKeeps(before, offered, rejected, count, threshold, center, position, next);
        var short := len < count;
        values[len] := position;
        assert values[..len + 1] == before + [position];
        len, threshold, offered := len + 1, next, offered + multiset{position};
        if !short && len == 2 * count {
          Trim();
        }
      } else {
        RejectKeeps(before, offered, rejected, count, threshold, center, position);
        offered, rejected := offered + multiset{position}, rejected + multiset{position};
      }
    }

    /** Cuts a full buffer back to the nearest `count` and tightens the threshold to their farthest. */
    method Trim()
      requires values.Length == 128 && 1 <= count <= 64 && len == 2 * count
      requires Holding(values[..len], offered, rejected, count, threshold, center)
      modifies this, values
      ensures Valid() && offered == old(offered)
    {
      hide Distance, Holding, SplitAt, Rearranges;
      ghost var kept := values[..len];
      var mark := Select(values, len, count, center);
      ghost var after := values[..len];
      var farthest := Farthest(values, mark, count, center);
      assert forall k :: mark <= k < count ==> after[k] == values[k];
      CutKeeps(kept, after, offered, rejected, count, mark, threshold, farthest, center);
      rejected := rejected + multiset(after[count..]);
      len := count;
      threshold := farthest;
      assert values[..len] == after[..count];
    }

    /** The nearest `count` of everything offered, nearest first. */
    method Finish() returns (chosen: seq<ChunkAddress>)
      requires Valid()
      modifies this, values
      ensures IsNearest(old(offered), count, chosen, center)
    {
      hide Distance, Holding, StablySorts, IsNearest;
      ghost var kept := values[..len];
      var scratch := new ChunkAddress[128](_ => ZERO_ADDRESS);
      assert values[0..len] == kept;
      StableSort(values, scratch, 0, len, center);
      FinishIsNearest(offered, kept, values[0..len], rejected, threshold, count, center);
      ghost var sorted := values[0..len];
      len := if len < count then len else count;
      chosen := values[..len];
      assert chosen == sorted[..len];
    }
  }

  method Farthest(values: array<ChunkAddress>, from: nat, to: nat, center: ChunkAddress) returns (farthest: i32)
    requires from < to <= values.Length
    ensures forall k :: from <= k < to ==> Distance(values[k], center) <= farthest
    ensures exists k :: from <= k < to && Distance(values[k], center) == farthest
  {
    hide Distance;
    farthest := Distance(values[from], center);
    for i := from to to
      invariant forall k :: from <= k < i ==> Distance(values[k], center) <= farthest
      invariant exists k :: from <= k < to && Distance(values[k], center) == farthest
    {
      if farthest < Distance(values[i], center) {
        farthest := Distance(values[i], center);
      }
    }
  }
}
