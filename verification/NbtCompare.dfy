/** Comparing without recursion: a stack of frames under budgets of work, depth and stack bytes. */
module NbtCompare {
  import opened World
  import opened Nbt
  import opened NbtMatch

  datatype CompareError = WorkLimit | TooDeep | StackLimit | AllocationLimit

  datatype CompareLimits = CompareLimits(maxDepth: nat, stackBytes: nat)

  datatype Ordering = Before | Same | After

  /** A comparison interrupted at a child. */
  datatype Frame =
    | CompoundFrame(entries: seq<Entry>, others: seq<Entry>, next: nat, mode: Mode)
    | SequenceFrame(values: seq<Tag>, actual: seq<Tag>, next: nat)
    | PartialFrame(values: seq<Tag>, actual: seq<Tag>, expectedIndex: nat, actualIndex: nat)

  /** What a pair or a resumed frame leads to: an answer, or a child to compare first. */
  datatype Step = Decided(matched: bool) | Descend(frame: Frame, expected: Option<Tag>, actual: Option<Tag>, mode: Mode)

  // ----- meaning of the stack -----

  ghost predicate PairOk(expected: Option<Tag>, actual: Option<Tag>) {
    (expected.Some? ==> Canonical(expected.value)) && (actual.Some? ==> Canonical(actual.value))
  }

  ghost predicate FrameOk(frame: Frame) {
    match frame
    case CompoundFrame(entries, others, next, mode) =>
      1 <= next <= |entries| && Canonical(CompoundTag(entries)) && Canonical(CompoundTag(others))
    case SequenceFrame(values, actual, next) =>
      1 <= next <= |values| == |actual| && Canonical(ListTag(values)) && Canonical(ListTag(actual))
    case PartialFrame(values, actual, i, j) =>
      i < |values| <= |actual| && j < |actual| && Canonical(ListTag(values)) && Canonical(ListTag(actual))
  }

  /** The frame's own answer, once its child's is known. */
  ghost predicate Finish(frame: Frame, matched: bool) {
    FrameOk(frame) && match frame
    case CompoundFrame(entries, others, next, mode) => matched && AllEntries(entries[next..], others, mode)
    case SequenceFrame(values, actual, next) => matched && AllPairs(values[next..], actual[next..])
    case PartialFrame(values, actual, i, j) => (matched || SomeMatch(values[i], actual[j + 1..])) && AllSome(values[i + 1..], actual)
  }

  ghost function FrameBound(frame: Frame): nat {
    if !FrameOk(frame) then 0 else match frame
    case CompoundFrame(entries, others, next, mode) => EntriesBound(entries[next..], others, mode)
    case SequenceFrame(values, actual, next) => PairsBound(values[next..], actual[next..])
    case PartialFrame(values, actual, i, j) => EachBound(values[i], actual[j + 1..]) + SomeBound(values[i + 1..], actual)
  }

  function FrameHeight(frame: Frame): nat {
    1 + if frame.CompoundFrame? then HeightIn(frame.entries) else HeightOf(frame.values)
  }

  function PairHeight(expected: Option<Tag>): nat {
    if expected.Some? then Height(expected.value) else 0
  }

  /** Every frame is sound and leaves room for the frames its children need. */
  ghost predicate Fits(frames: seq<Frame>, height: nat) {
    forall k :: 0 <= k < |frames| ==> FrameOk(frames[k]) && k + FrameHeight(frames[k]) <= height
  }

  ghost predicate Resume(frames: seq<Frame>, matched: bool)
    decreases |frames|
  {
    if frames == [] then matched else Resume(frames[..|frames| - 1], Finish(frames[|frames| - 1], matched))
  }

  ghost function StackBound(frames: seq<Frame>): nat
    decreases |frames|
  {
    if frames == [] then 0 else StackBound(frames[..|frames| - 1]) + FrameBound(frames[|frames| - 1])
  }

  /** A step has this meaning, cost and height. */
  ghost predicate Leads(step: Step, answer: bool, bound: nat, height: nat) {
    match step
    case Decided(matched) => matched == answer
    case Descend(frame, expected, actual, mode) =>
      && FrameOk(frame) && PairOk(expected, actual) && FrameHeight(frame) <= height && PairHeight(expected) < FrameHeight(frame)
      && Finish(frame, Matches(expected, actual, mode)) == answer
      && FrameBound(frame) + PairBound(expected, actual, mode) <= bound
  }

  lemma Pushed(frames: seq<Frame>, frame: Frame, matched: bool, height: nat)
    requires Fits(frames, height) && FrameOk(frame)
    ensures |frames| + FrameHeight(frame) <= height ==> Fits(frames + [frame], height)
    ensures Resume(frames + [frame], matched) == Resume(frames, Finish(frame, matched))
    ensures StackBound(frames + [frame]) == StackBound(frames) + FrameBound(frame)
  {
    assert (frames + [frame])[..|frames|] == frames;
  }

  lemma Popped(frames: seq<Frame>, matched: bool, height: nat)
    requires frames != [] && Fits(frames, height)
    ensures var rest, top := frames[..|frames| - 1], frames[|frames| - 1];
      && Fits(rest, height) && FrameOk(top) && |rest| + FrameHeight(top) <= height
      && Resume(frames, matched) == Resume(rest, Finish(top, matched))
      && StackBound(frames) == StackBound(rest) + FrameBound(top)
  {
  }

  lemma Empty(matched: bool, height: nat)
    ensures Fits([], height) && Resume([], matched) == matched && StackBound([]) == 0
  {
  }

  lemma LeadsTo(step: Step, answer: bool, bound: nat, tall: nat, frames: seq<Frame>, height: nat)
    requires Leads(step, answer, bound, tall) && Fits(frames, height) && |frames| + tall <= height
    ensures step.Decided? ==> step.matched == answer
    ensures step.Descend? ==>
      && FrameOk(step.frame) && Fits(frames + [step.frame], height)
      && PairOk(step.expected, step.actual) && |frames| + 1 + PairHeight(step.expected) <= height
      && Resume(frames + [step.frame], Matches(step.expected, step.actual, step.mode)) == Resume(frames, answer)
      && StackBound(frames + [step.frame]) + PairBound(step.expected, step.actual, step.mode) <= StackBound(frames) + bound
  {
    hide Matches, PairBound, Finish, FrameBound, Resume, StackBound, Fits, PairHeight, FrameHeight, FrameOk, PairOk;
    if step.Descend? {
      Pushed(frames, step.frame, Matches(step.expected, step.actual, step.mode), height);
    }
  }

  lemma CompoundAscending(entries: seq<Entry>)
    requires Canonical(CompoundTag(entries))
    ensures Ascending(entries)
  {
  }

  lemma TimesStep(less: nat, more: nat, each: nat)
    requires less < more && each > 0
    ensures Times(less, each) + each <= Times(more, each)
  {
    Monotone(less + 1, more, each);
    assert (less + 1) * each == less * each + each;
  }

  /** A larger buffer still keeps requests within their bound. */
  lemma GrowthFits(capacity: nat, grown: nat, size: nat, stackBytes: nat)
    requires size > 0 && capacity < grown <= stackBytes / size
    requires grown == stackBytes / size || grown == 2 * capacity || (grown == 4 && capacity <= 2)
    ensures Times(2 * capacity, size) + Times(grown, size) <= Times(if grown < stackBytes / size then 2 * grown else 3 * grown, size)
    ensures Times(2 * capacity, size) + Times(grown, size) <= 3 * stackBytes
  {
    var allowed := stackBytes / size;
    Distributes(2 * capacity, grown, size);
    Monotone(2 * capacity + grown, if grown < allowed then 2 * grown else 3 * grown, size);
    Monotone(2 * capacity + grown, allowed + allowed + allowed, size);
    Distributes(allowed, allowed, size);
    Distributes(allowed + allowed, allowed, size);
    QuotientTimes(stackBytes, size);
  }

  lemma Distributes(a: nat, b: nat, c: nat)
    ensures Times(a, c) + Times(b, c) == (a + b) * c == Times(a + b, c)
  {
  }

  lemma QuotientTimes(a: nat, b: nat)
    requires b > 0
    ensures Times(a / b, b) <= a
  {
    assert a == (a / b) * b + a % b;
  }

  lemma {:induction false} Monotone(a: nat, b: nat, c: nat)
    requires a <= b
    ensures a * c <= b * c
  {
  }

  // ----- descending -----

  lemma EntryChild(entries: seq<Entry>, others: seq<Entry>, next: nat, mode: Mode)
    requires Canonical(CompoundTag(entries)) && Canonical(CompoundTag(others)) && next < |entries|
    ensures var key, frame := entries[next].name, CompoundFrame(entries, others, next + 1, mode);
      var found := Lookup(others, key);
      && AllEntries(entries[next..], others, mode) == Finish(frame, Matches(Some(entries[next].value), found, mode))
      && EntriesBound(entries[next..], others, mode)
           == SearchBound(others, key) + FrameBound(frame) + PairBound(Some(entries[next].value), found, mode)
      && FrameOk(frame) && PairOk(Some(entries[next].value), found) && Height(entries[next].value) <= HeightIn(entries)
  {
    var found := Lookup(others, entries[next].name);
    assert entries[next..][1..] == entries[next + 1..];
    assert entries[next] in entries;
    HeightInChild(entries, next);
    if found.Some? {
      LookupFound(others, entries[next].name);
    }
  }

  lemma SequenceChild(values: seq<Tag>, actual: seq<Tag>, next: nat)
    requires Canonical(ListTag(values)) && Canonical(ListTag(actual)) && next < |values| == |actual|
    ensures var frame := SequenceFrame(values, actual, next + 1);
      && AllPairs(values[next..], actual[next..]) == Finish(frame, Matches(Some(values[next]), Some(actual[next]), Exact))
      && PairsBound(values[next..], actual[next..]) == FrameBound(frame) + PairBound(Some(values[next]), Some(actual[next]), Exact)
      && FrameOk(frame) && PairOk(Some(values[next]), Some(actual[next])) && Height(values[next]) <= HeightOf(values)
  {
    assert values[next..][1..] == values[next + 1..] && actual[next..][1..] == actual[next + 1..];
    assert values[next] in values && actual[next] in actual;
    HeightOfChild(values, next);
  }

  lemma SomeNext(e: Tag, actual: seq<Tag>, j: nat)
    requires j < |actual|
    ensures SomeMatch(e, actual[j..]) == (TagMatches(e, actual[j], PartialLists) || SomeMatch(e, actual[j + 1..]))
    ensures EachBound(e, actual[j..]) == 1 + TagBound(e, actual[j], PartialLists) + EachBound(e, actual[j + 1..])
  {
    hide TagMatches, TagBound;
    assert actual[j..][1..] == actual[j + 1..] && actual[j..][0] == actual[j];
  }

  lemma PartialChild(values: seq<Tag>, actual: seq<Tag>, i: nat, j: nat)
    requires Canonical(ListTag(values)) && Canonical(ListTag(actual)) && i < |values| <= |actual| && j < |actual|
    ensures var frame := PartialFrame(values, actual, i, j);
      && (SomeMatch(values[i], actual[j..]) && AllSome(values[i + 1..], actual))
           == Finish(frame, Matches(Some(values[i]), Some(actual[j]), PartialLists))
      && EachBound(values[i], actual[j..]) + SomeBound(values[i + 1..], actual)
           == FrameBound(frame) + PairBound(Some(values[i]), Some(actual[j]), PartialLists)
      && FrameOk(frame) && PairOk(Some(values[i]), Some(actual[j])) && Height(values[i]) <= HeightOf(values)
  {
    hide TagMatches, TagBound, Less, Ascending, Height, HeightOf, HeightIn, AllSome, SomeBound, Lookup, SomeMatch, EachBound;
    SomeNext(values[i], actual, j);
    assert values[i] in values && actual[j] in actual;
    HeightOfChild(values, i);
  }

  lemma NothingLeft(frame: Frame)
    requires FrameOk(frame)
    ensures frame.CompoundFrame? && frame.next == |frame.entries| ==> Finish(frame, true)
    ensures frame.SequenceFrame? && frame.next == |frame.values| ==> Finish(frame, true)
    ensures frame.PartialFrame? && frame.expectedIndex + 1 == |frame.values| ==> Finish(frame, true)
    ensures frame.PartialFrame? && frame.actualIndex + 1 == |frame.actual| ==> !Finish(frame, false)
  {
  }

  lemma NextPartial(values: seq<Tag>, actual: seq<Tag>, i: nat)
    requires i < |values|
    ensures AllSome(values[i..], actual) == (SomeMatch(values[i], actual[0..]) && AllSome(values[i + 1..], actual))
    ensures SomeBound(values[i..], actual) == EachBound(values[i], actual[0..]) + SomeBound(values[i + 1..], actual)
  {
    assert values[i..][1..] == values[i + 1..];
    assert actual[0..] == actual;
  }

  // ----- order of keys -----

  lemma {:induction false} LessAt(left: Units, right: Units, i: nat)
    requires i < |left| && i < |right| && left[..i] == right[..i] && left[i] != right[i]
    ensures left != right && Less(left, right) == (left[i] < right[i])
  {
    if i > 0 {
      assert left[0] == left[..i][0] && right[0] == right[..i][0];
      assert left[1..][..i - 1] == left[..i][1..] && right[1..][..i - 1] == right[..i][1..];
      LessAt(left[1..], right[1..], i - 1);
    }
  }

  lemma {:induction false} LessPrefix(left: Units, right: Units, n: nat)
    requires n == (if |left| < |right| then |left| else |right|) && left[..n] == right[..n]
    ensures Less(left, right) == (|left| < |right|) && (left == right) == (|left| == |right|)
  {
    if n > 0 {
      assert left[0] == left[..n][0] && right[0] == right[..n][0];
      assert left[1..][..n - 1] == left[..n][1..] && right[1..][..n - 1] == right[..n][1..];
      LessPrefix(left[1..], right[1..], n - 1);
      assert left == [left[0]] + left[1..] && right == [right[0]] + right[1..];
    }
  }

  ghost function OrderOf(left: Units, right: Units): Ordering {
    if left == right then Same else if Less(left, right) then Before else After
  }

  lemma LeafMatch(expected: Tag, actual: Tag, mode: Mode)
    requires !(expected.CompoundTag? && actual.CompoundTag?) && !(expected.ListTag? && actual.ListTag?)
    ensures TagMatches(expected, actual, mode) == LeafEq(expected, actual)
    ensures expected.StringTag? ==> TagBound(expected, actual, mode) == |expected.units|
    ensures expected.ByteArray? ==> TagBound(expected, actual, mode) == |expected.bytes|
    ensures expected.IntArray? ==> TagBound(expected, actual, mode) == |expected.ints|
    ensures expected.LongArray? ==> TagBound(expected, actual, mode) == |expected.longs|
  {
  }

  // ----- the budget -----

  class CompareBudget {
    const limits: CompareLimits
    const frameSize: nat
    var work: nat

    constructor (limits: CompareLimits, frameSize: nat, work: nat)
      ensures this.limits == limits && this.frameSize == frameSize && this.work == work
    {
      this.limits, this.frameSize, this.work := limits, frameSize, work;
    }

    /** An exhausted counter stays exhausted. */
    method ChargeWork(units: nat) returns (r: Result<(), CompareError>)
      modifies `work
      ensures old(work) >= units ==> r == Ok(()) && work == old(work) - units
      ensures old(work) < units ==> r == Err(WorkLimit) && work == 0
    {
      if work < units {
        work := 0;
        return Err(WorkLimit);
      }
      work := work - units;
      r := Ok(());
    }

    method StringOrder(left: Units, right: Units) returns (r: Result<Ordering, CompareError>)
      modifies `work
      ensures r.Ok? ==> r.value == OrderOf(left, right) && work <= old(work) <= work + |left|
      ensures r.Err? ==> r == Err(WorkLimit) && work == 0 && old(work) < |left|
    {
      hide Less;
      var n := if |left| < |right| then |left| else |right|;
      for i := 0 to n
        invariant left[..i] == right[..i] && work <= old(work) == work + i
      {
        var paid := ChargeWork(1);
        if paid.Err? {
          return Err(WorkLimit);
        }
        if left[i] != right[i] {
          LessAt(left, right, i);
          return Ok(if left[i] < right[i] then Before else After);
        }
      }
      LessPrefix(left, right, n);
      r := Ok(if |left| == |right| then Same else if |left| < |right| then Before else After);
    }

    /** Binary search for a child, every probe and character charged. */
    method Child(entries: seq<Entry>, key: Units) returns (r: Result<Option<Tag>, CompareError>)
      requires Ascending(entries)
      modifies `work
      ensures r.Ok? ==> r.value == Lookup(entries, key) && work <= old(work) <= work + SearchBound(entries, key)
      ensures r.Err? ==> r == Err(WorkLimit) && work == 0 && old(work) < SearchBound(entries, key)
    {
      hide Less, Lookup, Times;
      var low: nat, high: nat := 0, |entries|;
      ghost var each := 1 + |key|;
      while low < high
        invariant low <= high <= |entries|
        invariant forall i :: 0 <= i < low ==> Less(entries[i].name, key)
        invariant forall i :: high <= i < |entries| ==> Less(key, entries[i].name)
        invariant work <= old(work) && old(work) - work + Times(high - low, each) <= Times(|entries|, each)
        decreases high - low
      {
        var middle := low + (high - low) / 2;
        TimesStep(middle - low, high - low, each);
        TimesStep(high - middle - 1, high - low, each);
        var paid := ChargeWork(1);
        if paid.Err? {
          return Err(WorkLimit);
        }
        var order := StringOrder(key, entries[middle].name);
        if order.Err? {
          return Err(WorkLimit);
        }
        LessTotal(key, entries[middle].name);
        match order.value
        case Before =>
          forall i | middle < i < |entries| ensures Less(key, entries[i].name) {
            LessTransitive(key, entries[middle].name, entries[i].name);
          }
          high := middle;
        case After =>
          forall i | 0 <= i < middle ensures Less(entries[i].name, key) {
            LessTransitive(entries[i].name, entries[middle].name, key);
          }
          low := middle + 1;
        case Same =>
          LookupAt(entries, middle);
          return Ok(Some(entries[middle].value));
      }
      LessIrreflexive(key);
      LookupMissing(entries, key);
      r := Ok(None);
    }

    method ArrayEqual(left: seq<int>, right: seq<int>) returns (r: Result<bool, CompareError>)
      modifies `work
      ensures r.Ok? ==> r.value == (left == right) && work <= old(work) <= work + |left|
      ensures r.Err? ==> r == Err(WorkLimit) && work == 0 && old(work) < |left|
    {
      if |left| != |right| {
        return Ok(false);
      }
      for i := 0 to |left|
        invariant left[..i] == right[..i] && work <= old(work) == work + i
      {
        var paid := ChargeWork(1);
        if paid.Err? {
          return Err(WorkLimit);
        }
        if left[i] != right[i] {
          return Ok(false);
        }
      }
      assert left[..|left|] == left && right[..|right|] == right;
      r := Ok(true);
    }

    method PrimitiveEqual(expected: Tag, actual: Tag, ghost mode: Mode) returns (r: Result<bool, CompareError>)
      requires !(expected.CompoundTag? && actual.CompoundTag?) && !(expected.ListTag? && actual.ListTag?)
      modifies `work
      ensures r.Ok? ==> r.value == TagMatches(expected, actual, mode) && work <= old(work) <= work + TagBound(expected, actual, mode)
      ensures r.Ok? && !expected.FloatTag? && !expected.DoubleTag? ==> (r.value <==> expected == actual)
      ensures r.Err? ==> r == Err(WorkLimit) && work == 0 && old(work) < TagBound(expected, actual, mode)
    {
      hide TagMatches, TagBound, IsNan32, IsNan64, Less;
      LeafMatch(expected, actual, mode);
      LeavesMatch(expected, actual, mode);
      match (expected, actual)
      case (StringTag(a), StringTag(b)) =>
        var order := StringOrder(a, b);
        r := if order.Err? then Err(order.error) else Ok(order.value == Same);
      case (ByteArray(a), ByteArray(b)) => r := ArrayEqual(a, b);
      case (IntArray(a), IntArray(b)) => r := ArrayEqual(a, b);
      case (LongArray(a), LongArray(b)) => r := ArrayEqual(a, b);
      case _ => r := Ok(LeafEq(expected, actual));
    }

    /** One pair: answered at once, or its first child comes first. `same` says both are one object. */
    method Start(expected: Option<Tag>, actual: Option<Tag>, mode: Mode, same: bool) returns (r: Result<Step, CompareError>)
      requires PairOk(expected, actual) && (same ==> expected == actual)
      modifies `work
      ensures r.Ok? ==> work < old(work) && old(work) - work <= PairBound(expected, actual, mode)
      ensures r.Ok? ==> Leads(r.value, Matches(expected, actual, mode), PairBound(expected, actual, mode) - (old(work) - work), PairHeight(expected))
      ensures r.Err? ==> r == Err(WorkLimit) && work == 0 && old(work) < PairBound(expected, actual, mode)
    {
      hide Lookup, SearchBound, Canonical, LeafEq;
      var paid := ChargeWork(1);
      if paid.Err? {
        return Err(WorkLimit);
      }
      if expected.None? {
        return Ok(Decided(true));
      }
      if actual.None? {
        return Ok(Decided(false));
      }
      if same {
        Reflexive(expected.value, mode);
        return Ok(Decided(true));
      }
      if expected.value.CompoundTag? && actual.value.CompoundTag? {
        r := StartCompound(expected.value.entries, actual.value.entries, mode);
      } else if expected.value.ListTag? && actual.value.ListTag? {
        var step := StartList(expected.value.values, actual.value.values, mode);
        r := Ok(step);
      } else {
        var equal := PrimitiveEqual(expected.value, actual.value, mode);
        r := if equal.Err? then Err(equal.error) else Ok(Decided(equal.value));
      }
    }

    method StartCompound(entries: seq<Entry>, others: seq<Entry>, mode: Mode) returns (r: Result<Step, CompareError>)
      requires Canonical(CompoundTag(entries)) && Canonical(CompoundTag(others))
      modifies `work
      ensures r.Ok? ==> work <= old(work) && old(work) - work <= EntriesBound(entries, others, mode)
      ensures r.Ok? ==> Leads(r.value, TagMatches(CompoundTag(entries), CompoundTag(others), mode),
                              EntriesBound(entries, others, mode) - (old(work) - work), Height(CompoundTag(entries)))
      ensures r.Err? ==> r == Err(WorkLimit) && work == 0 && old(work) < EntriesBound(entries, others, mode)
    {
      hide Lookup, SearchBound, HeightIn, FrameBound, Finish, Matches, PairOk, FrameOk;
      if |others| < |entries| || (mode == Exact && |entries| != |others|) {
        return Ok(Decided(false));
      }
      if entries == [] {
        return Ok(Decided(true));
      }
      EntryChild(entries, others, 0, mode);
      assert entries[0..] == entries;
      var found := Child(others, entries[0].name);
      if found.Err? {
        return Err(WorkLimit);
      }
      r := Ok(Descend(CompoundFrame(entries, others, 1, mode), Some(entries[0].value), found.value, mode));
    }

    method StartList(values: seq<Tag>, actual: seq<Tag>, mode: Mode) returns (step: Step)
      requires Canonical(ListTag(values)) && Canonical(ListTag(actual))
      ensures Leads(step, TagMatches(ListTag(values), ListTag(actual), mode), TagBound(ListTag(values), ListTag(actual), mode), Height(ListTag(values)))
    {
      hide HeightOf, FrameBound, Finish, Matches, PairOk, FrameOk, PairBound;
      if values == [] {
        return Decided(actual == []);
      }
      if |actual| < |values| || (mode != PartialLists && |values| != |actual|) {
        return Decided(false);
      }
      assert values[0..] == values && actual[0..] == actual;
      if mode == PartialLists {
        NextPartial(values, actual, 0);
        PartialChild(values, actual, 0, 0);
        return Descend(PartialFrame(values, actual, 0, 0), Some(values[0]), Some(actual[0]), PartialLists);
      }
      SequenceChild(values, actual, 0);
      step := Descend(SequenceFrame(values, actual, 1), Some(values[0]), Some(actual[0]), Exact);
    }

    /** A frame whose child answered: an answer of its own, or the next child. */
    method Continue(frame: Frame, matched: bool) returns (r: Result<Step, CompareError>)
      requires FrameOk(frame)
      modifies `work
      ensures r.Ok? ==> work <= old(work) && old(work) - work <= FrameBound(frame)
      ensures r.Ok? ==> Leads(r.value, Finish(frame, matched), FrameBound(frame) - (old(work) - work), FrameHeight(frame))
      ensures r.Err? ==> r == Err(WorkLimit) && work == 0 && old(work) < FrameBound(frame)
    {
      hide Lookup, SearchBound, HeightIn, HeightOf, Matches, PairOk, PairBound, Canonical, AllEntries, AllPairs, AllSome, SomeMatch, EntriesBound, PairsBound, SomeBound, EachBound;
      NothingLeft(frame);
      match frame
      case CompoundFrame(entries, others, next, mode) =>
        if !matched || next == |entries| {
          return Ok(Decided(matched));
        }
        EntryChild(entries, others, next, mode);
        CompoundAscending(others);
        var found := Child(others, entries[next].name);
        if found.Err? {
          return Err(WorkLimit);
        }
        r := Ok(Descend(CompoundFrame(entries, others, next + 1, mode), Some(entries[next].value), found.value, mode));
      case SequenceFrame(values, actual, next) =>
        if !matched || next == |values| {
          return Ok(Decided(matched));
        }
        SequenceChild(values, actual, next);
        r := Ok(Descend(SequenceFrame(values, actual, next + 1), Some(values[next]), Some(actual[next]), Exact));
      case PartialFrame(values, actual, expectedIndex, actualIndex) =>
        var i: nat, j: nat := expectedIndex, actualIndex + 1;
        if matched {
          i, j := expectedIndex + 1, 0;
        }
        if i < |values| && j < |actual| {
          NextPartial(values, actual, i);
          PartialChild(values, actual, i, j);
          return Ok(Descend(PartialFrame(values, actual, i, j), Some(values[i]), Some(actual[j]), PartialLists));
        }
        r := Ok(Decided(matched));
    }

    // ----- the stack -----

    /** Requested bytes so far: twice the capacity, and once more when it is the largest allowed. */
    ghost predicate Requested(begin: nat, left: nat, capacity: nat) {
      && left <= begin && frameSize > 0 && capacity <= limits.stackBytes / frameSize
      && begin - left <= Times(if capacity < limits.stackBytes / frameSize then 2 * capacity else 3 * capacity, frameSize)
    }

    lemma NothingRequested(begin: nat)
      requires frameSize > 0
      ensures Requested(begin, begin, 0)
    {
    }

    method Push(frames: seq<Frame>, capacity: nat, frame: Frame, left: nat, ghost begin: nat)
        returns (r: Result<(nat, nat), CompareError>)
      requires Requested(begin, left, capacity) && |frames| <= capacity
      ensures r.Ok? ==> Requested(begin, r.value.1, r.value.0) && |frames| < r.value.0
      ensures r.Err? ==> match r.error
                         case WorkLimit => false
                         case TooDeep => |frames| >= limits.maxDepth
                         case StackLimit => |frames| >= limits.stackBytes / frameSize
                         case AllocationLimit => begin < 3 * limits.stackBytes
    {
      if |frames| >= limits.maxDepth {
        return Err(TooDeep);
      }
      var allowed := limits.stackBytes / frameSize;
      if |frames| >= allowed {
        return Err(StackLimit);
      }
      if |frames| < capacity {
        return Ok((capacity, left));
      }
      var grown := if 2 * capacity < 4 then 4 else 2 * capacity;
      if grown > allowed {
        grown := allowed;
      }
      if grown <= |frames| {
        return Err(StackLimit);
      }
      GrowthFits(capacity, grown, frameSize, limits.stackBytes);
      if left < Times(grown, frameSize) {
        return Err(AllocationLimit);
      }
      r := Ok((grown, left - Times(grown, frameSize)));
    }

    /** Nothing expected always matches, a missing value never does, and exactness without floats is equality. */
    static lemma PairMeans(expected: Option<Tag>, actual: Option<Tag>, mode: Mode)
      requires PairOk(expected, actual)
      ensures expected.None? ==> Matches(expected, actual, mode)
      ensures expected.Some? && actual.None? ==> !Matches(expected, actual, mode)
      ensures mode == Exact && expected.Some? && FloatFree(expected.value) ==> (Matches(expected, actual, mode) <==> expected == actual)
    {
      if mode == Exact && expected.Some? && actual.Some? && FloatFree(expected.value) {
        ExactMeansEqual(expected.value, actual.value);
      }
    }

    /**
     The recursive answer, whatever pairs happen to share an object (`aliased`); and every
     refusal is justified by a budget the comparison really could exceed.
     */
    method Run(expected: Option<Tag>, actual: Option<Tag>, mode: Mode, allocation: nat, aliased: nat -> bool)
        returns (r: Result<bool, CompareError>, left: nat)
      requires PairOk(expected, actual) && frameSize > 0
      modifies `work
      ensures r.Ok? ==> r.value == Matches(expected, actual, mode)
      ensures r.Ok? ==> (expected.None? ==> r.value) && (expected.Some? && actual.None? ==> !r.value)
      ensures r.Ok? && mode == Exact && expected.Some? && FloatFree(expected.value) ==> (r.value <==> expected == actual)
      ensures left <= allocation && work <= old(work) && old(work) - work <= PairBound(expected, actual, mode)
      ensures r.Err? ==> match r.error
                         case WorkLimit => work == 0 && old(work) < PairBound(expected, actual, mode)
                         case TooDeep => limits.maxDepth < PairHeight(expected)
                         case StackLimit => limits.stackBytes / frameSize < PairHeight(expected)
                         case AllocationLimit => allocation < 3 * limits.stackBytes
    {
      hide *;
      PairMeans(expected, actual, mode);
      var frames: seq<Frame>, capacity: nat := [], 0;
      left := allocation;
      var current := Some((expected, actual, mode));
      var matched, count: nat := true, 0;
      ghost var height, bound := PairHeight(expected), PairBound(expected, actual, mode);
      ghost var want := Matches(expected, actual, mode);
      NothingRequested(allocation);
      Empty(want, height);
      while true
        invariant Fits(frames, height) && |frames| <= capacity && Requested(allocation, left, capacity) && left <= allocation
        invariant current.Some? ==> PairOk(current.value.0, current.value.1) && |frames| + PairHeight(current.value.0) <= height
        invariant current.Some? ==> want == Resume(frames, Matches(current.value.0, current.value.1, current.value.2))
        invariant current.None? ==> want == Resume(frames, matched)
        invariant work <= old(work)
        invariant old(work) - work + StackBound(frames)
                  + (if current.Some? then PairBound(current.value.0, current.value.1, current.value.2) else 0) <= bound
        decreases work, current.None?, |frames|
      {
        var step: Step;
        ghost var answer, room, tall := want, 0, 0;
        ghost var before := work;
        if current.Some? {
          var (e0, a0, m0) := current.value;
          var started := Start(e0, a0, m0, aliased(count) && e0 == a0);
          count := count + 1;
          if started.Err? {
            return Err(WorkLimit), left;
          }
          step := started.value;
          answer, tall := Matches(e0, a0, m0), PairHeight(e0);
          room := PairBound(e0, a0, m0) - (before - work);
        } else {
          if frames == [] {
            Empty(matched, height);
            return Ok(matched), left;
          }
          var top := frames[|frames| - 1];
          Popped(frames, matched, height);
          frames := frames[..|frames| - 1];
          var continued := Continue(top, matched);
          if continued.Err? {
            return Err(WorkLimit), left;
          }
          step := continued.value;
          answer, tall := Finish(top, matched), FrameHeight(top);
          room := FrameBound(top) - (before - work);
        }
        LeadsTo(step, answer, room, tall, frames, height);
        match step
        case Decided(b) =>
          matched, current := b, None;
        case Descend(frame, e, a, m) =>
          var pushed := Push(frames, capacity, frame, left, allocation);
          if pushed.Err? {
            return Err(pushed.error), left;
          }
          frames := frames + [frame];
          capacity, left, current := pushed.value.0, pushed.value.1, Some((e, a, m));
      }
    }
  }
}
