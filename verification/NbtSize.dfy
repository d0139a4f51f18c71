/** Sizing without recursion: a fixed array of 512 frames replaces the writer's call stack. */
module NbtSize {
  import opened World
  import opened Nbt
  import opened NbtWrite

  datatype Frame =
    | Empty
    | CompoundFrame(entries: seq<Entry>, depth: nat)
    | ListFrame(values: seq<Tag>, depth: nat, raw: u8, closeWrapper: bool)

  const FRAMES: nat := 512

  // ----- what the frames still have to size -----

  /** Finishes one frame as the recursive size would. */
  ghost function Finish(frame: Frame, used: nat, limits: Limits): Result<nat, NbtError> {
    match frame
    case Empty => Ok(used)
    case CompoundFrame(entries, depth) => SizeEntries(entries, depth, used, limits)
    case ListFrame(values, depth, raw, closeWrapper) =>
      if closeWrapper then
        var closed := Add(used, 1, limits);
        if closed.Err? then closed else SizeValues(values, raw, depth, closed.value, limits)
      else SizeValues(values, raw, depth, used, limits)
  }

  ghost function Resume(frames: seq<Frame>, used: nat, limits: Limits): Result<nat, NbtError>
    decreases |frames|, 0
  {
    if frames == [] then Ok(used)
    else Then(Finish(frames[|frames| - 1], used, limits), frames[..|frames| - 1], limits)
  }

  ghost function Then(first: Result<nat, NbtError>, frames: seq<Frame>, limits: Limits): Result<nat, NbtError>
    decreases |frames|, 1
  {
    if first.Err? then first else Resume(frames, first.value, limits)
  }

  /** Each frame sits at least as deep as its place in the stack: depth bounds the frames. */
  ghost predicate Deep(frames: seq<Frame>) {
    forall k :: 0 <= k < |frames| ==> !frames[k].Empty? && FrameDepth(frames[k]) >= k + 1
  }

  function FrameDepth(frame: Frame): nat {
    match frame
    case Empty => 0
    case CompoundFrame(_, depth) => depth
    case ListFrame(_, depth, _, _) => depth
  }

  // ----- steps left -----

  ghost function Visits(tag: Tag): nat
    decreases tag, 0
  {
    match tag
    case ListTag(values) => 2 + VisitsOf(values)
    case CompoundTag(entries) => 2 + VisitsIn(entries)
    case _ => 1
  }

  ghost function VisitsOf(values: seq<Tag>): nat
    decreases values, 0
  {
    if values == [] then 0 else 1 + Visits(values[0]) + VisitsOf(values[1..])
  }

  ghost function VisitsIn(entries: seq<Entry>): nat
    decreases entries, 0
  {
    if entries == [] then 0 else 1 + Visits(entries[0].value) + VisitsIn(entries[1..])
  }

  ghost function FrameSteps(frame: Frame): nat {
    match frame
    case Empty => 0
    case CompoundFrame(entries, _) => 1 + VisitsIn(entries)
    case ListFrame(values, _, _, _) => 1 + VisitsOf(values)
  }

  ghost function Steps(frames: seq<Frame>): nat {
    if frames == [] then 0 else Steps(frames[..|frames| - 1]) + FrameSteps(frames[|frames| - 1])
  }

  lemma Pushed(frames: seq<Frame>, frame: Frame, used: nat, limits: Limits)
    ensures Resume(frames + [frame], used, limits) == Then(Finish(frame, used, limits), frames, limits)
    ensures Steps(frames + [frame]) == Steps(frames) + FrameSteps(frame)
    ensures Deep(frames) && !frame.Empty? && FrameDepth(frame) >= |frames| + 1 ==> Deep(frames + [frame])
  {
    assert (frames + [frame])[..|frames|] == frames;
  }

  lemma Popped(frames: seq<Frame>, used: nat, limits: Limits)
    requires frames != []
    ensures var rest, top := frames[..|frames| - 1], frames[|frames| - 1];
      && Resume(frames, used, limits) == Then(Finish(top, used, limits), rest, limits)
      && Steps(frames) == Steps(rest) + FrameSteps(top)
      && frames == rest + [top] && (Deep(frames) ==> Deep(rest) && !top.Empty? && FrameDepth(top) >= |frames|)
  {
  }

  lemma ContainerSize(tag: Tag, depth: nat, used: nat, limits: Limits)
    ensures tag.CompoundTag? ==>
      && SizeTag(tag, depth, used, limits) ==
           (if depth >= limits.maxDepth then Err(DepthLimit) else Finish(CompoundFrame(tag.entries, depth + 1), used, limits))
      && Visits(tag) == 1 + FrameSteps(CompoundFrame(tag.entries, depth + 1))
    ensures tag.ListTag? ==>
      var raw: u8 := if ElementType(tag.values).Ok? then ElementType(tag.values).value else 0;
      var head := SizeListHead(tag.values, depth, used, limits);
      && SizeTag(tag, depth, used, limits) == (if head.Err? then head else Finish(ListFrame(tag.values, depth + 1, raw, false), head.value, limits))
      && Visits(tag) == 1 + FrameSteps(ListFrame(tag.values, depth + 1, raw, false))
    ensures Visits(tag) >= 1
  {
    hide SizeListHead, ElementType;
  }

  /** Taking an entry splits what the frame had left. */
  lemma EntryTaken(entries: seq<Entry>, depth: nat, used: nat, limits: Limits, frames: seq<Frame>)
    requires entries != []
    ensures var frame, rest := CompoundFrame(entries, depth), CompoundFrame(entries[1..], depth);
      var head := SizeEntryHead(entries[0], used, limits);
      && Then(Finish(frame, used, limits), frames, limits) ==
           (if head.Err? then head else Then(SizeTag(entries[0].value, depth, head.value, limits), frames + [rest], limits))
      && FrameSteps(frame) == 1 + Visits(entries[0].value) + FrameSteps(rest)
  {
    hide SizeEntryHead, SizeTag;
    var head := SizeEntryHead(entries[0], used, limits);
    if head.Ok? {
      var value := SizeTag(entries[0].value, depth, head.value, limits);
      if value.Ok? {
        Pushed(frames, CompoundFrame(entries[1..], depth), value.value, limits);
      }
    }
  }

  lemma EntriesDone(depth: nat, used: nat, limits: Limits, frames: seq<Frame>)
    ensures Then(Finish(CompoundFrame([], depth), used, limits), frames, limits) == Then(Add(used, 1, limits), frames, limits)
    ensures FrameSteps(CompoundFrame([], depth)) == 1
  {
  }

  lemma WrapperClosed(values: seq<Tag>, depth: nat, raw: u8, used: nat, limits: Limits)
    ensures Finish(ListFrame(values, depth, raw, true), used, limits) ==
      if Add(used, 1, limits).Err? then Add(used, 1, limits) else Finish(ListFrame(values, depth, raw, false), Add(used, 1, limits).value, limits)
    ensures FrameSteps(ListFrame(values, depth, raw, true)) == FrameSteps(ListFrame(values, depth, raw, false))
  {
  }

  lemma ValueTaken(values: seq<Tag>, depth: nat, raw: u8, used: nat, limits: Limits, frames: seq<Frame>)
    requires values != []
    ensures var frame, wrap := ListFrame(values, depth, raw, false), NeedsWrapper(raw, values[0]);
      var rest := ListFrame(values[1..], depth, raw, wrap);
      var head := if wrap then SizeWrapperHead(depth, used, limits) else Ok(used);
      && Then(Finish(frame, used, limits), frames, limits) ==
           (if head.Err? then head
            else Then(SizeTag(values[0], if wrap then depth + 1 else depth, head.value, limits), frames + [rest], limits))
      && FrameSteps(frame) == 1 + Visits(values[0]) + FrameSteps(rest)
  {
    hide SizeTag, SizeWrapperHead, NeedsWrapper;
    var wrap := NeedsWrapper(raw, values[0]);
    var rest := ListFrame(values[1..], depth, raw, wrap);
    var head := if wrap then SizeWrapperHead(depth, used, limits) else Ok(used);
    var first := SizeValue(values[0], raw, depth, used, limits);
    assert SizeValues(values, raw, depth, used, limits) ==
      if first.Err? then first else SizeValues(values[1..], raw, depth, first.value, limits);
    if head.Ok? {
      var value := SizeTag(values[0], if wrap then depth + 1 else depth, head.value, limits);
      if value.Ok? {
        Pushed(frames, rest, value.value, limits);
      }
    }
  }

  lemma ValuesDone(depth: nat, raw: u8, used: nat, limits: Limits, frames: seq<Frame>)
    ensures Then(Finish(ListFrame([], depth, raw, false), used, limits), frames, limits) == Resume(frames, used, limits)
    ensures FrameSteps(ListFrame([], depth, raw, false)) == 1
  {
  }

  // ----- the machine -----

  method AddUnits(units: Units, used: nat, limits: Limits) returns (r: Result<nat, NbtError>)
    ensures r == AddString(units, used, limits)
  {
    hide Mutf8;
    var length := Mutf8Length(units);
    r := if length.Err? then Err(length.error) else Add(used, length.value + 2, limits);
  }

  /** Sizes a leaf, or a container's header and pushes its frame. */
  method Visit(tag: Tag, depth: nat, frames: array<Frame>, count: nat, used: nat, limits: Limits)
      returns (r: Result<nat, NbtError>, after: nat)
    requires frames.Length == FRAMES && limits.maxDepth <= 512 && count <= depth && count <= FRAMES && Deep(frames[..count])
    modifies frames
    ensures r.Err? ==> SizeTag(tag, depth, used, limits) == r
    ensures r.Ok? ==> after <= FRAMES && Deep(frames[..after])
                      && Resume(frames[..after], r.value, limits) == Then(SizeTag(tag, depth, used, limits), old(frames[..count]), limits)
                      && Steps(frames[..after]) < Steps(old(frames[..count])) + Visits(tag)
  {
    hide Deep, Resume, Then, Steps, SizeTag, SizeListHead, ElementType, AddString, AddArray, Finish, FrameSteps, Visits;
    ghost var stack := frames[..count];
    ContainerSize(tag, depth, used, limits);
    after := count;
    match tag
    case ListTag(values) =>
      r := ListHead(values, depth, used, limits);
      if r.Err? {
        return;
      }
      var raw := ListElementType(values);
      var frame := ListFrame(values, depth + 1, raw.value, false);
      frames[count] := frame;
      after := count + 1;
      assert frames[..after] == stack + [frame];
      Pushed(stack, frame, r.value, limits);
      ThenOk(r.value, stack, limits);
    case CompoundTag(entries) =>
      if depth >= limits.maxDepth {
        return Err(DepthLimit), count;
      }
      var frame := CompoundFrame(entries, depth + 1);
      frames[count] := frame;
      after := count + 1;
      assert frames[..after] == stack + [frame];
      r := Ok(used);
      Pushed(stack, frame, used, limits);
    case _ =>
      r := Leaf(tag, depth, used, limits);
      if r.Ok? {
        ThenOk(r.value, stack, limits);
      }
  }

  lemma ThenOk(used: nat, frames: seq<Frame>, limits: Limits)
    ensures Then(Ok(used), frames, limits) == Resume(frames, used, limits)
  {
  }

  method ListHead(values: seq<Tag>, depth: nat, used: nat, limits: Limits) returns (r: Result<nat, NbtError>)
    ensures r == SizeListHead(values, depth, used, limits)
  {
    hide ElementType;
    if depth >= limits.maxDepth {
      return Err(DepthLimit);
    }
    var raw := ListElementType(values);
    if raw.Err? {
      return Err(raw.error);
    }
    r := Add(used, 1, limits);
    if r.Ok? {
      r := AddLength(|values|, r.value, limits);
    }
  }

  method Leaf(tag: Tag, depth: nat, used: nat, limits: Limits) returns (r: Result<nat, NbtError>)
    requires !tag.ListTag? && !tag.CompoundTag?
    ensures r == SizeTag(tag, depth, used, limits)
  {
    hide AddString;
    match tag
    case End => r := Ok(used);
    case ByteTag(_) => r := Add(used, 1, limits);
    case ShortTag(_) => r := Add(used, 2, limits);
    case IntTag(_) => r := Add(used, 4, limits);
    case FloatTag(_) => r := Add(used, 4, limits);
    case LongTag(_) => r := Add(used, 8, limits);
    case DoubleTag(_) => r := Add(used, 8, limits);
    case ByteArray(v) => r := AddArray(|v|, 1, used, limits);
    case IntArray(v) => r := AddArray(|v|, 4, used, limits);
    case LongArray(v) => r := AddArray(|v|, 8, used, limits);
    case StringTag(units) => r := AddUnits(units, used, limits);
  }

  /** Finishes spent frames until one yields its next child; none left means done. */
  method Advance(frames: array<Frame>, start: nat, begin: nat, limits: Limits)
      returns (r: Result<nat, NbtError>, count: nat, current: Option<(Tag, nat)>)
    requires frames.Length == FRAMES && start <= FRAMES && Deep(frames[..start])
    modifies frames
    ensures r.Err? ==> r == Resume(old(frames[..start]), begin, limits)
    ensures r.Ok? ==> count <= FRAMES && Deep(frames[..count])
    ensures r.Ok? && current.Some? ==>
      && count <= current.value.1
      && Resume(old(frames[..start]), begin, limits) == Then(SizeTag(current.value.0, current.value.1, r.value, limits), frames[..count], limits)
      && Steps(frames[..count]) + Visits(current.value.0) <= Steps(old(frames[..start]))
    ensures r.Ok? && current.None? ==> Resume(old(frames[..start]), begin, limits) == r
  {
    hide Deep, Resume, Then, Steps, SizeTag, AddString, Finish, FrameSteps, Visits, NeedsWrapper, FrameDepth;
    var used := begin;
    count, current := start, None;
    ghost var want := Resume(frames[..start], begin, limits);
    ghost var steps := Steps(frames[..start]);
    while count != 0
      invariant count <= FRAMES && Deep(frames[..count])
      invariant want == Resume(frames[..count], used, limits) && Steps(frames[..count]) <= steps
      decreases Steps(frames[..count])
    {
      ghost var rest := frames[..count - 1];
      Popped(frames[..count], used, limits);
      assert frames[..count][..count - 1] == rest;
      var top := frames[count - 1];
      match top
      case CompoundFrame(entries, depth) =>
        DepthOf(top);
        if entries != [] {
          EntryTaken(entries, depth, used, limits, rest);
          r := EntryHead(entries[0], used, limits);
          if r.Err? {
            return;
          }
          var left := CompoundFrame(entries[1..], depth);
          frames[count - 1] := left;
          assert frames[..count] == rest + [left];
          DepthOf(left);
          Pushed(rest, left, 0, limits);
          current := Some((entries[0].value, depth));
          return;
        }
        EntriesDone(depth, used, limits, rest);
        r := Add(used, 1, limits);
        ThenErr(r, rest, limits);
        if r.Err? {
          return;
        }
        used, count := r.value, count - 1;
      case ListFrame(values, depth, raw, closeWrapper) =>
        DepthOf(top);
        if closeWrapper {
          WrapperClosed(values, depth, raw, used, limits);
          r := Add(used, 1, limits);
          ThenErr(r, rest, limits);
          if r.Err? {
            return;
          }
          used := r.value;
        }
        if values != [] {
          ValueTaken(values, depth, raw, used, limits, rest);
          var wrap := NeedsWrapper(raw, values[0]);
          if wrap {
            r := WrapperHead(depth, used, limits);
            if r.Err? {
              return;
            }
            used := r.value;
          }
          var left := ListFrame(values[1..], depth, raw, wrap);
          frames[count - 1] := left;
          assert frames[..count] == rest + [left];
          DepthOf(left);
          Pushed(rest, left, 0, limits);
          r, current := Ok(used), Some((values[0], if wrap then depth + 1 else depth));
          return;
        }
        ValuesDone(depth, raw, used, limits, rest);
        count := count - 1;
      case Empty =>
        assert false;
    }
    ResumeNone(used, limits);
    r := Ok(used);
  }

  lemma DepthOf(frame: Frame)
    ensures frame.CompoundFrame? ==> FrameDepth(frame) == frame.depth
    ensures frame.ListFrame? ==> FrameDepth(frame) == frame.depth
  {
  }

  lemma ThenErr(first: Result<nat, NbtError>, frames: seq<Frame>, limits: Limits)
    ensures Then(first, frames, limits) == if first.Err? then first else Resume(frames, first.value, limits)
  {
  }

  lemma ResumeNone(used: nat, limits: Limits)
    ensures Resume([], used, limits) == Ok(used)
  {
  }

  method EntryHead(entry: Entry, used: nat, limits: Limits) returns (r: Result<nat, NbtError>)
    ensures r == SizeEntryHead(entry, used, limits)
  {
    hide AddString;
    if entry.value.End? {
      return Err(UnexpectedEnd);
    }
    r := Add(used, 1, limits);
    if r.Ok? {
      r := AddUnits(entry.name, r.value, limits);
    }
  }

  method WrapperHead(depth: nat, used: nat, limits: Limits) returns (r: Result<nat, NbtError>)
    ensures r == SizeWrapperHead(depth, used, limits)
  {
    if depth >= limits.maxDepth {
      return Err(DepthLimit);
    }
    r := Add(used, 1, limits);
    if r.Ok? {
      r := Add(r.value, 2, limits);
    }
  }

  /** The exact network length, or the very error the writer would meet first. */
  method NetworkEncodedLen(tag: Tag, limits: Limits) returns (r: Result<nat, NbtError>)
    ensures r == SizeNetwork(tag, limits)
    ensures r.Ok? ==> r.value == |NetworkBytes(tag)|
  {
    hide Deep, Resume, Then, Steps, SizeTag, Visits, PayloadBytes;
    if limits.maxDepth > 512 {
      return Err(InvalidDepthLimit);
    }
    r := Add(0, 1, limits);
    if r.Err? {
      return;
    }
    var used := r.value;
    SizeIsLength(tag, 0, used, limits);
    var frames := new Frame[FRAMES](_ => Empty);
    var count: nat, current, depth: nat := 0, tag, 0;
    ghost var want := SizeTag(tag, 0, used, limits);
    NoFrames(want, frames[..0], limits);
    while true
      invariant count <= FRAMES && count <= depth && Deep(frames[..count])
      invariant want == Then(SizeTag(current, depth, used, limits), frames[..count], limits)
      decreases Steps(frames[..count]) + Visits(current)
    {
      ghost var before := frames[..count];
      var visited, after := Visit(current, depth, frames, count, used, limits);
      if visited.Err? {
        ThenErr(visited, before, limits);
        return visited;
      }
      var advanced, left, next := Advance(frames, after, visited.value, limits);
      if advanced.Err? || next.None? {
        return advanced;
      }
      count, used, current, depth := left, advanced.value, next.value.0, next.value.1;
    }
  }

  lemma NoFrames(first: Result<nat, NbtError>, frames: seq<Frame>, limits: Limits)
    requires frames == []
    ensures Then(first, frames, limits) == first && Deep(frames)
  {
  }
}
