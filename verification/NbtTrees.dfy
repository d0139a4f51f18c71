/** Copying, measuring and releasing trees with explicit stacks. */
module NbtTrees {
  import opened World
  import opened Nbt
  import opened NbtMatch
  import opened NbtCompare

  // ----- copying -----

  /** Work left to the copier: visit a value, or gather finished children into their container. */
  datatype CloneStep = Visit(tag: Tag) | GatherList(count: nat) | GatherCompound(entries: seq<Entry>)

  /** The entries' names over new values. */
  function Renamed(entries: seq<Entry>, values: seq<Tag>): (r: seq<Entry>)
    requires |entries| == |values|
    ensures |r| == |entries| && forall i :: 0 <= i < |r| ==> r[i] == Entry(entries[i].name, values[i])
  {
    seq(|entries|, i requires 0 <= i < |entries| => Entry(entries[i].name, values[i]))
  }

  function ValuesOf(entries: seq<Entry>): (r: seq<Tag>)
    ensures |r| == |entries| && forall i :: 0 <= i < |r| ==> r[i] == entries[i].value
  {
    seq(|entries|, i requires 0 <= i < |entries| => entries[i].value)
  }

  /** What finishing every step leaves on the completed stack, if no gathering runs short. */
  ghost function Outcome(pending: seq<CloneStep>, completed: seq<Tag>): Option<seq<Tag>>
    decreases |pending|
  {
    if pending == [] then Some(completed)
    else
      var rest := pending[..|pending| - 1];
      match pending[|pending| - 1]
      case Visit(tag) => Outcome(rest, completed + [tag])
      case GatherList(n) =>
        if |completed| < n then None
        else Outcome(rest, completed[..|completed| - n] + [ListTag(completed[|completed| - n..])])
      case GatherCompound(entries) =>
        var n := |entries|;
        if |completed| < n then None
        else Outcome(rest, completed[..|completed| - n] + [CompoundTag(Renamed(entries, completed[|completed| - n..]))])
  }

  /** Direct parts of a value: children, units or array elements. */
  function Parts(tag: Tag): nat {
    match tag
    case StringTag(units) => |units|
    case ByteArray(v) => |v|
    case IntArray(v) => |v|
    case LongArray(v) => |v|
    case ListTag(values) => |values|
    case CompoundTag(entries) => |entries|
    case _ => 0
  }

  /** Exact work: a unit a step, and one for each child, unit and element moved. */
  ghost function CloneWork(tag: Tag): nat
    decreases tag, 0
  {
    match tag
    case StringTag(units) => 1 + |units|
    case ByteArray(v) => 1 + |v|
    case IntArray(v) => 1 + |v|
    case LongArray(v) => 1 + |v|
    case ListTag(values) => 1 + |values| + CloneWorkOf(values) + 1 + |values|
    case CompoundTag(entries) => 1 + |entries| + CloneWorkIn(entries) + 1 + |entries| + NameUnits(entries)
    case _ => 1
  }

  ghost function CloneWorkOf(values: seq<Tag>): nat
    decreases values, 0
  {
    if values == [] then 0 else CloneWork(values[0]) + CloneWorkOf(values[1..])
  }

  ghost function CloneWorkIn(entries: seq<Entry>): nat
    decreases entries, 0
  {
    if entries == [] then 0 else CloneWork(entries[0].value) + CloneWorkIn(entries[1..])
  }

  ghost function NameUnits(entries: seq<Entry>): nat {
    if entries == [] then 0 else NameUnits(entries[..|entries| - 1]) + |entries[|entries| - 1].name|
  }

  ghost function StepWork(step: CloneStep): nat {
    match step
    case Visit(tag) => CloneWork(tag)
    case GatherList(n) => 1 + n
    case GatherCompound(entries) => 1 + |entries| + NameUnits(entries)
  }

  ghost function PendingWork(pending: seq<CloneStep>): nat {
    if pending == [] then 0 else PendingWork(pending[..|pending| - 1]) + StepWork(pending[|pending| - 1])
  }

  /** Visits pushed last first, so that they pop in order. */
  function Visits(values: seq<Tag>): seq<CloneStep> {
    if values == [] then [] else Visits(values[1..]) + [Visit(values[0])]
  }

  lemma {:induction false} VisitsOutcome(rest: seq<CloneStep>, values: seq<Tag>, completed: seq<Tag>)
    ensures Outcome(rest + Visits(values), completed) == Outcome(rest, completed + values)
    ensures PendingWork(rest + Visits(values)) == PendingWork(rest) + CloneWorkOf(values)
    decreases |values|
  {
    if values == [] {
      assert rest + Visits(values) == rest && completed + values == completed;
    } else {
      var steps := rest + Visits(values);
      assert steps[..|steps| - 1] == rest + Visits(values[1..]);
      VisitsOutcome(rest, values[1..], completed + [values[0]]);
      assert completed + [values[0]] + values[1..] == completed + values;
    }
  }

  lemma Pushed(rest: seq<CloneStep>, step: CloneStep, completed: seq<Tag>)
    ensures PendingWork(rest + [step]) == PendingWork(rest) + StepWork(step)
    ensures Outcome(rest + [step], completed) ==
      if step.Visit? then Outcome(rest, completed + [step.tag])
      else
        var n := if step.GatherList? then step.count else |step.entries|;
        if |completed| < n then None
        else
          var children := completed[|completed| - n..];
          Outcome(rest, completed[..|completed| - n] + [if step.GatherList? then ListTag(children) else CompoundTag(Renamed(step.entries, children))])
  {
    assert (rest + [step])[..|rest|] == rest;
  }

  lemma Popped(pending: seq<CloneStep>)
    requires pending != []
    ensures pending == pending[..|pending| - 1] + [pending[|pending| - 1]]
  {
  }

  lemma {:induction false} SameWork(entries: seq<Entry>)
    ensures CloneWorkOf(ValuesOf(entries)) == CloneWorkIn(entries)
    decreases |entries|
  {
    if entries != [] {
      SameWork(entries[1..]);
      assert ValuesOf(entries)[1..] == ValuesOf(entries[1..]);
    }
  }

  /** Opening a list: its elements will be visited, then gathered back into it. */
  lemma OpenedList(rest: seq<CloneStep>, values: seq<Tag>, completed: seq<Tag>)
    ensures var steps := rest + [GatherList(|values|)] + Visits(values);
      && Outcome(steps, completed) == Outcome(rest, completed + [ListTag(values)])
      && 1 + |values| + PendingWork(steps) == PendingWork(rest) + CloneWork(ListTag(values))
  {
    Pushed(rest, GatherList(|values|), completed + values);
    VisitsOutcome(rest + [GatherList(|values|)], values, completed);
    var all := completed + values;
    assert all[..|all| - |values|] == completed && all[|all| - |values|..] == values;
  }

  lemma OpenedCompound(rest: seq<CloneStep>, entries: seq<Entry>, completed: seq<Tag>)
    ensures var steps := rest + [GatherCompound(entries)] + Visits(ValuesOf(entries));
      && Outcome(steps, completed) == Outcome(rest, completed + [CompoundTag(entries)])
      && 1 + |entries| + PendingWork(steps) == PendingWork(rest) + CloneWork(CompoundTag(entries))
  {
    var values := ValuesOf(entries);
    Pushed(rest, GatherCompound(entries), completed + values);
    VisitsOutcome(rest + [GatherCompound(entries)], values, completed);
    SameWork(entries);
    var all := completed + values;
    assert all[..|all| - |values|] == completed && all[|all| - |values|..] == values;
    assert Renamed(entries, values) == entries;
  }

  function Reversed<T>(s: seq<T>): (r: seq<T>)
    ensures |r| == |s| && forall i :: 0 <= i < |s| ==> r[i] == s[|s| - 1 - i]
  {
    seq(|s|, i requires 0 <= i < |s| => s[|s| - 1 - i])
  }

  /** Takes one finished child an entry, last entry first, and restores the order at the end. */
  method GatherEntries(budget: CompareBudget, entries: seq<Entry>, completed: seq<Tag>)
      returns (r: Result<Tag, CompareError>, left: seq<Tag>)
    requires |entries| <= |completed|
    modifies budget`work
    ensures r.Ok? ==> budget.work + NameUnits(entries) == old(budget.work)
                      && left == completed[..|completed| - |entries|]
                      && r.value == CompoundTag(Renamed(entries, completed[|completed| - |entries|..]))
    ensures r.Err? ==> r == Err(WorkLimit) && budget.work == 0 && old(budget.work) < NameUnits(entries)
  {
    left := completed;
    var children: seq<Entry>, i: nat := [], |entries|;
    assert entries[..|entries|] == entries;
    while i > 0
      invariant i <= |entries| && |children| == |entries| - i && left == completed[..|completed| - |children|]
      invariant forall k :: 0 <= k < |children| ==>
        children[k] == Entry(entries[|entries| - 1 - k].name, completed[|completed| - 1 - k])
      invariant old(budget.work) - budget.work + NameUnits(entries[..i]) == NameUnits(entries) && budget.work <= old(budget.work)
    {
      assert entries[..i][..i - 1] == entries[..i - 1];
      var paid := budget.ChargeWork(|entries[i - 1].name|);
      if paid.Err? {
        return Err(WorkLimit), left;
      }
      children := children + [Entry(entries[i - 1].name, left[|left| - 1])];
      left := left[..|left| - 1];
      i := i - 1;
    }
    assert Reversed(children) == Renamed(entries, completed[|completed| - |entries|..]);
    r := Ok(CompoundTag(Reversed(children)));
  }

  /** A leaf is finished at once; a container's children come first. */
  method Open(tag: Tag, pending: seq<CloneStep>, completed: seq<Tag>) returns (steps: seq<CloneStep>, values: seq<Tag>)
    ensures Outcome(steps, values) == Outcome(pending, completed + [tag])
    ensures 1 + Parts(tag) + PendingWork(steps) == PendingWork(pending) + CloneWork(tag)
  {
    hide Outcome, PendingWork, Visits, ValuesOf, NameUnits;
    if tag.ListTag? {
      OpenedList(pending, tag.values, completed);
      return pending + [GatherList(|tag.values|)] + Visits(tag.values), completed;
    }
    if tag.CompoundTag? {
      OpenedCompound(pending, tag.entries, completed);
      return pending + [GatherCompound(tag.entries)] + Visits(ValuesOf(tag.entries)), completed;
    }
    StepCost(Visit(tag));
    return pending, completed + [tag];
  }

  /** Copies a tree. It succeeds exactly when the work suffices, and then the copy is equal. */
  method CloneTag(budget: CompareBudget, value: Tag) returns (r: Result<Tag, CompareError>)
    modifies budget`work
    ensures r == if old(budget.work) >= CloneWork(value) then Ok(value) else Err(WorkLimit)
    ensures budget.work == if r.Ok? then old(budget.work) - CloneWork(value) else 0
  {
    hide Outcome, PendingWork, CloneWork, Renamed, Visits, ValuesOf, NameUnits;
    var pending, completed: seq<Tag> := [Visit(value)], [];
    SingleVisit(value);
    while pending != []
      invariant Outcome(pending, completed) == Some([value])
      invariant budget.work <= old(budget.work) && old(budget.work) - budget.work + PendingWork(pending) == CloneWork(value)
      decreases PendingWork(pending)
    {
      var step := pending[|pending| - 1];
      Popped(pending);
      pending := pending[..|pending| - 1];
      Pushed(pending, step, completed);
      StepCost(step);
      var paid := budget.ChargeWork(1);
      if paid.Err? {
        return Err(WorkLimit);
      }
      match step
      case GatherList(count) =>
        paid := budget.ChargeWork(count);
        if paid.Err? {
          return Err(WorkLimit);
        }
        completed := completed[..|completed| - count] + [ListTag(completed[|completed| - count..])];
      case GatherCompound(entries) =>
        paid := budget.ChargeWork(|entries|);
        if paid.Err? {
          return Err(WorkLimit);
        }
        var gathered, left := GatherEntries(budget, entries, completed);
        if gathered.Err? {
          return Err(WorkLimit);
        }
        completed := left + [gathered.value];
      case Visit(tag) =>
        paid := budget.ChargeWork(Parts(tag));
        if paid.Err? {
          return Err(WorkLimit);
        }
        pending, completed := Open(tag, pending, completed);
    }
    Finished(completed);
    r := Ok(completed[|completed| - 1]);
  }

  lemma SingleVisit(value: Tag)
    ensures Outcome([Visit(value)], []) == Some([value]) && PendingWork([Visit(value)]) == CloneWork(value)
  {
    assert [Visit(value)][..0] == [];
    assert [] + [value] == [value];
  }

  lemma StepCost(step: CloneStep)
    ensures StepWork(step) >= 1
    ensures step.Visit? ==> CloneWork(step.tag) >= 1 + Parts(step.tag)
    ensures step.Visit? && !step.tag.ListTag? && !step.tag.CompoundTag? ==> CloneWork(step.tag) == 1 + Parts(step.tag)
  {
  }

  lemma Finished(completed: seq<Tag>)
    ensures Outcome([], completed) == Some(completed) && PendingWork([]) == 0
  {
  }

  // ----- measuring -----

  const DEPTH_LIMIT: nat := 512

  ghost predicate AnyDeep(pending: seq<(Tag, nat)>) {
    exists p :: p in pending && p.1 + Height(p.0) >= DEPTH_LIMIT
  }

  function At(values: seq<Tag>, depth: nat): (r: seq<(Tag, nat)>)
    ensures |r| == |values| && forall i :: 0 <= i < |r| ==> r[i] == (values[i], depth)
  {
    seq(|values|, i requires 0 <= i < |values| => (values[i], depth))
  }

  /** At most this much work: a unit a node, and one for each child pushed. */
  ghost function MeasureBound(tag: Tag): nat
    decreases tag, 0
  {
    match tag
    case ListTag(values) => 1 + |values| + MeasureBoundOf(values)
    case CompoundTag(entries) => 1 + |entries| + MeasureBoundIn(entries)
    case _ => 1
  }

  ghost function MeasureBoundOf(values: seq<Tag>): nat
    decreases values, 0
  {
    if values == [] then 0 else MeasureBound(values[|values| - 1]) + MeasureBoundOf(values[..|values| - 1])
  }

  ghost function MeasureBoundIn(entries: seq<Entry>): nat
    decreases entries, 0
  {
    if entries == [] then 0 else MeasureBound(entries[|entries| - 1].value) + MeasureBoundIn(entries[..|entries| - 1])
  }

  ghost function PendingBound(pending: seq<(Tag, nat)>): nat {
    if pending == [] then 0 else PendingBound(pending[..|pending| - 1]) + MeasureBound(pending[|pending| - 1].0)
  }

  lemma {:induction false} ExtendBound(pending: seq<(Tag, nat)>, values: seq<Tag>, depth: nat)
    ensures PendingBound(pending + At(values, depth)) == PendingBound(pending) + MeasureBoundOf(values)
    decreases |values|
  {
    if values == [] {
      assert pending + At(values, depth) == pending;
    } else {
      var n := |values| - 1;
      var all := pending + At(values, depth);
      assert all[..|all| - 1] == pending + At(values[..n], depth);
      ExtendBound(pending, values[..n], depth);
    }
  }

  lemma {:induction false} SameBound(entries: seq<Entry>)
    ensures MeasureBoundOf(ValuesOf(entries)) == MeasureBoundIn(entries)
    decreases |entries|
  {
    if entries != [] {
      SameBound(entries[..|entries| - 1]);
      assert ValuesOf(entries)[..|entries| - 1] == ValuesOf(entries[..|entries| - 1]);
    }
  }

  function Children(tag: Tag): seq<Tag> {
    if tag.ListTag? then tag.values else if tag.CompoundTag? then ValuesOf(tag.entries) else []
  }

  lemma HeightIsReached(values: seq<Tag>)
    ensures values != [] ==> exists v :: v in values && Height(v) == HeightOf(values)
  {
    if |values| > 1 {
      HeightIsReached(values[1..]);
      if Height(values[0]) <= HeightOf(values[1..]) {
        var v :| v in values[1..] && Height(v) == HeightOf(values[1..]);
        assert v in values;
      } else {
        assert values[0] in values;
      }
    } else if |values| == 1 {
      assert values[1..] == [];
      assert HeightOf(values) == Height(values[0]) && values[0] in values;
    }
  }

  lemma {:induction false} SameHeight(entries: seq<Entry>)
    ensures HeightIn(entries) == HeightOf(ValuesOf(entries))
    decreases |entries|
  {
    if entries != [] {
      SameHeight(entries[1..]);
      assert ValuesOf(entries)[1..] == ValuesOf(entries[1..]);
    }
  }

  /** A node deep enough exists under a shallow value exactly when one exists under its children. */
  lemma DeepBelow(tag: Tag, depth: nat)
    requires depth < DEPTH_LIMIT
    ensures depth + Height(tag) >= DEPTH_LIMIT <==> AnyDeep(At(Children(tag), depth + 1))
  {
    var children := Children(tag);
    var below := At(children, depth + 1);
    if tag.CompoundTag? {
      SameHeight(tag.entries);
    }
    assert Height(tag) == if children == [] then 0 else 1 + HeightOf(children);
    if depth + Height(tag) >= DEPTH_LIMIT {
      HeightIsReached(children);
      var v :| v in children && Height(v) == HeightOf(children);
      var i :| 0 <= i < |children| && children[i] == v;
      assert below[i] in below;
    }
    if AnyDeep(below) {
      var p :| p in below && p.1 + Height(p.0) >= DEPTH_LIMIT;
      var i :| 0 <= i < |below| && below[i] == p;
      HeightOfChild(children, i);
    }
  }

  lemma AnyDeepSplit(a: seq<(Tag, nat)>, b: seq<(Tag, nat)>)
    ensures AnyDeep(a + b) <==> AnyDeep(a) || AnyDeep(b)
  {
    hide Height;
    if AnyDeep(a) {
      var p :| p in a && p.1 + Height(p.0) >= DEPTH_LIMIT;
      assert p in a + b;
    }
    if AnyDeep(b) {
      var p :| p in b && p.1 + Height(p.0) >= DEPTH_LIMIT;
      assert p in a + b;
    }
  }

  lemma AnyDeepOne(tag: Tag, depth: nat)
    ensures AnyDeep([(tag, depth)]) <==> depth + Height(tag) >= DEPTH_LIMIT
    ensures !AnyDeep([])
  {
    assert (tag, depth) in [(tag, depth)];
  }

  /** Whether some node of the value, placed at this depth, would sit at the depth limit. */
  method TooDeep(budget: CompareBudget, value: Tag, depth: nat) returns (r: Result<bool, CompareError>)
    modifies budget`work
    ensures r.Ok? ==> r.value == (depth + Height(value) >= DEPTH_LIMIT)
    ensures r.Err? ==> r == Err(WorkLimit) && budget.work == 0 && old(budget.work) < MeasureBound(value)
  {
    hide AnyDeep, Height, PendingBound, MeasureBound, Children, At;
    var pending := [(value, depth)];
    ghost var want := depth + Height(value) >= DEPTH_LIMIT;
    AnyDeepOne(value, depth);
    SingleBound(value, depth);
    while pending != []
      invariant want == AnyDeep(pending)
      invariant budget.work <= old(budget.work) && old(budget.work) - budget.work + PendingBound(pending) <= MeasureBound(value)
      decreases PendingBound(pending)
    {
      var top := pending[|pending| - 1];
      var tag, at := top.0, top.1;
      ghost var rest := pending[..|pending| - 1];
      assert pending == rest + [(tag, at)];
      AnyDeepSplit(rest, [(tag, at)]);
      AnyDeepOne(tag, at);
      TopBound(pending);
      pending := pending[..|pending| - 1];
      BoundParts(tag);
      var paid := budget.ChargeWork(1);
      if paid.Err? {
        return Err(WorkLimit);
      }
      if at >= DEPTH_LIMIT {
        return Ok(true);
      }
      DeepBelow(tag, at);
      var children := Children(tag);
      paid := budget.ChargeWork(|children|);
      if paid.Err? {
        return Err(WorkLimit);
      }
      AnyDeepSplit(rest, At(children, at + 1));
      ExtendBound(rest, children, at + 1);
      pending := pending + At(children, at + 1);
    }
    AnyDeepOne(value, depth);
    r := Ok(false);
  }

  lemma SingleBound(value: Tag, depth: nat)
    ensures PendingBound([(value, depth)]) == MeasureBound(value)
  {
    assert [(value, depth)][..0] == [];
  }

  lemma TopBound(pending: seq<(Tag, nat)>)
    requires pending != []
    ensures PendingBound(pending) == PendingBound(pending[..|pending| - 1]) + MeasureBound(pending[|pending| - 1].0)
  {
  }

  lemma BoundParts(tag: Tag)
    ensures MeasureBound(tag) == 1 + |Children(tag)| + MeasureBoundOf(Children(tag))
  {
    if tag.CompoundTag? {
      SameBound(tag.entries);
    }
  }

  // ----- releasing -----

  /** A container being released: children not yet visited, and the room its vector had. */
  datatype Link = ListLink(children: seq<Tag>, room: nat) | EntriesLink(entries: seq<Entry>, room: nat)

  /** Each node once: itself, then its children from the last to the first. */
  ghost function Releases(tag: Tag): seq<Tag>
    decreases tag, 0
  {
    match tag
    case ListTag(values) => [tag] + ReleasesOf(values)
    case CompoundTag(entries) => [tag] + ReleasesIn(entries)
    case _ => [tag]
  }

  ghost function ReleasesOf(values: seq<Tag>): seq<Tag>
    decreases values, 0
  {
    if values == [] then [] else Releases(values[|values| - 1]) + ReleasesOf(values[..|values| - 1])
  }

  ghost function ReleasesIn(entries: seq<Entry>): seq<Tag>
    decreases entries, 0
  {
    if entries == [] then [] else Releases(entries[|entries| - 1].value) + ReleasesIn(entries[..|entries| - 1])
  }

  ghost function LinkReleases(link: Link): seq<Tag> {
    if link.ListLink? then ReleasesOf(link.children) else ReleasesIn(link.entries)
  }

  /** What the saved parents still have to release, innermost first. */
  ghost function ChainReleases(chain: seq<Link>): seq<Tag> {
    if chain == [] then [] else LinkReleases(chain[|chain| - 1]) + ChainReleases(chain[..|chain| - 1])
  }

  /** The parents thread through the last slot of each other; End marks the outermost. */
  ghost predicate Threads(parents: Tag, chain: seq<Link>)
    decreases |chain|
  {
    if chain == [] then parents == End
    else
      match chain[|chain| - 1]
      case ListLink(children, room) =>
        && parents.ListTag? && |parents.values| == |children| + 1 <= room && parents.values[..|children|] == children
        && Threads(parents.values[|children|], chain[..|chain| - 1])
      case EntriesLink(entries, room) =>
        && parents.CompoundTag? && |parents.entries| == |entries| + 1 <= room && parents.entries[..|entries|] == entries
        && Threads(parents.entries[|entries|].value, chain[..|chain| - 1])
  }

  lemma Linked(chain: seq<Link>, link: Link, inner: Tag)
    requires Threads(inner, chain)
    ensures link.ListLink? && |link.children| < link.room ==> Threads(ListTag(link.children + [inner]), chain + [link])
    ensures forall name :: link.EntriesLink? && |link.entries| < link.room ==>
      Threads(CompoundTag(link.entries + [Entry(name, inner)]), chain + [link])
    ensures ChainReleases(chain + [link]) == LinkReleases(link) + ChainReleases(chain)
  {
    assert (chain + [link])[..|chain|] == chain;
  }

  lemma Unlinked(chain: seq<Link>)
    requires chain != []
    ensures ChainReleases(chain) == LinkReleases(chain[|chain| - 1]) + ChainReleases(chain[..|chain| - 1])
  {
  }

  /** What a chain says about its outermost tag; an original End can never be taken for the mark. */
  lemma Peel(parents: Tag, chain: seq<Link>)
    requires Threads(parents, chain)
    ensures (parents == End <==> chain == []) && (parents == End || parents.ListTag? || parents.CompoundTag?)
    ensures parents.ListTag? ==>
      var n := |parents.values| - 1;
      var link := chain[|chain| - 1];
      n >= 0 && link.ListLink? && link.children == parents.values[..n] && n < link.room && Threads(parents.values[n], chain[..|chain| - 1])
    ensures parents.CompoundTag? ==>
      var n := |parents.entries| - 1;
      var link := chain[|chain| - 1];
      n >= 0 && link.EntriesLink? && link.entries == parents.entries[..n] && n < link.room
      && Threads(parents.entries[n].value, chain[..|chain| - 1])
  {
  }

  lemma NoParents(tag: Tag)
    ensures Threads(End, []) && ChainReleases([]) == [] && Releases(tag) + ChainReleases([]) == Releases(tag)
  {
  }

  /** Opening a container releases it, leaving its last child and then the others. */
  lemma OpenedLink(tag: Tag, link: Link)
    requires tag.ListTag? && tag.values != [] ==> link.ListLink? && link.children == tag.values[..|tag.values| - 1]
    requires tag.CompoundTag? && tag.entries != [] ==> link.EntriesLink? && link.entries == tag.entries[..|tag.entries| - 1]
    ensures tag.ListTag? && tag.values != [] ==> Releases(tag) == [tag] + Releases(tag.values[|tag.values| - 1]) + LinkReleases(link)
    ensures tag.CompoundTag? && tag.entries != [] ==>
      Releases(tag) == [tag] + Releases(tag.entries[|tag.entries| - 1].value) + LinkReleases(link)
    ensures (tag.ListTag? ==> tag.values == []) && (tag.CompoundTag? ==> tag.entries == []) ==> Releases(tag) == [tag]
  {
  }

  lemma LastChild(link: Link)
    ensures link.ListLink? && link.children != [] ==>
      LinkReleases(link) == Releases(link.children[|link.children| - 1])
                            + LinkReleases(ListLink(link.children[..|link.children| - 1], link.room))
    ensures link.EntriesLink? && link.entries != [] ==>
      LinkReleases(link) == Releases(link.entries[|link.entries| - 1].value)
                            + LinkReleases(EntriesLink(link.entries[..|link.entries| - 1], link.room))
    ensures link.ListLink? && link.children == [] ==> LinkReleases(link) == []
    ensures link.EntriesLink? && link.entries == [] ==> LinkReleases(link) == []
  {
  }

  /** Climbs past finished parents to the next child waiting to be released. */
  method NextSibling(from: Tag, ghost chain: seq<Link>) returns (next: Option<Tag>, parents: Tag, ghost links: seq<Link>)
    requires Threads(from, chain)
    ensures Threads(parents, links)
    ensures next.None? ==> ChainReleases(chain) == []
    ensures next.Some? ==> ChainReleases(chain) == Releases(next.value) + ChainReleases(links)
  {
    hide Releases, ChainReleases, Threads, LinkReleases;
    parents, links := from, chain;
    while true
      invariant Threads(parents, links) && ChainReleases(links) == ChainReleases(chain)
      decreases |links|
    {
      Peel(parents, links);
      if parents == End {
        NoParents(End);
        return None, parents, links;
      }
      Unlinked(links);
      ghost var top, rest := links[|links| - 1], links[..|links| - 1];
      LastChild(top);
      if parents.ListTag? {
        var children := parents.values;
        var previous := children[|children| - 1];
        children := children[..|children| - 1];
        if children != [] {
          var child := children[|children| - 1];
          children := children[..|children| - 1];
          ghost var link := ListLink(children, top.room);
          Linked(rest, link, previous);
          next := Some(child);
          parents := ListTag(PushWithin(children, previous, top.room));
          links := rest + [link];
          assert ChainReleases(chain) == Releases(child) + (LinkReleases(link) + ChainReleases(rest));
          return;
        }
        parents, links := previous, rest;
      } else {
        var entries := parents.entries;
        var previous := entries[|entries| - 1].value;
        entries := entries[..|entries| - 1];
        if entries != [] {
          var child := entries[|entries| - 1].value;
          entries := entries[..|entries| - 1];
          ghost var link := EntriesLink(entries, top.room);
          Linked(rest, link, previous);
          next := Some(child);
          parents := CompoundTag(PushWithin(entries, Entry([], previous), top.room));
          links := rest + [link];
          assert ChainReleases(chain) == Releases(child) + (LinkReleases(link) + ChainReleases(rest));
          return;
        }
        parents, links := previous, rest;
      }
    }
  }

  /** Appending where a slot was vacated: a vector never outgrows the room it had. */
  function PushWithin<T>(items: seq<T>, item: T, ghost room: nat): (r: seq<T>)
    requires |items| < room
    ensures r == items + [item]
  {
    items + [item]
  }

  /** Releases a tree without recursion or allocation, each node exactly once. */
  method DropIterative(tag: Tag) returns (ghost released: seq<Tag>)
    ensures released == Releases(tag)
  {
    hide Releases, ChainReleases, Threads, LinkReleases;
    var current, parents := tag, End;
    ghost var chain: seq<Link> := [];
    released := [];
    NoParents(tag);
    while true
      invariant Threads(parents, chain)
      invariant released + (Releases(current) + ChainReleases(chain)) == Releases(tag)
      decreases |Releases(current)| + |ChainReleases(chain)|
    {
      ghost var todo := Releases(current) + ChainReleases(chain);
      released := released + [current];
      if current.ListTag? && current.values != [] {
        var children := current.values;
        ghost var room := |children|;
        var child := children[|children| - 1];
        children := children[..|children| - 1];
        ghost var link := ListLink(children, room);
        OpenedLink(current, link);
        Linked(chain, link, parents);
        parents := ListTag(PushWithin(children, parents, room));
        current, chain := child, chain + [link];
      } else if current.CompoundTag? && current.entries != [] {
        var entries := current.entries;
        ghost var room := |entries|;
        var child := entries[|entries| - 1].value;
        entries := entries[..|entries| - 1];
        ghost var link := EntriesLink(entries, room);
        OpenedLink(current, link);
        Linked(chain, link, parents);
        parents := CompoundTag(PushWithin(entries, Entry([], parents), room));
        current, chain := child, chain + [link];
      } else {
        OpenedLink(current, ListLink([], 0));
        var next: Option<Tag>;
        next, parents, chain := NextSibling(parents, chain);
        if next.None? {
          return;
        }
        current := next.value;
      }
    }
  }

  /** Every node of a tree, however it is walked. */
  ghost function NodeBag(tag: Tag): multiset<Tag>
    decreases tag, 0
  {
    match tag
    case ListTag(values) => multiset{tag} + NodeBagOf(values)
    case CompoundTag(entries) => multiset{tag} + NodeBagIn(entries)
    case _ => multiset{tag}
  }

  ghost function NodeBagOf(values: seq<Tag>): multiset<Tag>
    decreases values, 0
  {
    if values == [] then multiset{} else NodeBag(values[0]) + NodeBagOf(values[1..])
  }

  ghost function NodeBagIn(entries: seq<Entry>): multiset<Tag>
    decreases entries, 0
  {
    if entries == [] then multiset{} else NodeBag(entries[0].value) + NodeBagIn(entries[1..])
  }

  /** Releasing from the last child backwards meets every node, each exactly once. */
  lemma {:induction false} ReleasesEveryNodeOnce(tag: Tag)
    ensures multiset(Releases(tag)) == NodeBag(tag)
    decreases tag, 0
  {
    match tag
    case ListTag(values) => ReleasesBag(values);
    case CompoundTag(entries) => ReleasesBagIn(entries);
    case _ =>
  }

  lemma LastReleased(values: seq<Tag>, entries: seq<Entry>)
    ensures values != [] ==>
      multiset(ReleasesOf(values)) == multiset(Releases(values[|values| - 1])) + multiset(ReleasesOf(values[..|values| - 1]))
    ensures entries != [] ==>
      multiset(ReleasesIn(entries)) == multiset(Releases(entries[|entries| - 1].value)) + multiset(ReleasesIn(entries[..|entries| - 1]))
  {
  }

  lemma {:induction false} ReleasesBag(values: seq<Tag>)
    ensures multiset(ReleasesOf(values)) == NodeBagOf(values)
    decreases values, 0
  {
    hide ReleasesOf, Releases, NodeBag;
    NoNodes();
    if values != [] {
      var n := |values| - 1;
      LastReleased(values, []);
      ReleasesEveryNodeOnce(values[n]);
      ReleasesBag(values[..n]);
      NodeBagAppend(values[..n], values[n]);
      assert values == values[..n] + [values[n]];
    }
  }

  lemma NoNodes()
    ensures ReleasesOf([]) == [] && ReleasesIn([]) == []
  {
  }

  lemma {:induction false} NodeBagAppend(values: seq<Tag>, v: Tag)
    ensures NodeBagOf(values + [v]) == NodeBagOf(values) + NodeBag(v)
    decreases |values|
  {
    if values == [] {
      assert [v][1..] == [];
    } else {
      NodeBagAppend(values[1..], v);
      assert (values + [v])[1..] == values[1..] + [v];
    }
  }

  lemma {:induction false} ReleasesBagIn(entries: seq<Entry>)
    ensures multiset(ReleasesIn(entries)) == NodeBagIn(entries)
    decreases entries, 0
  {
    hide ReleasesIn, Releases, NodeBag;
    NoNodes();
    if entries != [] {
      var n := |entries| - 1;
      LastReleased([], entries);
      ReleasesEveryNodeOnce(entries[n].value);
      ReleasesBagIn(entries[..n]);
      NodeBagInAppend(entries[..n], entries[n]);
      assert entries == entries[..n] + [entries[n]];
    }
  }

  lemma {:induction false} NodeBagInAppend(entries: seq<Entry>, e: Entry)
    ensures NodeBagIn(entries + [e]) == NodeBagIn(entries) + NodeBag(e.value)
    decreases |entries|
  {
    if entries == [] {
      assert [e][1..] == [];
    } else {
      NodeBagInAppend(entries[1..], e);
      assert (entries + [e])[1..] == entries[1..] + [e];
    }
  }
}
