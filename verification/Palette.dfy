/** The fixed open-addressed scratch that lists a section's values in first-use order. */
module Palette {
  import opened World
  import opened Probing

  const MAX_IDS: nat := 256
  const SLOTS: nat := 512

  /** Distinct values in order of first use. */
  function FirstUses(input: seq<u32>): seq<u32> {
    if input == [] then []
    else
      var rest := FirstUses(input[..|input| - 1]);
      var last := input[|input| - 1];
      if last in rest then rest else rest + [last]
  }

  lemma {:induction false} FirstUsesMembers(input: seq<u32>, v: u32)
    ensures v in FirstUses(input) <==> v in input
  {
    if input != [] {
      FirstUsesMembers(input[..|input| - 1], v);
      assert input == input[..|input| - 1] + [input[|input| - 1]];
    }
  }

  /** `uses` is what `input` holds at the places `at`, which ascend and are exactly those of a value not met before. */
  ghost predicate UsedAt(input: seq<u32>, uses: seq<u32>, at: seq<nat>) {
    && |at| == |uses| && (forall i :: 0 <= i < |at| ==> at[i] < |input| && input[at[i]] == uses[i])
    && (forall i, j :: 0 <= i < j < |at| ==> at[i] < at[j])
    && forall p :: 0 <= p < |input| ==> (p in at <==> input[p] !in input[..p])
  }

  lemma {:induction false} FirstUsesMean(input: seq<u32>) returns (at: seq<nat>)
    ensures UsedAt(input, FirstUses(input), at)
  {
    at := [];
    if input != [] {
      var n := |input| - 1;
      at := FirstUsesMean(input[..n]);
      FirstUsesMembers(input[..n], input[n]);
      UsedNext(input[..n], FirstUses(input[..n]), at, input[n]);
      assert input[..n] + [input[n]] == input;
      if input[n] !in input[..n] {
        at := at + [n];
      }
    }
  }

  lemma UsedNext(input: seq<u32>, uses: seq<u32>, at: seq<nat>, v: u32)
    requires UsedAt(input, uses, at)
    ensures if v in input then UsedAt(input + [v], uses, at) else UsedAt(input + [v], uses + [v], at + [|input|])
  {
    var more := input + [v];
    forall p | 0 <= p < |more| ensures more[..p] == input[..p] && (p < |input| ==> more[p] == input[p]) {
    }
  }

  predicate Distinct(s: seq<u32>) {
    forall i, j :: 0 <= i < j < |s| ==> s[i] != s[j]
  }

  lemma {:induction false} FirstUsesDistinct(input: seq<u32>)
    ensures Distinct(FirstUses(input))
  {
    if input != [] {
      FirstUsesDistinct(input[..|input| - 1]);
    }
  }

  lemma {:induction false} FirstUsesGrow(input: seq<u32>, n: nat)
    requires n <= |input|
    ensures |FirstUses(input[..n])| <= |FirstUses(input)|
    decreases |input|
  {
    if n == |input| {
      assert input[..n] == input;
    } else {
      FirstUsesGrow(input[..|input| - 1], n);
      assert input[..|input| - 1][..n] == input[..n];
    }
  }

  /** Multiplicative hash to nine bits. */
  function Slot(value: u32): (r: nat)
    ensures r < SLOTS
  {
    value * 0x9e37_79b9 % 0x1_0000_0000 / 0x80_0000
  }

  function Home(key: Option<u32>): nat {
    if key == None then 0 else Slot(key.value)
  }

  ghost function HomeFn(): (h: Option<u32> -> nat)
    ensures Bounded(h, SLOTS) && forall v: u32 :: h(Some(v)) == Slot(v)
  {
    key => Home(key)
  }

  /** What a slot array says, seen through the id list: entry k + 1 stands for id k. */
  ghost function View(slots: seq<nat>, ids: seq<u32>): (v: seq<Option<u32>>)
    ensures |v| == |slots|
  {
    seq(|slots|, s requires 0 <= s < |slots| => Named(slots[s], ids))
  }

  function Named(entry: nat, ids: seq<u32>): Option<u32> {
    if entry == 0 || entry > |ids| then None else Some(ids[entry - 1])
  }

  ghost predicate Listed(slots: seq<nat>, ids: seq<u32>) {
    |slots| == SLOTS && |ids| <= MAX_IDS && Distinct(ids) && forall s :: 0 <= s < |slots| ==> slots[s] <= |ids|
  }

  /** A probe table over exactly the given ids. */
  ghost predicate Tabled(v: seq<Option<u32>>, ids: seq<u32>) {
    |v| == SLOTS && Table(v, None, HomeFn()) && AreKeys(Keys(v, None), ids)
  }

  ghost predicate AreKeys(keys: set<Option<u32>>, ids: seq<u32>) {
    forall k: Option<u32> :: k in keys <==> k.Some? && k.value in ids
  }

  lemma AppendKey(keys: set<Option<u32>>, ids: seq<u32>, value: u32)
    requires AreKeys(keys, ids)
    ensures AreKeys(keys + {Some(value)}, ids + [value])
    ensures value !in ids ==> Some(value) !in keys
  {
  }

  ghost predicate Indexes(slots: seq<nat>, ids: seq<u32>) {
    Listed(slots, ids) && Tabled(View(slots, ids), ids)
  }

  lemma {:induction false} DistinctCount(ids: seq<u32>, keys: set<Option<u32>>)
    requires Distinct(ids) && AreKeys(keys, ids)
    ensures |keys| == |ids|
  {
    if ids == [] {
      assert keys == {};
    } else {
      var n := |ids| - 1;
      var rest := keys - {Some(ids[n])};
      assert ids == ids[..n] + [ids[n]];
      DistinctCount(ids[..n], rest);
      assert keys == rest + {Some(ids[n])};
    }
  }

  /** Where a probe stops decides membership. */
  lemma ProbeEnds(v: seq<Option<u32>>, ids: seq<u32>, value: u32, slot: nat)
    requires Tabled(v, ids) && slot < SLOTS && Passed(v, None, Some(value), Slot(value), slot)
    requires v[slot] == None || v[slot] == Some(value)
    ensures v[slot] != None <==> value in ids
  {
    hide Slot, Reachable, Unique, Passed;
    ProbeDecides(v, None, HomeFn(), Some(value), slot);
  }

  lemma FreeSlot(v: seq<Option<u32>>, ids: seq<u32>) returns (c: nat)
    requires Tabled(v, ids)
    ensures c < |v| == SLOTS && v[c] == None
  {
    hide Slot, Reachable, Unique;
    c :| 0 <= c < SLOTS && v[c] == None;
  }

  /** Storing one more id leaves room: at most 256 ids in 512 slots. */
  lemma StoreTabled(v: seq<Option<u32>>, ids: seq<u32>, value: u32, slot: nat)
    requires Tabled(v, ids) && Distinct(ids + [value]) && |ids| < MAX_IDS && value !in ids
    requires slot < SLOTS && v[slot] == None && Passed(v, None, Some(value), Slot(value), slot)
    ensures Tabled(v[slot := Some(value)], ids + [value])
  {
    hide Slot, Passed, Reachable, Unique, AreKeys, Keys, Distinct, Home;
    var t := v[slot := Some(value)];
    AppendKey(Keys(v, None), ids, value);
    StoreKeeps(v, None, HomeFn(), Some(value), slot);
    DistinctCount(ids + [value], Keys(t, None));
    FewKeysLeaveEmpty(t, None);
  }

  /** Appending an id changes the view at its own slot only. */
  lemma AppendView(slots: seq<nat>, ids: seq<u32>, value: u32, slot: nat)
    requires Listed(slots, ids) && |ids| < MAX_IDS && value !in ids && slot < SLOTS
    ensures Listed(slots[slot := |ids| + 1], ids + [value])
    ensures View(slots[slot := |ids| + 1], ids + [value]) == View(slots, ids)[slot := Some(value)]
  {
  }

  class PaletteScratch {
    const ids: array<u32>
    const slots: array<nat>
    var len: nat
    /** Everything inserted so far. */
    ghost var seen: seq<u32>

    ghost predicate Valid() reads this, ids, slots {
      && ids.Length == MAX_IDS && slots.Length == SLOTS
      && (if |FirstUses(seen)| <= MAX_IDS
          then len == |FirstUses(seen)| && ids[..len] == FirstUses(seen) && Indexes(slots[..], ids[..len])
          else len == MAX_IDS + 1)
    }

    constructor ()
      ensures Valid() && seen == [] && fresh(ids) && fresh(slots)
    {
      ids := new u32[MAX_IDS](_ => 0);
      slots := new nat[SLOTS](_ => 0);
      len := 0;
      seen := [];
      new;
      assert ids[..0] == [];
      assert View(slots[..], [])[0] == None;
      assert Keys(View(slots[..], []), None) == {};
    }

    /** First slot on the probe path of a value that is empty or names it. */
    method Probe(value: u32) returns (slot: nat)
      requires ids.Length == MAX_IDS && slots.Length == SLOTS && len <= MAX_IDS && Indexes(slots[..], ids[..len])
      ensures slot < SLOTS && slots[slot] <= len
      ensures slots[slot] == 0 || ids[slots[slot] - 1] == value
      ensures Passed(View(slots[..], ids[..len]), None, Some(value), Slot(value), slot)
      ensures slots[slot] != 0 <==> value in ids[..len]
    {
      hide Slot, Tabled, Distinct, FirstUses, Table;
      ghost var v := View(slots[..], ids[..len]);
      ghost var c := FreeSlot(v, ids[..len]);
      ghost var home := Slot(value);
      slot := Slot(value);
      while slots[slot] != 0 && ids[slots[slot] - 1] != value
        invariant slot < SLOTS && Passed(v, None, Some(value), home, slot)
        invariant Dist(home, slot, SLOTS) <= Dist(home, c, SLOTS)
        decreases SLOTS - Dist(home, slot, SLOTS)
      {
        assert v[slot] == Named(slots[slot], ids[..len]);
        slot := Next(slot, SLOTS);
      }
      assert v[slot] == Named(slots[slot], ids[..len]);
      ProbeEnds(v, ids[..len], value, slot);
    }

    /** Position of a value in first-use order, if it was inserted. */
    method Find(value: u32) returns (r: Option<nat>)
      requires Valid() && |FirstUses(seen)| <= MAX_IDS
      ensures r == None <==> value !in FirstUses(seen)
      ensures r.Some? ==> r.value < |FirstUses(seen)| && FirstUses(seen)[r.value] == value
    {
      hide Slot, Tabled, Passed, FirstUses, View;
      var slot := Probe(value);
      if slots[slot] == 0 {
        return None;
      }
      assert ids[..len][slots[slot] - 1] == value;
      r := Some(slots[slot] - 1);
    }

    /** Remembers a new value; the 257th distinct one only marks the overflow. */
    method Insert(value: u32)
      requires Valid()
      modifies this, slots, ids
      ensures Valid() && seen == old(seen) + [value]
    {
      hide Slot, Tabled, Passed;
      ghost var before := seen;
      assert (before + [value])[..|before|] == before;
      FirstUsesGrow(before + [value], |before|);
      if len > MAX_IDS {
        seen := seen + [value];
        return;
      }
      var slot := Probe(value);
      if slots[slot] != 0 {
        seen := seen + [value];
        return;
      }
      if len == MAX_IDS {
        len := MAX_IDS + 1;
        seen := seen + [value];
        return;
      }
      ghost var i: seq<u32>, s: seq<nat> := ids[..len], slots[..];
      AppendView(s, i, value, slot);
      assert View(s, i)[slot] == None;
      StoreTabled(View(s, i), i, value, slot);
      ids[len] := value;
      slots[slot] := len + 1;
      len := len + 1;
      seen := seen + [value];
      assert ids[..len] == i + [value];
      ghost var next: nat := |i| + 1;
      assert slots[..] == s[slot := next];
    }
  }
}
