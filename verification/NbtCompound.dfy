/** Compounds as sorted entry lists: building from a decoder's entries, search, insertion, removal. */
module NbtCompound {
  import opened World
  import opened Nbt

  // ----- building -----

  /** Names never descend; equal names may repeat. */
  predicate Weakly(entries: seq<Entry>) {
    forall i, j :: 0 <= i < j < |entries| ==> !Less(entries[j].name, entries[i].name)
  }

  lemma {:induction false} LookupAppend(entries: seq<Entry>, e: Entry, name: Units)
    ensures Lookup(entries + [e], name) == if e.name == name then Some(e.value) else Lookup(entries, name)
  {
    assert (entries + [e])[..|entries|] == entries;
  }

  /** A later group of entries wins over an earlier one. */
  lemma {:induction false} LookupConcat(a: seq<Entry>, b: seq<Entry>, name: Units)
    ensures Lookup(a + b, name) == if Lookup(b, name).Some? then Lookup(b, name) else Lookup(a, name)
  {
    if b == [] {
      assert a + b == a;
    } else {
      LookupConcat(a, b[..|b| - 1], name);
      assert (a + b)[..|a + b| - 1] == a + b[..|b| - 1];
    }
  }

  /** Inserting after every name that does not exceed it. */
  lemma PlaceKeeps(sorted: seq<Entry>, p: nat, e: Entry)
    requires Weakly(sorted) && p <= |sorted|
    requires forall i :: 0 <= i < p ==> !Less(e.name, sorted[i].name)
    requires forall i :: p <= i < |sorted| ==> Less(e.name, sorted[i].name)
    ensures Weakly(sorted[..p] + [e] + sorted[p..])
    ensures forall name :: Lookup(sorted[..p] + [e] + sorted[p..], name) == if name == e.name then Some(e.value) else Lookup(sorted, name)
  {
    PlacedWeakly(sorted, p, e);
    forall name ensures Lookup(sorted[..p] + [e] + sorted[p..], name) == if name == e.name then Some(e.value) else Lookup(sorted, name) {
      PlacedLookup(sorted, p, e, name);
    }
  }

  lemma PlacedWeakly(sorted: seq<Entry>, p: nat, e: Entry)
    requires Weakly(sorted) && p <= |sorted|
    requires forall i :: 0 <= i < p ==> !Less(e.name, sorted[i].name)
    requires forall i :: p <= i < |sorted| ==> Less(e.name, sorted[i].name)
    ensures Weakly(sorted[..p] + [e] + sorted[p..])
  {
    var t := sorted[..p] + [e] + sorted[p..];
    forall i, j | 0 <= i < j < |t| ensures !Less(t[j].name, t[i].name) {
      if i == p && Less(t[j].name, e.name) {
        LessTransitive(e.name, sorted[j - 1].name, e.name);
        LessIrreflexive(e.name);
      }
    }
  }

  lemma PlacedLookup(sorted: seq<Entry>, p: nat, e: Entry, name: Units)
    requires p <= |sorted| && forall i :: p <= i < |sorted| ==> Less(e.name, sorted[i].name)
    ensures Lookup(sorted[..p] + [e] + sorted[p..], name) == if name == e.name then Some(e.value) else Lookup(sorted, name)
  {
    hide Lookup;
    LookupConcat(sorted[..p] + [e], sorted[p..], name);
    LookupAppend(sorted[..p], e, name);
    assert sorted == sorted[..p] + sorted[p..];
    LookupConcat(sorted[..p], sorted[p..], name);
    if name == e.name {
      forall i | 0 <= i < |sorted[p..]| ensures sorted[p..][i].name != name {
        LessIrreflexive(name);
      }
      LookupMissing(sorted[p..], name);
    }
  }

  /** The sort by name and then by sequence number: later entries go after earlier ones of the same name. */
  method SortEntries(entries: seq<Entry>) returns (sorted: seq<Entry>)
    ensures Weakly(sorted) && forall name :: Lookup(sorted, name) == Lookup(entries, name)
  {
    sorted := [];
    for i := 0 to |entries|
      invariant Weakly(sorted) && forall name :: Lookup(sorted, name) == Lookup(entries[..i], name)
    {
      var e := entries[i];
      var p: nat := |sorted|;
      while p > 0 && Less(e.name, sorted[p - 1].name)
        invariant p <= |sorted|
        invariant forall k :: p <= k < |sorted| ==> Less(e.name, sorted[k].name)
      {
        p := p - 1;
      }
      BelowPlace(sorted, p, e);
      PlaceKeeps(sorted, p, e);
      assert entries[..i + 1] == entries[..i] + [e];
      forall name ensures Lookup(entries[..i + 1], name) == if name == e.name then Some(e.value) else Lookup(entries[..i], name) {
        LookupAppend(entries[..i], e, name);
      }
      sorted := sorted[..p] + [e] + sorted[p..];
    }
    assert entries[..|entries|] == entries;
  }

  lemma BelowPlace(sorted: seq<Entry>, p: nat, e: Entry)
    requires Weakly(sorted) && p <= |sorted| && (p > 0 ==> !Less(e.name, sorted[p - 1].name))
    ensures forall i :: 0 <= i < p ==> !Less(e.name, sorted[i].name)
  {
    forall i | 0 <= i < p ensures !Less(e.name, sorted[i].name) {
      if i < p - 1 && Less(e.name, sorted[i].name) {
        var x, y := sorted[i].name, sorted[p - 1].name;
        assert !Less(y, x);
        LessTotal(x, y);
        if Less(x, y) {
          LessTransitive(e.name, x, y);
        }
      }
    }
  }

  /** What the dedup has kept of a sorted prefix. */
  ghost predicate Deduped(kept: seq<Entry>, sorted: seq<Entry>) {
    && Ascending(kept) && (forall name :: Lookup(kept, name) == Lookup(sorted, name))
    && (kept == [] <==> sorted == []) && (kept != [] ==> kept[|kept| - 1].name == sorted[|sorted| - 1].name)
  }

  lemma DedupReplace(kept: seq<Entry>, sorted: seq<Entry>, e: Entry)
    requires Deduped(kept, sorted) && kept != [] && kept[|kept| - 1].name == e.name
    ensures Deduped(kept[..|kept| - 1] + [e], sorted + [e])
  {
    var next := kept[..|kept| - 1] + [e];
    forall i, j | 0 <= i < j < |next| ensures Less(next[i].name, next[j].name) {
      assert Less(kept[i].name, kept[j].name);
    }
    forall name ensures Lookup(next, name) == Lookup(sorted + [e], name) {
      LookupAppend(kept[..|kept| - 1], e, name);
      LookupAppend(sorted, e, name);
      assert Lookup(kept, name) == Lookup(sorted, name);
    }
  }

  lemma DedupPush(kept: seq<Entry>, sorted: seq<Entry>, e: Entry)
    requires Deduped(kept, sorted) && Weakly(sorted + [e]) && (kept == [] || kept[|kept| - 1].name != e.name)
    ensures Deduped(kept + [e], sorted + [e])
  {
    var next := kept + [e];
    forall i, j | 0 <= i < j < |next| ensures Less(next[i].name, next[j].name) {
      if j < |kept| {
        assert Less(kept[i].name, kept[j].name);
      } else {
        var all, last := sorted + [e], |sorted| - 1;
        assert all[last].name == kept[|kept| - 1].name && all[|sorted|] == e;
        assert !Less(all[|sorted|].name, all[last].name);
        LessTotal(kept[|kept| - 1].name, e.name);
        if i < |kept| - 1 {
          LessTransitive(kept[i].name, kept[|kept| - 1].name, e.name);
        }
      }
    }
    forall name ensures Lookup(next, name) == Lookup(sorted + [e], name) {
      LookupAppend(kept, e, name);
      LookupAppend(sorted, e, name);
      assert Lookup(kept, name) == Lookup(sorted, name);
    }
  }

  /** Drops earlier duplicates in place: the earlier slot takes the later value. */
  method DedupSorted(sorted: seq<Entry>) returns (kept: seq<Entry>)
    requires Weakly(sorted)
    ensures Ascending(kept) && forall name :: Lookup(kept, name) == Lookup(sorted, name)
  {
    hide Ascending, Lookup;
    kept := [];
    NothingDeduped();
    for i := 0 to |sorted|
      invariant Deduped(kept, sorted[..i])
    {
      var e := sorted[i];
      assert sorted[..i + 1] == sorted[..i] + [e];
      if kept != [] && kept[|kept| - 1].name == e.name {
        DedupReplace(kept, sorted[..i], e);
        kept := kept[..|kept| - 1] + [e];
      } else {
        DedupPush(kept, sorted[..i], e);
        kept := kept + [e];
      }
    }
    assert sorted[..|sorted|] == sorted;
  }

  lemma NothingDeduped()
    ensures Deduped([], [])
  {
  }

  /** A compound keeps the last value of every name, in ascending order; sorted input stays as it is. */
  method FromEntries(entries: seq<Entry>) returns (r: seq<Entry>)
    ensures Ascending(r) && forall name :: Lookup(r, name) == Lookup(entries, name)
    ensures Ascending(entries) ==> r == entries
  {
    var sorted := SortEntries(entries);
    r := DedupSorted(sorted);
    if Ascending(entries) {
      AscendingUnique(r, entries);
    }
  }

  // ----- search -----

  /** Binary search: the index of a name, or where it belongs. */
  method Search(entries: seq<Entry>, name: Units) returns (found: bool, index: nat)
    requires Ascending(entries)
    ensures found ==> index < |entries| && entries[index].name == name
    ensures !found ==> index <= |entries| && (forall i :: 0 <= i < index ==> Less(entries[i].name, name))
                       && (forall i :: index <= i < |entries| ==> Less(name, entries[i].name))
  {
    var low: nat, high: nat := 0, |entries|;
    while low < high
      invariant low <= high <= |entries|
      invariant forall i :: 0 <= i < low ==> Less(entries[i].name, name)
      invariant forall i :: high <= i < |entries| ==> Less(name, entries[i].name)
      decreases high - low
    {
      var middle := low + (high - low) / 2;
      var at := entries[middle].name;
      if at == name {
        return true, middle;
      }
      LessTotal(at, name);
      if Less(at, name) {
        forall i | 0 <= i < middle ensures Less(entries[i].name, name) {
          LessTransitive(entries[i].name, at, name);
        }
        low := middle + 1;
      } else {
        forall i | middle < i < |entries| ensures Less(name, entries[i].name) {
          LessTransitive(name, at, entries[i].name);
        }
        high := middle;
      }
    }
    return false, low;
  }

  lemma AbsentName(entries: seq<Entry>, name: Units, index: nat)
    requires index <= |entries|
    requires forall i :: 0 <= i < index ==> Less(entries[i].name, name)
    requires forall i :: index <= i < |entries| ==> Less(name, entries[i].name)
    ensures Lookup(entries, name) == None
  {
    LessIrreflexive(name);
    LookupMissing(entries, name);
  }

  method GetEntry(entries: seq<Entry>, name: Units) returns (r: Option<Tag>)
    requires Ascending(entries)
    ensures r == Lookup(entries, name)
  {
    var found, index := Search(entries, name);
    if found {
      LookupAt(entries, index);
      return Some(entries[index].value);
    }
    AbsentName(entries, name, index);
    r := None;
  }

  /** Sets one name and no other, and says what it replaced. */
  method InsertEntry(entries: seq<Entry>, name: Units, value: Tag) returns (old_: Option<Tag>, after: seq<Entry>)
    requires Ascending(entries)
    ensures Ascending(after) && old_ == Lookup(entries, name)
    ensures forall n :: Lookup(after, n) == if n == name then Some(value) else Lookup(entries, n)
  {
    var found, index := Search(entries, name);
    if found {
      LookupAt(entries, index);
      old_ := Some(entries[index].value);
      after := entries[index := Entry(name, value)];
      ReplacedLookups(entries, index, value);
    } else {
      AbsentName(entries, name, index);
      old_ := None;
      after := entries[..index] + [Entry(name, value)] + entries[index..];
      InsertedLookups(entries, index, Entry(name, value));
    }
  }

  lemma ReplacedLookups(entries: seq<Entry>, index: nat, value: Tag)
    requires Ascending(entries) && index < |entries|
    ensures var after := entries[index := Entry(entries[index].name, value)];
      && Ascending(after)
      && forall n :: Lookup(after, n) == if n == entries[index].name then Some(value) else Lookup(entries, n)
  {
    var name := entries[index].name;
    var after := entries[index := Entry(name, value)];
    forall i, j | 0 <= i < j < |after| ensures Less(after[i].name, after[j].name) {
      assert Less(entries[i].name, entries[j].name);
    }
    LookupAt(after, index);
    forall n | n != name ensures Lookup(after, n) == Lookup(entries, n) {
      SameElsewhere(entries, after, index, n);
    }
  }

  lemma {:induction false} SameElsewhere(a: seq<Entry>, b: seq<Entry>, index: nat, name: Units)
    requires |a| == |b| && forall i :: 0 <= i < |a| && i != index ==> a[i] == b[i]
    requires index < |a| ==> a[index].name != name && b[index].name != name
    ensures Lookup(a, name) == Lookup(b, name)
  {
    if a != [] {
      SameElsewhere(a[..|a| - 1], b[..|b| - 1], index, name);
    }
  }

  lemma InsertedLookups(entries: seq<Entry>, p: nat, e: Entry)
    requires Ascending(entries) && p <= |entries|
    requires forall i :: 0 <= i < p ==> Less(entries[i].name, e.name)
    requires forall i :: p <= i < |entries| ==> Less(e.name, entries[i].name)
    ensures var after := entries[..p] + [e] + entries[p..];
      Ascending(after) && forall n :: Lookup(after, n) == if n == e.name then Some(e.value) else Lookup(entries, n)
  {
    forall i, j | 0 <= i < j < |entries| ensures !Less(entries[j].name, entries[i].name) {
      if Less(entries[j].name, entries[i].name) {
        LessTransitive(entries[i].name, entries[j].name, entries[i].name);
        LessIrreflexive(entries[i].name);
      }
    }
    forall i | 0 <= i < p ensures !Less(e.name, entries[i].name) {
      if Less(e.name, entries[i].name) {
        LessTransitive(e.name, entries[i].name, e.name);
        LessIrreflexive(e.name);
      }
    }
    PlaceKeeps(entries, p, e);
    var after := entries[..p] + [e] + entries[p..];
    forall i, j | 0 <= i < j < |after| ensures Less(after[i].name, after[j].name) {
      if i < p < j {
        assert Less(entries[i].name, entries[j - 1].name);
      } else if j < p {
        assert Less(entries[i].name, entries[j].name);
      } else if i > p {
        assert Less(entries[i - 1].name, entries[j - 1].name);
      }
    }
  }

  /** Removes one name and no other. */
  method RemoveEntry(entries: seq<Entry>, name: Units) returns (old_: Option<Tag>, after: seq<Entry>)
    requires Ascending(entries)
    ensures Ascending(after) && old_ == Lookup(entries, name)
    ensures forall n :: Lookup(after, n) == if n == name then None else Lookup(entries, n)
  {
    var found, index := Search(entries, name);
    if !found {
      AbsentName(entries, name, index);
      return None, entries;
    }
    LookupAt(entries, index);
    old_ := Some(entries[index].value);
    after := entries[..index] + entries[index + 1..];
    RemovedLookups(entries, index);
  }

  lemma RemovedLookups(entries: seq<Entry>, index: nat)
    requires Ascending(entries) && index < |entries|
    ensures var after := entries[..index] + entries[index + 1..];
      Ascending(after) && forall n :: Lookup(after, n) == if n == entries[index].name then None else Lookup(entries, n)
  {
    var name := entries[index].name;
    var a, b := entries[..index], entries[index + 1..];
    var after := a + b;
    forall i, j | 0 <= i < j < |after| ensures Less(after[i].name, after[j].name) {
      assert Less(entries[if i < index then i else i + 1].name, entries[if j < index then j else j + 1].name);
    }
    forall n ensures Lookup(after, n) == if n == name then None else Lookup(entries, n) {
      assert entries == (a + [entries[index]]) + b;
      LookupConcat(a + [entries[index]], b, n);
      LookupAppend(a, entries[index], n);
      LookupConcat(a, b, n);
      if n == name {
        LessIrreflexive(name);
        forall i | 0 <= i < |after| ensures after[i].name != name {
          assert if i < index then Less(entries[i].name, name) else Less(name, entries[i + 1].name);
        }
        LookupMissing(after, name);
      }
    }
  }
}
