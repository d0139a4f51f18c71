/**
 What comparing two trees means: compound subsets, partial lists and exact equality,
 as plain recursion. Also how much work and depth a comparison can take.
 */
module NbtMatch {
  import opened World
  import opened Nbt

  datatype Mode = PartialLists | StrictLists | Exact

  // ----- leaves -----

  /** Equality of values that are not both lists or both compounds: NaNs equal, zero signs differ. */
  predicate LeafEq(expected: Tag, actual: Tag) {
    match (expected, actual)
    case (FloatTag(a), FloatTag(b)) => a == b || (IsNan32(a) && IsNan32(b))
    case (DoubleTag(a), DoubleTag(b)) => a == b || (IsNan64(a) && IsNan64(b))
    case _ => !expected.ListTag? && !expected.CompoundTag? && expected == actual
  }

  // ----- matching -----

  ghost predicate Matches(expected: Option<Tag>, actual: Option<Tag>, mode: Mode) {
    expected.None? || (actual.Some? && TagMatches(expected.value, actual.value, mode))
  }

  ghost predicate TagMatches(expected: Tag, actual: Tag, mode: Mode)
    decreases expected, 0, 0
  {
    if expected.CompoundTag? && actual.CompoundTag? then
      && |expected.entries| <= |actual.entries| && (mode == Exact ==> |expected.entries| == |actual.entries|)
      && AllEntries(expected.entries, actual.entries, mode)
    else if expected.ListTag? && actual.ListTag? then
      if expected.values == [] then actual.values == []
      else
        && |expected.values| <= |actual.values| && (mode != PartialLists ==> |expected.values| == |actual.values|)
        && if mode == PartialLists then AllSome(expected.values, actual.values) else AllPairs(expected.values, actual.values)
    else LeafEq(expected, actual)
  }

  /** Every expected entry has its name in the other compound, with a matching value. */
  ghost predicate AllEntries(expected: seq<Entry>, actual: seq<Entry>, mode: Mode)
    decreases expected, 0, 0
  {
    expected == [] ||
    (var found := Lookup(actual, expected[0].name);
     found.Some? && TagMatches(expected[0].value, found.value, mode) && AllEntries(expected[1..], actual, mode))
  }

  ghost predicate AllPairs(expected: seq<Tag>, actual: seq<Tag>)
    decreases expected, 0, 0
  {
    expected == [] || (actual != [] && TagMatches(expected[0], actual[0], Exact) && AllPairs(expected[1..], actual[1..]))
  }

  /** Every expected element has some match, which several may share. */
  ghost predicate AllSome(expected: seq<Tag>, actual: seq<Tag>)
    decreases expected, 0, 0
  {
    expected == [] || (SomeMatch(expected[0], actual) && AllSome(expected[1..], actual))
  }

  ghost predicate SomeMatch(expected: Tag, actual: seq<Tag>)
    decreases expected, 1, |actual|
  {
    actual != [] && (TagMatches(expected, actual[0], PartialLists) || SomeMatch(expected, actual[1..]))
  }

  // ----- the same with quantifiers -----

  lemma {:induction false} EntriesMean(expected: seq<Entry>, actual: seq<Entry>, mode: Mode)
    ensures AllEntries(expected, actual, mode) <==> forall e :: e in expected ==>
      Lookup(actual, e.name).Some? && TagMatches(e.value, Lookup(actual, e.name).value, mode)
  {
    if expected != [] {
      EntriesMean(expected[1..], actual, mode);
      assert expected == [expected[0]] + expected[1..];
    }
  }

  lemma {:induction false} PairsMean(expected: seq<Tag>, actual: seq<Tag>)
    requires |expected| == |actual|
    ensures AllPairs(expected, actual) <==> forall i :: 0 <= i < |expected| ==> TagMatches(expected[i], actual[i], Exact)
  {
    if expected != [] {
      PairsMean(expected[1..], actual[1..]);
      forall i | 0 < i < |expected| ensures expected[1..][i - 1] == expected[i] && actual[1..][i - 1] == actual[i] {
      }
    }
  }

  lemma {:induction false} SomeMeans(expected: Tag, actual: seq<Tag>)
    ensures SomeMatch(expected, actual) <==> exists a :: a in actual && TagMatches(expected, a, PartialLists)
  {
    if actual != [] {
      SomeMeans(expected, actual[1..]);
      assert actual[0] in actual && forall a :: a in actual <==> a == actual[0] || a in actual[1..];
    }
  }

  /** A partial list wants a match for every expected element, and at least as many elements. */
  lemma {:induction false} AllSomeMeans(expected: seq<Tag>, actual: seq<Tag>)
    ensures AllSome(expected, actual) <==> forall e :: e in expected ==> exists a :: a in actual && TagMatches(e, a, PartialLists)
  {
    if expected != [] {
      SomeMeans(expected[0], actual);
      AllSomeMeans(expected[1..], actual);
      assert expected[0] in expected && forall e :: e in expected <==> e == expected[0] || e in expected[1..];
    }
  }

  /** An empty list matches only an empty one; otherwise the mode says which elements pair up. */
  lemma ListsMatch(expected: seq<Tag>, actual: seq<Tag>, mode: Mode)
    ensures TagMatches(ListTag(expected), ListTag(actual), mode) <==>
      if expected == [] || actual == [] then expected == actual
      else if mode.PartialLists? then |expected| <= |actual| && forall e :: e in expected ==> exists a :: a in actual && TagMatches(e, a, PartialLists)
      else |expected| == |actual| && forall i :: 0 <= i < |expected| ==> TagMatches(expected[i], actual[i], Exact)
  {
    AllSomeMeans(expected, actual);
    if |expected| == |actual| {
      PairsMean(expected, actual);
    }
  }

  /** Every expected name is there with a matching value; only an exact match wants no more names. */
  lemma CompoundsMatch(expected: seq<Entry>, actual: seq<Entry>, mode: Mode)
    requires Ascending(expected) && Ascending(actual)
    ensures TagMatches(CompoundTag(expected), CompoundTag(actual), mode) <==>
      && (mode == Exact ==> |expected| == |actual|)
      && forall i :: 0 <= i < |expected| ==>
           exists k :: 0 <= k < |actual| && actual[k].name == expected[i].name && TagMatches(expected[i].value, actual[k].value, mode)
  {
    hide Less;
    EntriesMean(expected, actual, mode);
    forall e | e in expected
      ensures (Lookup(actual, e.name).Some? && TagMatches(e.value, Lookup(actual, e.name).value, mode))
              <==> exists k :: 0 <= k < |actual| && actual[k].name == e.name && TagMatches(e.value, actual[k].value, mode)
    {
      NamesMatch(e, actual, mode);
    }
    forall i | 0 <= i < |expected| ensures expected[i] in expected {
    }
    if forall e :: e in expected ==> Lookup(actual, e.name).Some? {
      NoMoreNames(expected, actual);
    }
  }

  lemma NamesMatch(e: Entry, actual: seq<Entry>, mode: Mode)
    requires Ascending(actual)
    ensures (Lookup(actual, e.name).Some? && TagMatches(e.value, Lookup(actual, e.name).value, mode))
            <==> exists k :: 0 <= k < |actual| && actual[k].name == e.name && TagMatches(e.value, actual[k].value, mode)
  {
    hide TagMatches, Ascending;
    if Lookup(actual, e.name).Some? {
      LookupFound(actual, e.name);
    }
    forall k | 0 <= k < |actual| && actual[k].name == e.name ensures Lookup(actual, e.name) == Some(actual[k].value) {
      LookupAt(actual, k);
    }
  }

  /** Different names found in a list take as many places. */
  lemma NoMoreNames(expected: seq<Entry>, actual: seq<Entry>)
    requires Ascending(expected) && Ascending(actual) && forall e :: e in expected ==> Lookup(actual, e.name).Some?
    ensures |expected| <= |actual|
  {
    if |expected| > 0 {
      var j := PlaceAbove(expected, actual, |expected| - 1);
    }
  }

  // ----- reflexivity: identical objects always match -----

  lemma {:induction false} Reflexive(tag: Tag, mode: Mode)
    requires Canonical(tag)
    ensures TagMatches(tag, tag, mode)
    decreases tag
  {
    match tag
    case CompoundTag(entries) =>
      forall e | e in entries ensures Lookup(entries, e.name) == Some(e.value) && TagMatches(e.value, e.value, mode) {
        var i :| 0 <= i < |entries| && entries[i] == e;
        LookupAt(entries, i);
        Reflexive(e.value, mode);
      }
      EntriesMean(entries, entries, mode);
    case ListTag(values) =>
      if mode == PartialLists {
        forall v | v in values ensures TagMatches(v, v, PartialLists) {
          Reflexive(v, PartialLists);
        }
        AllSomeMeans(values, values);
      } else {
        forall i | 0 <= i < |values| ensures TagMatches(values[i], values[i], Exact) {
          Reflexive(values[i], Exact);
        }
        PairsMean(values, values);
      }
    case _ =>
  }

  // ----- exact matching is equality -----

  /** Record equality: sizes, names in order and values, with NaNs equal. */
  predicate TagEq(a: Tag, b: Tag)
    decreases a
  {
    if a.CompoundTag? && b.CompoundTag? then
      |a.entries| == |b.entries| && forall i :: 0 <= i < |a.entries| ==>
        a.entries[i].name == b.entries[i].name && TagEq(a.entries[i].value, b.entries[i].value)
    else if a.ListTag? && b.ListTag? then
      |a.values| == |b.values| && forall i :: 0 <= i < |a.values| ==> TagEq(a.values[i], b.values[i])
    else LeafEq(a, b)
  }

  /** Looking each name up and comparing in order agree on sorted compounds of equal size. */
  lemma {:induction false} ExactIsEquality(a: Tag, b: Tag)
    requires Canonical(a) && Canonical(b)
    ensures TagMatches(a, b, Exact) <==> TagEq(a, b)
    decreases a
  {
    if a.ListTag? && b.ListTag? && |a.values| == |b.values| {
      forall i | 0 <= i < |a.values| ensures TagMatches(a.values[i], b.values[i], Exact) <==> TagEq(a.values[i], b.values[i]) {
        ExactIsEquality(a.values[i], b.values[i]);
      }
      PairsMean(a.values, b.values);
    } else if a.CompoundTag? && b.CompoundTag? && |a.entries| == |b.entries| {
      EntriesMean(a.entries, b.entries, Exact);
      if TagMatches(a, b, Exact) {
        SameNames(a.entries, b.entries);
      }
      if TagMatches(a, b, Exact) || TagEq(a, b) {
        CompoundsAgree(a, b);
      }
    }
  }

  lemma {:induction false} CompoundsAgree(a: Tag, b: Tag)
    requires Canonical(a) && Canonical(b) && a.CompoundTag? && b.CompoundTag? && |a.entries| == |b.entries|
    requires forall i :: 0 <= i < |a.entries| ==> a.entries[i].name == b.entries[i].name
    ensures AllEntries(a.entries, b.entries, Exact) <==> forall i :: 0 <= i < |a.entries| ==> TagEq(a.entries[i].value, b.entries[i].value)
    decreases a, 0
  {
    hide TagMatches, TagEq, AllEntries, Ascending;
    var x, y := a.entries, b.entries;
    EntriesMean(x, y, Exact);
    forall i | 0 <= i < |x|
      ensures x[i] in x && Lookup(y, x[i].name) == Some(y[i].value)
      ensures TagMatches(x[i].value, y[i].value, Exact) <==> TagEq(x[i].value, y[i].value)
    {
      assert x[i] in x && y[i] in y;
      LookupAt(y, i);
      ExactIsEquality(x[i].value, y[i].value);
    }
  }

  /** Sorted unique names, each found in a list of the same length: the names agree in order. */
  lemma SameNames(a: seq<Entry>, b: seq<Entry>)
    requires Ascending(a) && Ascending(b) && |a| == |b|
    requires forall e :: e in a ==> Lookup(b, e.name).Some?
    ensures forall i :: 0 <= i < |a| ==> a[i].name == b[i].name
  {
    forall i | 0 <= i < |a| ensures a[i].name == b[i].name {
      var j := PlaceAbove(a, b, i);
      var k := PlaceBelow(a, b, i);
      OnePlace(b, j, k);
    }
  }

  lemma OnePlace(b: seq<Entry>, j: nat, k: nat)
    requires Ascending(b) && j < |b| && k < |b| && b[j].name == b[k].name
    ensures j == k
  {
    LessIrreflexive(b[j].name);
  }

  lemma {:induction false} PlaceAbove(a: seq<Entry>, b: seq<Entry>, i: nat) returns (j: nat)
    requires Ascending(a) && Ascending(b) && i < |a|
    requires forall e :: e in a ==> Lookup(b, e.name).Some?
    ensures i <= j < |b| && b[j].name == a[i].name
  {
    LookupFound(b, a[i].name);
    j :| 0 <= j < |b| && b[j].name == a[i].name;
    if i > 0 {
      var h := PlaceAbove(a, b, i - 1);
      InOrder(a, b, i - 1, h, i, j);
    }
  }

  lemma {:induction false} PlaceBelow(a: seq<Entry>, b: seq<Entry>, i: nat) returns (j: nat)
    requires Ascending(a) && Ascending(b) && |a| == |b| && i < |a|
    requires forall e :: e in a ==> Lookup(b, e.name).Some?
    ensures j <= i && b[j].name == a[i].name
    decreases |a| - i
  {
    LookupFound(b, a[i].name);
    j :| 0 <= j < |b| && b[j].name == a[i].name;
    if i + 1 < |a| {
      var h := PlaceBelow(a, b, i + 1);
      InOrder(a, b, i, j, i + 1, h);
    }
  }

  /** Finding names keeps their order. */
  lemma InOrder(a: seq<Entry>, b: seq<Entry>, i: nat, h: nat, k: nat, j: nat)
    requires Ascending(a) && Ascending(b) && i < k < |a| && h < |b| && j < |b| && b[h].name == a[i].name && b[j].name == a[k].name
    ensures h < j
  {
    LessIrreflexive(a[i].name);
    if j < h {
      LessTransitive(a[i].name, a[k].name, a[i].name);
    }
  }

  // ----- what a match says without naming the comparison -----

  /** Nowhere in the tree is there a float or a double. */
  predicate FloatFree(tag: Tag)
    decreases tag
  {
    match tag
    case FloatTag(_) => false
    case DoubleTag(_) => false
    case ListTag(values) => forall v :: v in values ==> FloatFree(v)
    case CompoundTag(entries) => forall e :: e in entries ==> FloatFree(e.value)
    case _ => true
  }

  /** Leaves match in any mode if they are the same, or are both NaN at one width: all exponent bits set and some fraction bit. */
  lemma LeavesMatch(expected: Tag, actual: Tag, mode: Mode)
    requires !(expected.CompoundTag? && actual.CompoundTag?) && !(expected.ListTag? && actual.ListTag?)
    ensures TagMatches(expected, actual, mode) <==>
      || expected == actual
      || (expected.FloatTag? && actual.FloatTag?
          && expected.float / 0x80_0000 % 0x100 == 0xff && expected.float % 0x80_0000 != 0
          && actual.float / 0x80_0000 % 0x100 == 0xff && actual.float % 0x80_0000 != 0)
      || (expected.DoubleTag? && actual.DoubleTag?
          && expected.double / 0x10_0000_0000_0000 % 0x800 == 0x7ff && expected.double % 0x10_0000_0000_0000 != 0
          && actual.double / 0x10_0000_0000_0000 % 0x800 == 0x7ff && actual.double % 0x10_0000_0000_0000 != 0)
  {
    if expected.FloatTag? && actual.FloatTag? {
      Nan32Means(expected.float);
      Nan32Means(actual.float);
    }
    if expected.DoubleTag? && actual.DoubleTag? {
      Nan64Means(expected.double);
      Nan64Means(actual.double);
    }
  }

  /** Without floats, an exact match of canonical trees is equality. */
  lemma {:induction false} ExactMeansEqual(a: Tag, b: Tag)
    requires Canonical(a) && Canonical(b) && FloatFree(a)
    ensures TagMatches(a, b, Exact) <==> a == b
    decreases a
  {
    if a == b {
      Reflexive(a, Exact);
    } else if TagMatches(a, b, Exact) {
      if a.ListTag? && b.ListTag? {
        PairsMean(a.values, b.values);
        forall i | 0 <= i < |a.values| ensures a.values[i] == b.values[i] {
          ExactMeansEqual(a.values[i], b.values[i]);
        }
      } else if a.CompoundTag? && b.CompoundTag? {
        EntriesMean(a.entries, b.entries, Exact);
        SameNames(a.entries, b.entries);
        forall i | 0 <= i < |a.entries| ensures a.entries[i] == b.entries[i] {
          assert a.entries[i] in a.entries && b.entries[i] in b.entries;
          LookupAt(b.entries, i);
          ExactMeansEqual(a.entries[i].value, b.entries[i].value);
        }
      } else {
        LeavesMatch(a, b, Exact);
      }
    }
  }

  // ----- modes weaken -----

  /** Equal trees match strictly; strict matches are partial matches. */
  lemma {:induction false} ModesWeaken(expected: Tag, actual: Tag)
    ensures TagMatches(expected, actual, Exact) ==> TagMatches(expected, actual, StrictLists)
    ensures TagMatches(expected, actual, StrictLists) ==> TagMatches(expected, actual, PartialLists)
    decreases expected
  {
    if expected.CompoundTag? && actual.CompoundTag? {
      var entries, others := expected.entries, actual.entries;
      EntriesMean(entries, others, Exact);
      EntriesMean(entries, others, StrictLists);
      EntriesMean(entries, others, PartialLists);
      forall e | e in entries && Lookup(others, e.name).Some?
        ensures var found := Lookup(others, e.name).value;
          && (TagMatches(e.value, found, Exact) ==> TagMatches(e.value, found, StrictLists))
          && (TagMatches(e.value, found, StrictLists) ==> TagMatches(e.value, found, PartialLists))
      {
        ModesWeaken(e.value, Lookup(others, e.name).value);
      }
    } else if expected.ListTag? && actual.ListTag? && |expected.values| == |actual.values| {
      PairsMean(expected.values, actual.values);
      AllSomeMeans(expected.values, actual.values);
      if AllPairs(expected.values, actual.values) {
        forall e | e in expected.values ensures exists a :: a in actual.values && TagMatches(e, a, PartialLists) {
          var i :| 0 <= i < |expected.values| && expected.values[i] == e;
          ModesWeaken(e, actual.values[i]);
          assert actual.values[i] in actual.values;
        }
      }
    }
  }

  // ----- how deep and how long -----

  /** Containers with children on the longest path. */
  function Height(tag: Tag): nat
    decreases tag, 0
  {
    match tag
    case ListTag(values) => if values == [] then 0 else 1 + HeightOf(values)
    case CompoundTag(entries) => if entries == [] then 0 else 1 + HeightIn(entries)
    case _ => 0
  }

  function HeightOf(values: seq<Tag>): nat
    decreases values, 0
  {
    if values == [] then 0 else var rest := HeightOf(values[1..]); if Height(values[0]) > rest then Height(values[0]) else rest
  }

  function HeightIn(entries: seq<Entry>): nat
    decreases entries, 0
  {
    if entries == [] then 0 else var rest := HeightIn(entries[1..]); if Height(entries[0].value) > rest then Height(entries[0].value) else rest
  }

  lemma {:induction false} HeightOfChild(values: seq<Tag>, i: nat)
    requires i < |values|
    ensures Height(values[i]) <= HeightOf(values)
  {
    if i > 0 {
      HeightOfChild(values[1..], i - 1);
    }
  }

  lemma {:induction false} HeightInChild(entries: seq<Entry>, i: nat)
    requires i < |entries|
    ensures Height(entries[i].value) <= HeightIn(entries)
  {
    if i > 0 {
      HeightInChild(entries[1..], i - 1);
    }
  }

  function Times(a: nat, b: nat): nat {
    a * b
  }

  /** At most this much work: one unit a pair, a probe and a unit each key character a probe. */
  ghost function PairBound(expected: Option<Tag>, actual: Option<Tag>, mode: Mode): nat {
    1 + if expected.Some? && actual.Some? then TagBound(expected.value, actual.value, mode) else 0
  }

  ghost function TagBound(expected: Tag, actual: Tag, mode: Mode): nat
    decreases expected, 0, 0
  {
    match expected
    case CompoundTag(entries) => if actual.CompoundTag? then EntriesBound(entries, actual.entries, mode) else 0
    case ListTag(values) =>
      if !actual.ListTag? then 0
      else if mode == PartialLists then SomeBound(values, actual.values) else PairsBound(values, actual.values)
    case StringTag(units) => |units|
    case ByteArray(v) => |v|
    case IntArray(v) => |v|
    case LongArray(v) => |v|
    case _ => 0
  }

  ghost function SearchBound(actual: seq<Entry>, key: Units): nat {
    Times(|actual|, 1 + |key|)
  }

  ghost function EntriesBound(expected: seq<Entry>, actual: seq<Entry>, mode: Mode): nat
    decreases expected, 0, 0
  {
    if expected == [] then 0
    else
      var found := Lookup(actual, expected[0].name);
      SearchBound(actual, expected[0].name) + 1 + (if found.Some? then TagBound(expected[0].value, found.value, mode) else 0)
      + EntriesBound(expected[1..], actual, mode)
  }

  ghost function PairsBound(expected: seq<Tag>, actual: seq<Tag>): nat
    decreases expected, 0, 0
  {
    if expected == [] || actual == [] then 0
    else 1 + TagBound(expected[0], actual[0], Exact) + PairsBound(expected[1..], actual[1..])
  }

  ghost function SomeBound(expected: seq<Tag>, actual: seq<Tag>): nat
    decreases expected, 0, 0
  {
    if expected == [] then 0 else EachBound(expected[0], actual) + SomeBound(expected[1..], actual)
  }

  ghost function EachBound(expected: Tag, actual: seq<Tag>): nat
    decreases expected, 1, |actual|
  {
    if actual == [] then 0 else 1 + TagBound(expected, actual[0], PartialLists) + EachBound(expected, actual[1..])
  }
}
