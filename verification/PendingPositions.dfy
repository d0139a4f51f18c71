/**
 The chunk sender's hand-written set of packed positions: linear probing with
 backward-shift deletion, growth at three quarters, shrink below three sixteenths, and a
 separate flag for the zero key. It refines a mathematical set over every history.
 */
module PendingPositions {
  import opened Filters
  import opened Probing
  import opened World

  const INITIAL_BUCKETS: nat := 32

  datatype Error = PendingFull

  /** Bitwise exclusive or. */
  function Xor(a: nat, b: nat): nat
    decreases a + b
  {
    if a == 0 && b == 0 then 0
    else (if a % 2 == b % 2 then 0 else 1) + 2 * Xor(a / 2, b / 2)
  }

  function Mix(key: u64): nat {
    var product := key * 0x9e37_79b9_7f4a_7c15 % 0x1_0000_0000_0000_0000;
    var mixed := Xor(product, product / 0x1_0000_0000);
    Xor(mixed, mixed / 0x1_0000)
  }

  function Home(key: u64, buckets: nat): (r: nat)
    requires buckets > 0
    ensures r < buckets
  {
    Mix(key) % buckets
  }

  /** The home function of a table with `buckets` slots, as the probing theory wants it. */
  ghost function HomeIn(buckets: nat): (h: u64 -> nat)
    requires buckets > 0
    ensures Bounded(h, buckets)
  {
    (key: u64) => Home(key, buckets)
  }

  /** The keys of a table in bucket order. */
  function Filled(table: seq<u64>): seq<u64> {
    if table == [] then []
    else
      var rest := Filled(table[..|table| - 1]);
      var last := table[|table| - 1];
      if last != 0 then rest + [last] else rest
  }

  lemma NothingStored(table: seq<u64>, h: u64 -> nat)
    requires Bounded(h, |table|) && forall j :: 0 <= j < |table| ==> table[j] == 0
    ensures Reachable(table, 0, h) && Unique(table, 0) && Keys(table, 0) == {}
  {
    assert forall k :: k in Keys(table, 0) ==> k in table;
  }

  lemma NothingFilled(table: seq<u64>)
    ensures Filled(table[..0]) == [] && Keys(table[..0], 0) == {}
  {
  }

  lemma FilledNext(table: seq<u64>, i: nat)
    requires i < |table|
    ensures Filled(table[..i + 1]) == Filled(table[..i]) + if table[i] != 0 then [table[i]] else []
  {
    assert table[..i + 1][..i] == table[..i];
  }

  predicate Occupied(slot: u64) {
    slot != 0
  }

  /** Bucket order: all but the empty buckets, from the first on. */
  lemma {:induction false} FilledMeans(table: seq<u64>)
    ensures Keeps(table, Filled(table), Occupied)
  {
    hide Keeps;
    if table == [] {
      KeepsNone(Occupied);
    } else {
      var n := |table| - 1;
      FilledMeans(table[..n]);
      FilledNext(table, n);
      KeepsNext(table[..n], Filled(table[..n]), Occupied, table[n]);
      assert table[..n + 1] == table && table[..n] + [table[n]] == table;
    }
  }

  /** Physical table size reserved once for a pending limit. */
  function PhysicalBuckets(limit: nat): (r: nat)
    ensures r >= INITIAL_BUCKETS && IsPow2(r)
  {
    var n := NextPow2((limit + 2) / 3 * 4);
    assert IsPow2(32) by { assert IsPow2(16) && IsPow2(8) && IsPow2(4) && IsPow2(2); }
    if n < 32 then 32 else n
  }

  /** The least power of two, from 32 on, of which the limit fills no more than three quarters. */
  lemma PhysicalMeans(limit: nat, n: nat)
    ensures limit <= PhysicalBuckets(limit) * 3 / 4
    ensures IsPow2(n) && n >= 32 && limit <= n * 3 / 4 ==> PhysicalBuckets(limit) <= n
  {
    var quarters := (limit + 2) / 3;
    Pow2Quarters(PhysicalBuckets(limit));
    if IsPow2(n) && n >= 32 && limit <= n * 3 / 4 {
      Pow2Quarters(n);
      assert n == n / 4 * 4 && limit <= n / 4 * 3;
      NextPow2Least(quarters * 4, n);
    }
  }

  /** Exceeding three quarters within the limit always leaves a doubled table to grow into. */
  lemma GrowthFits(limit: nat, buckets: nat, len: nat)
    requires IsPow2(buckets) && 4 <= buckets
    requires len <= limit && buckets * 3 / 4 < len < buckets
    ensures 2 * buckets <= PhysicalBuckets(limit) && IsPow2(2 * buckets)
    ensures len <= 2 * buckets * 3 / 4
  {
    Pow2Quarters(buckets);
    var q := buckets / 4;
    QuarterLoad(q, limit, len);
    Pow2Gap(4 * q, PhysicalBuckets(limit));
    DoublePow2(buckets);
  }

  lemma QuarterLoad(q: nat, limit: nat, len: nat)
    requires 4 * q * 3 / 4 < len <= limit && len < 4 * q
    ensures 4 * q < (limit + 2) / 3 * 4 && len <= 2 * (4 * q) * 3 / 4
  {
  }

  lemma DoublePow2(n: nat)
    requires IsPow2(n)
    ensures IsPow2(2 * n)
  {
    assert 2 * n / 2 == n;
  }

  lemma Pow2Quarters(buckets: nat)
    requires IsPow2(buckets) && 4 <= buckets
    ensures buckets % 4 == 0
  {
    assert IsPow2(buckets / 2);
  }

  lemma ShrinkFits(buckets: nat, len: nat)
    requires IsPow2(buckets) && buckets > INITIAL_BUCKETS && len < buckets * 3 / 16
    ensures IsPow2(buckets / 2) && INITIAL_BUCKETS <= buckets / 2 && len <= buckets / 2 * 3 / 4
  {
    assert IsPow2(32) by { assert IsPow2(16) && IsPow2(8) && IsPow2(4) && IsPow2(2); }
    Pow2Gap(INITIAL_BUCKETS, buckets);
  }

  /** The members are the stored keys, and zero exactly when it is flagged. */
  ghost predicate Represents(keys: set<u64>, zero: bool, members: set<u64>) {
    forall k: u64 :: k in members <==> if k == 0 then zero else k in keys
  }

  lemma AdmitKeeps(keys: set<u64>, zero: bool, members: set<u64>, key: u64)
    requires Represents(keys, zero, members) && key !in members
    ensures key == 0 ==> Represents(keys, true, members + {key})
    ensures key != 0 ==> Represents(keys + {key}, zero, members + {key})
  {
  }

  lemma ReleaseKeeps(keys: set<u64>, zero: bool, members: set<u64>, key: u64)
    requires Represents(keys, zero, members) && key in members
    ensures key == 0 ==> Represents(keys, false, members - {key})
    ensures key != 0 ==> Represents(keys - {key}, zero, members - {key})
  {
  }

  class PendingSet {
    var slots: array<u64>
    var spare: array<u64>
    var buckets: nat
    const limit: nat
    var len: nat
    var zero: bool
    /** The mathematical set this table refines. */
    ghost var members: set<u64>

    ghost function Table(): seq<u64>
      reads `slots, `buckets, slots
      requires buckets <= slots.Length
    {
      slots[..buckets]
    }

    ghost predicate Shape()
      reads `slots, `spare, `buckets
    {
      && slots != spare
      && slots.Length == spare.Length
      && INITIAL_BUCKETS <= buckets <= slots.Length
    }

    ghost predicate Sized()
      reads `slots, `buckets
    {
      slots.Length == PhysicalBuckets(limit) && IsPow2(buckets)
    }

    ghost predicate Refines()
      reads `slots, `buckets, `zero, `members, slots
      requires buckets <= slots.Length
    {
      Represents(Keys(Table(), 0), zero, members)
    }

    /** Everything but the load factor, which an update restores last. */
    ghost predicate Core()
      reads this, slots, spare
    {
      && Shape()
      && Sized()
      && Probing.Table(Table(), 0, HomeIn(buckets))
      && Refines()
      && len == |members| <= limit
    }

    ghost predicate Valid()
      reads this, slots, spare
    {
      Core() && len <= buckets * 3 / 4
    }

    /** The two tables keep their identity as a pair; a rehash swaps their roles. */
    twostate predicate SameTables()
      reads this
    {
      || (slots == old(slots) && spare == old(spare))
      || (slots == old(spare) && spare == old(slots))
    }

    constructor (limit: nat)
      ensures Valid() && fresh(slots) && fresh(spare)
      ensures this.limit == limit && members == {}
    {
      var physical := PhysicalBuckets(limit);
      slots := new u64[physical](_ => 0);
      spare := new u64[physical](_ => 0);
      buckets := INITIAL_BUCKETS;
      this.limit := limit;
      len := 0;
      zero := false;
      members := {};
      new;
      assert IsPow2(32) by { assert IsPow2(16) && IsPow2(8) && IsPow2(4) && IsPow2(2); }
      assert Table()[0] == 0;
    }

    /** First slot on the probe path of `key` that is empty or holds it. */
    method Bucket(key: u64) returns (index: nat)
      requires Shape() && Probing.Table(Table(), 0, HomeIn(buckets)) && key != 0
      ensures index < buckets
      ensures Passed(Table(), 0, key, Home(key, buckets), index)
      ensures slots[index] == 0 || slots[index] == key
      ensures slots[index] == key <==> key in Keys(Table(), 0)
    {
      hide Home, Xor, IsPow2, PhysicalBuckets;
      var n, table := buckets, slots;
      ghost var t, h := Table(), HomeIn(n);
      ghost var c :| 0 <= c < n && t[c] == 0;
      index := Home(key, n);
      while table[index] != 0 && table[index] != key
        invariant index < n && Passed(t, 0, key, Home(key, n), index)
        invariant Dist(h(key), index, n) <= Dist(h(key), c, n)
        decreases n - Dist(h(key), index, n)
      {
        assert t[index] == table[index];
        index := Next(index, n);
      }
      assert t[index] == table[index];
      ProbeDecides(t, 0, h, key, index);
    }

    method Contains(key: u64) returns (found: bool)
      requires Valid()
      ensures found <==> key in members
    {
      if key == 0 {
        found := zero;
      } else {
        var index := Bucket(key);
        found := slots[index] != 0;
      }
    }

    /** A full set refuses only new members; growth happens above three quarters. */
    method Insert(key: u64) returns (r: Result<bool, Error>)
      requires Valid()
      modifies this, slots, spare
      ensures Valid() && SameTables()
      ensures r == if key in old(members) then Ok(false)
                   else if |old(members)| == limit then Err(PendingFull) else Ok(true)
      ensures members == if r == Ok(true) then old(members) + {key} else old(members)
    {
      var present := Contains(key);
      if present {
        return Ok(false);
      }
      if len == limit {
        return Err(PendingFull);
      }
      Admit(key);
      if len > buckets * 3 / 4 {
        Grow();
      }
      r := Ok(true);
    }

    method Grow()
      requires Core() && buckets * 3 / 4 < len < buckets
      modifies `slots, `spare, `buckets, spare
      ensures Valid() && SameTables()
    {
      GrowthFits(limit, buckets, len);
      Resize(buckets * 2);
    }

    method Admit(key: u64)
      requires Valid() && key !in members && len < limit
      modifies `zero, `len, `members, slots
      ensures Core() && members == old(members) + {key} && len == old(len) + 1
    {
      AdmitKeeps(Keys(Table(), 0), zero, members, key);
      if key == 0 {
        zero := true;
      } else {
        RoomToStore();
        Store(key);
      }
      Count(key);
    }

    /** The bookkeeping half of an insertion, after the table already represents the new set. */
    method Count(key: u64)
      requires Shape() && Sized() && Probing.Table(Table(), 0, HomeIn(buckets))
      requires key !in members && len == |members| < limit
      requires Represents(Keys(Table(), 0), zero, members + {key})
      modifies `len, `members
      ensures Core() && members == old(members) + {key} && len == old(len) + 1
    {
      members := members + {key};
      len := len + 1;
    }

    lemma RoomToStore()
      requires Valid()
      ensures |Keys(Table(), 0)| + 1 < buckets
    {
      KeysWithinMembers();
    }

    lemma KeysWithinMembers()
      requires buckets <= slots.Length && Refines()
      ensures |Keys(Table(), 0)| <= |members|
    {
      SubsetSize(Keys(Table(), 0), members);
    }

    method Resize(target: nat)
      requires Core() && INITIAL_BUCKETS <= target <= spare.Length && IsPow2(target)
      requires len <= target * 3 / 4
      modifies `slots, `spare, `buckets, spare
      ensures Valid() && SameTables()
    {
      KeysWithinMembers();
      Rehash(target);
    }

    method Store(key: u64)
      requires Shape() && Probing.Table(Table(), 0, HomeIn(buckets))
      requires key != 0 && key !in Keys(Table(), 0) && |Keys(Table(), 0)| + 1 < buckets
      modifies slots
      ensures Probing.Table(Table(), 0, HomeIn(buckets))
      ensures Keys(Table(), 0) == old(Keys(Table(), 0)) + {key}
    {
      ghost var t := Table();
      var index := Bucket(key);
      StoreKeeps(t, 0, HomeIn(buckets), key, index);
      slots[index] := key;
      assert Table() == t[index := key];
      FewKeysLeaveEmpty(Table(), 0);
    }

    /** Backward-shift deletion, then a shrink below three sixteenths. */
    method Remove(key: u64) returns (removed: bool)
      requires Valid()
      modifies this, slots, spare
      ensures Valid() && SameTables()
      ensures removed <==> key in old(members)
      ensures members == old(members) - {key}
    {
      var present := Contains(key);
      if !present {
        return false;
      }
      Release(key);
      if buckets > INITIAL_BUCKETS && len < buckets * 3 / 16 {
        ShrinkFits(buckets, len);
        Resize(buckets / 2);
      }
      removed := true;
    }

    method Release(key: u64)
      requires Valid() && key in members
      modifies `zero, `len, `members, slots
      ensures Valid() && members == old(members) - {key} && len == old(len) - 1
    {
      ReleaseKeeps(Keys(Table(), 0), zero, members, key);
      if key == 0 {
        zero := false;
      } else {
        CloseHole(key);
      }
      members := members - {key};
      len := len - 1;
    }

    method CloseHole(key: u64)
      requires Shape() && Probing.Table(Table(), 0, HomeIn(buckets))
      requires key != 0 && key in Keys(Table(), 0)
      modifies slots
      ensures Probing.Table(Table(), 0, HomeIn(buckets))
      ensures Keys(Table(), 0) == old(Keys(Table(), 0)) - {key}
    {
      var hole := Bucket(key);
      ghost var s := Table();
      assert s[hole] == key;
      ShiftBack(slots, buckets, hole);
      assert Table()[hole] == slots[hole];
    }

    /** Entries that probe through the hole move back into it, one after another. */
    static method ShiftBack(table: array<u64>, n: nat, start: nat)
      requires start < n <= table.Length && table[start] != 0
      requires Probing.Table(table[..n], 0, HomeIn(n))
      modifies table
      ensures Probing.Table(table[..n], 0, HomeIn(n))
      ensures Keys(table[..n], 0) == old(Keys(table[..n], 0) - {table[start]})
    {
      ghost var h, t := HomeIn(n), table[..n];
      ghost var keys := Keys(t, 0) - {t[start]};
      ghost var c := ShiftStart(t, 0, h, start);
      t := t[start := 0];
      var hole: nat, scan: nat := start, Next(start, n);
      while table[scan] != 0
        invariant hole < n && scan < n && |t| == n && hole != scan
        invariant Shifting(t, 0, h, keys, start, hole, scan, c)
        invariant forall j :: 0 <= j < n && j != hole ==> table[j] == t[j]
        decreases n - Dist(start, scan, n)
      {
        var entry := table[scan];
        ShiftStep(t, 0, h, keys, start, hole, scan, c);
        var home := Home(entry, n);
        if Dist(home, hole, n) < Dist(home, scan, n) {
          table[hole] := entry;
          t := t[hole := entry][scan := 0];
          hole := scan;
        }
        scan := Next(scan, n);
      }
      ShiftDone(t, 0, h, keys, start, hole, scan, c);
      table[hole] := 0;
      assert table[..n] == t;
    }

    method Rehash(target: nat)
      requires Shape() && INITIAL_BUCKETS <= target <= spare.Length
      requires Unique(Table(), 0) && |Keys(Table(), 0)| < target
      modifies `slots, `spare, `buckets, spare
      ensures Shape() && buckets == target && slots == old(spare) && spare == old(slots)
      ensures Probing.Table(Table(), 0, HomeIn(target))
      ensures Keys(Table(), 0) == old(Keys(Table(), 0))
    {
      hide Unique, Reachable, Keys, HasEmpty, Passed;
      var n, table, output := buckets, slots, spare;
      ghost var h, s := HomeIn(target), Table();
      ClearSpare(target);
      ghost var t := output[..target];
      NothingStored(t, h);
      NothingFilled(s[n..]);
      assert s[n..] == s[n..][..0];
      var i: nat := n;
      while i > 0
        invariant i <= n && table[..n] == s && t == output[..target]
        invariant Reachable(t, 0, h) && Unique(t, 0)
        invariant Keys(t, 0) == Keys(s[i..], 0) <= Keys(s, 0)
      {
        i := i - 1;
        var key := table[i];
        assert s[i] == key;
        KeysOfSuffix(s, 0, i);
        if key != 0 {
          SubsetSize(Keys(t, 0), Keys(s, 0));
          FewKeysLeaveEmpty(t, 0);
          var index := FreeSlot(output, key, target);
          StoreKeeps(t, 0, h, key, index);
          output[index] := key;
          t := t[index := key];
        }
      }
      assert s[0..] == s;
      FewKeysLeaveEmpty(t, 0);
      slots, spare := output, table;
      buckets := target;
      assert Table() == t;
    }

    method ClearSpare(target: nat)
      requires target <= spare.Length
      modifies spare
      ensures forall j :: 0 <= j < target ==> spare[j] == 0
    {
      for i := 0 to target
        invariant forall j :: 0 <= j < i ==> spare[j] == 0
      {
        spare[i] := 0;
      }
    }

    /** First empty slot of a table on the probe path of an absent key. */
    static method FreeSlot(table: array<u64>, key: u64, target: nat) returns (index: nat)
      requires key != 0 && 0 < target <= table.Length
      requires HasEmpty(table[..target], 0) && key !in Keys(table[..target], 0)
      ensures index < target && table[index] == 0
      ensures Passed(table[..target], 0, key, Home(key, target), index)
    {
      ghost var t, h := table[..target], HomeIn(target);
      ghost var c :| 0 <= c < target && t[c] == 0;
      index := Home(key, target);
      while table[index] != 0
        invariant index < target && Passed(t, 0, key, Home(key, target), index)
        invariant Dist(h(key), index, target) <= Dist(h(key), c, target)
        decreases target - Dist(h(key), index, target)
      {
        assert t[index] == table[index];
        index := Next(index, target);
      }
    }

    /** The order of a stream: the zero key first, then buckets ascending. */
    ghost function Order(): seq<u64>
      requires Valid()
      reads this, slots, spare
    {
      (if zero then [0] else []) + Filled(slots[..buckets])
    }

    /** Every member exactly once, in bucket order. */
    method Stream() returns (out: seq<u64>)
      requires Valid()
      ensures multiset(out) == multiset(members)
      ensures out == Order()
    {
      var stored := Stored(slots, buckets);
      if zero {
        out := [0] + stored;
        assert members == Keys(Table(), 0) + {0};
      } else {
        out := stored;
        assert members == Keys(Table(), 0);
      }
    }

    static method Stored(table: array<u64>, n: nat) returns (out: seq<u64>)
      requires n <= table.Length && Unique(table[..n], 0)
      ensures multiset(out) == multiset(Keys(table[..n], 0)) && out == Filled(table[..n])
    {
      hide Filled, Keys, Unique;
      ghost var s := table[..n];
      NothingFilled(s);
      out := [];
      for i := 0 to n
        invariant multiset(out) == multiset(Keys(s[..i], 0)) && out == Filled(s[..i])
      {
        FilledNext(s, i);
        KeysOfPrefix(s, 0, i);
        if table[i] != 0 {
          AppendMember(out, Keys(s[..i], 0), s[i]);
          out := out + [table[i]];
        }
      }
      assert s[..n] == s;
    }
  }

  lemma AppendMember<T>(out: seq<T>, members: set<T>, x: T)
    requires multiset(out) == multiset(members) && x !in members
    ensures multiset(out + [x]) == multiset(members + {x})
  {
    assert multiset(members + {x}) == multiset(members) + multiset{x};
  }
}
