/**
 The tick owner's duplicate set: fixed open addressing that deletes by clearing a slot and
 reinserting the cluster behind it, so that no tombstones accumulate. It refines a set of
 identities for every hash function.
 */
module Identities {
  import opened Probing
  import opened World
  import opened TickTypes

  type Slot = Option<Identity>

  /** Slots reserved for a capacity: the next power of two of twice the capacity. */
  function SlotCount(capacity: nat): (r: nat)
    ensures r >= 2 * capacity && r > 0
  {
    NextPow2(2 * capacity)
  }

  ghost predicate Represents(keys: set<Slot>, members: set<Identity>) {
    forall k :: k in members <==> Some(k) in keys
  }

  lemma UpdateKeeps(keys: set<Slot>, members: set<Identity>, value: Identity)
    requires Represents(keys, members) && None !in keys
    ensures Represents(keys + {Some(value)}, members + {value})
    ensures Represents(keys - {Some(value)}, members - {value})
    ensures value in members ==> members + {value} == members
    ensures value !in members ==> members - {value} == members
  {
  }

  class IdentitySet {
    const slots: array<Slot>
    var count: nat
    /** The map's keyed hash; any function will do. */
    const hash: Identity -> nat
    const capacity: nat
    /** The mathematical set this table refines. */
    ghost var members: set<Identity>

    function Home(slot: Slot): nat
      requires slots.Length > 0
      ensures Home(slot) < slots.Length
    {
      if slot.Some? then hash(slot.value) % slots.Length else 0
    }

    ghost function HomeFn(): (h: Slot -> nat)
      requires slots.Length > 0
      ensures Bounded(h, slots.Length)
    {
      (slot: Slot) => Home(slot)
    }


    ghost predicate Valid()
      reads this, slots
    {
      && 2 * capacity <= slots.Length && 0 < slots.Length
      && Reachable(slots[..], None, HomeFn()) && Unique(slots[..], None)
      && |Keys(slots[..], None)| == count == |members|
      && Represents(Keys(slots[..], None), members)
    }

    constructor (capacity: nat, hash: Identity -> nat)
      ensures Valid() && members == {} && this.capacity == capacity && fresh(slots)
    {
      slots := new Slot[SlotCount(capacity)](_ => None);
      count := 0;
      this.hash := hash;
      this.capacity := capacity;
      members := {};
      new;
      assert Keys(slots[..], None) == {};
    }

    /** First slot on the probe path of a value that is empty or holds it. */
    method Probe(value: Identity) returns (index: nat)
      requires 0 < slots.Length && HasEmpty(slots[..], None)
      ensures index < slots.Length && (slots[index] == None || slots[index] == Some(value))
      ensures Passed(slots[..], None, Some(value), Home(Some(value)), index)
    {
      var n, key := slots.Length, Some(value);
      ghost var t := slots[..];
      ghost var c :| 0 <= c < n && t[c] == None;
      index := Home(key);
      while slots[index] != None && slots[index] != Some(value)
        invariant index < n && Passed(t, None, key, Home(key), index)
        invariant Dist(Home(key), index, n) <= Dist(Home(key), c, n)
        decreases n - Dist(Home(key), index, n)
      {
        assert t[index] == slots[index];
        index := Next(index, n);
      }
    }

    method Contains(value: Identity) returns (found: bool)
      requires Valid() && count < slots.Length
      ensures found <==> value in members
    {
      FewKeysLeaveEmpty(slots[..], None);
      var index := Probe(value);
      ProbeDecides(slots[..], None, HomeFn(), Some(value), index);
      found := slots[index] != None;
    }

    /** Inserting below the slot count always finds room; a present identity changes nothing. */
    method Insert(value: Identity)
      requires Valid() && count < slots.Length
      modifies this, slots
      ensures Valid() && members == old(members) + {value}
    {
      FewKeysLeaveEmpty(slots[..], None);
      UpdateKeeps(Keys(slots[..], None), members, value);
      var index := Probe(value);
      ProbeDecides(slots[..], None, HomeFn(), Some(value), index);
      if slots[index] == None {
        Store(value, index);
        count := count + 1;
        members := members + {value};
      }
    }

    method Store(value: Identity, index: nat)
      requires index < slots.Length && slots[index] == None && Some(value) !in Keys(slots[..], None)
      requires Reachable(slots[..], None, HomeFn()) && Unique(slots[..], None)
      requires Passed(slots[..], None, Some(value), Home(Some(value)), index)
      modifies slots
      ensures Reachable(slots[..], None, HomeFn()) && Unique(slots[..], None)
      ensures Keys(slots[..], None) == old(Keys(slots[..], None)) + {Some(value)}
    {
      ghost var s := slots[..];
      StoreKeeps(s, None, HomeFn(), Some(value), index);
      slots[index] := Some(value);
      assert slots[..] == s[index := Some(value)];
    }

    /** Clears the slot, then takes and reinserts every entry of the following cluster. */
    method Remove(value: Identity)
      requires Valid() && count < slots.Length
      modifies this, slots
      ensures Valid() && members == old(members) - {value}
    {
      FewKeysLeaveEmpty(slots[..], None);
      UpdateKeeps(Keys(slots[..], None), members, value);
      var index := Probe(value);
      ProbeDecides(slots[..], None, HomeFn(), Some(value), index);
      if slots[index] != None {
        ReinsertCluster(index);
        count := count - 1;
        members := members - {value};
      }
    }

    method ReinsertCluster(start: nat)
      requires start < slots.Length && slots[start] != None && HasEmpty(slots[..], None)
      requires Reachable(slots[..], None, HomeFn()) && Unique(slots[..], None)
      modifies slots
      ensures Reachable(slots[..], None, HomeFn()) && Unique(slots[..], None)
      ensures Keys(slots[..], None) == old(Keys(slots[..], None) - {slots[start]})
    {
      var n := slots.Length;
      ghost var h, s := HomeFn(), slots[..];
      ghost var c := ClusterEnd(s, None, start);
      ReinsertStart(s, None, h, start, c);
      KeysOfRemoved(s, None, start);
      slots[start] := None;
      assert slots[..] == s[start := None];
      ghost var keys := Keys(s, None) - {s[start]};
      var index: nat := Next(start, n);
      while slots[index] != None
        invariant index < n
        invariant Reinserting(slots[..], None, h, start, index, c)
        invariant Unique(slots[..], None) && Keys(slots[..], None) == keys
        decreases n - Dist(Next(c, n), index, n)
      {
        ghost var t := slots[..];
        var displaced := slots[index];
        slots[index] := None;
        ghost var taken := slots[..];
        assert taken == t[index := None] && taken[index] == None;
        var place := Probe(displaced.value);
        ReinsertPlace(t, h, start, index, c, place);
        slots[place] := displaced;
        assert slots[..] == t[index := None][place := displaced];
        index := Next(index, n);
      }
      ReinsertDone(slots[..], None, h, start, index, c);
    }

    lemma ReinsertPlace(t: seq<Slot>, h: Slot -> nat, start: nat, index: nat, c: nat, place: nat)
      requires Bounded(h, |t|) && Reinserting(t, None, h, start, index, c) && Unique(t, None)
      requires t[index] != None && place < |t|
      requires t[index := None][place] == None || t[index := None][place] == t[index]
      requires Passed(t[index := None], None, t[index], h(t[index]), place)
      ensures t[index := None][place] == None
      ensures Reinserting(t[index := None][place := t[index]], None, h, start, Next(index, |t|), c)
      ensures Unique(t[index := None][place := t[index]], None)
      ensures Keys(t[index := None][place := t[index]], None) == Keys(t, None)
      ensures Dist(Next(c, |t|), index, |t|) < Dist(Next(c, |t|), Next(index, |t|), |t|)
    {
      ReinsertStep(t, None, h, start, index, c, place);
      ReinsertKeys(t, None, index, place);
      ReinsertSlot(t, None, h, start, index, c, place);
    }

    method Clear()
      requires Valid()
      modifies this, slots
      ensures Valid() && members == {}
    {
      if count != 0 {
        for i := 0 to slots.Length
          invariant forall j :: 0 <= j < i ==> slots[j] == None
        {
          slots[i] := None;
        }
        count := 0;
        members := {};
        assert Keys(slots[..], None) == {};
      }
    }
  }
}
