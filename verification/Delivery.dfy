/**
 The ordered delivery queue of one connection. Whole groups are admitted; their packets are
 written one by one, and a failure cuts the stream once and for all.
 */
module Delivery {
  import opened World

  type Bytes = seq<u8>

  datatype SendError =
    | InvalidLimits | ControlBudget | Closed | DeliveryFull | DeliveryBytes | TickAlreadyStarted | InvalidReadiness
    | AlreadyAdmitted | NoPacket

  datatype Packet = Start | Data(position: ChunkAddress, bytes: Bytes) | Finish(chunks: nat) | Forget(forgotten: ChunkAddress)

  datatype Span = Span(position: ChunkAddress, start: nat, len: nat)

  /** The cursor of a batch counts its written packets: Start, then each Data, then Finish. */
  datatype Group = Batch(spans: seq<Span>, data: Bytes, cursor: nat) | ForgetGroup(position: ChunkAddress) {
    ghost predicate Valid() {
      Batch? ==>
        && |spans| >= 1 && cursor <= |spans| + 1
        && forall i :: 0 <= i < |spans| ==> spans[i].start + spans[i].len <= |data|
    }

    /** The whole group as packets, whatever was written of it. */
    ghost function Packets(): (r: seq<Packet>)
      requires Valid()
      ensures |r| == if Batch? then |spans| + 2 else 1
    {
      match this
      case ForgetGroup(p) => [Forget(p)]
      case Batch(_, _, _) => [Start] + seq(|spans|, i requires 0 <= i < |spans| => Piece(i)) + [Finish(|spans|)]
    }

    ghost function Piece(i: nat): Packet
      requires Valid() && Batch? && i < |spans|
    {
      Data(spans[i].position, data[spans[i].start..spans[i].start + spans[i].len])
    }

    ghost function Written(): nat {
      if Batch? then cursor else 0
    }

    ghost function Charge(spanBytes: nat): nat {
      if Batch? then |spans| * spanBytes + |data| else 0
    }

    ghost function Unwritten(): Group {
      if Batch? then this.(cursor := 0) else this
    }
  }

  /** The packets of completed groups: (Forget | Start Data^n Finish(n), n >= 1)*. */
  ghost function AllPackets(groups: seq<Group>): seq<Packet>
    requires forall g :: g in groups ==> g.Valid()
  {
    if groups == [] then [] else AllPackets(groups[..|groups| - 1]) + groups[|groups| - 1].Packets()
  }

  ghost function Charges(groups: seq<Group>, spanBytes: nat): nat {
    if groups == [] then 0 else groups[0].Charge(spanBytes) + Charges(groups[1..], spanBytes)
  }

  lemma {:induction false} ChargesAppend(groups: seq<Group>, g: Group, spanBytes: nat)
    ensures Charges(groups + [g], spanBytes) == Charges(groups, spanBytes) + g.Charge(spanBytes)
  {
    if groups == [] {
      assert groups + [g] == [g];
    } else {
      ChargesAppend(groups[1..], g, spanBytes);
      assert (groups + [g])[1..] == groups[1..] + [g];
    }
  }

  ghost function Reset(groups: seq<Group>): seq<Group> {
    seq(|groups|, i requires 0 <= i < |groups| => groups[i].Unwritten())
  }

  /** What reached the client: completed groups in admission order, then a proper prefix of one more. */
  ghost predicate Stream(emitted: seq<Packet>, done: seq<Group>, current: Group, written: nat) {
    && (forall g :: g in done ==> g.Valid()) && current.Valid() && written < |current.Packets()|
    && emitted == AllPackets(done) + current.Packets()[..written]
  }

  ghost predicate OpenOk(groups: seq<Group>, admitted: seq<Group>, done: seq<Group>, emitted: seq<Packet>) {
    && (forall g :: g in groups ==> g.Valid()) && (forall g :: g in done ==> g.Valid())
    && (forall i :: 1 <= i < |groups| ==> groups[i].Written() == 0)
    && admitted == done + Reset(groups)
    && emitted == AllPackets(done) + if groups == [] then [] else groups[0].Packets()[..groups[0].Written()]
  }

  /** After a failure: some group was cut short, and everything before it was complete. */
  ghost predicate CutOk(admitted: seq<Group>, done: seq<Group>, emitted: seq<Packet>) {
    && done <= admitted && (forall g :: g in admitted ==> g.Valid())
    && (emitted == AllPackets(done)
        || (|done| < |admitted| && exists n :: Stream(emitted, done, admitted[|done|], n)))
  }

  lemma ResetPackets(g: Group)
    requires g.Valid()
    ensures g.Unwritten().Valid() && g.Unwritten().Packets() == g.Packets()
  {
    if g.Batch? {
      var u := g.Unwritten();
      assert forall i :: 0 <= i < |g.spans| ==> u.Piece(i) == g.Piece(i);
    }
  }

  lemma OpenAppend(groups: seq<Group>, admitted: seq<Group>, done: seq<Group>, emitted: seq<Packet>, g: Group)
    requires OpenOk(groups, admitted, done, emitted) && g.Valid() && g.Written() == 0
    ensures OpenOk(groups + [g], admitted + [g], done, emitted)
  {
    assert Reset(groups + [g]) == Reset(groups) + [g];
  }

  /** Writing the front packet extends the stream by exactly that packet. */
  lemma OpenWrite(groups: seq<Group>, admitted: seq<Group>, done: seq<Group>, emitted: seq<Packet>, front: Group)
    requires OpenOk(groups, admitted, done, emitted) && groups != [] && front == groups[0]
    ensures var next := front.Packets()[front.Written()];
            if front.Written() + 1 < |front.Packets()|
            then OpenOk([front.(cursor := front.cursor + 1)] + groups[1..], admitted, done, emitted + [next])
            else OpenOk(groups[1..], admitted, done + [front.Unwritten()], emitted + [next])
  {
    hide AllPackets, Reset, Group.Packets;
    assert front in groups;
    if front.Written() + 1 < |front.Packets()| {
      OpenAdvances(groups, admitted, done, emitted, front);
    } else {
      OpenCompletes(groups, admitted, done, emitted, front);
    }
  }

  /** A packet inside a batch moves its cursor. */
  lemma OpenAdvances(groups: seq<Group>, admitted: seq<Group>, done: seq<Group>, emitted: seq<Packet>, front: Group)
    requires OpenOk(groups, admitted, done, emitted) && groups != [] && front == groups[0]
    requires front.Written() + 1 < |front.Packets()|
    ensures OpenOk([front.(cursor := front.cursor + 1)] + groups[1..], admitted, done, emitted + [front.Packets()[front.Written()]])
  {
    hide AllPackets, Group.Packets, Reset;
    var n := front.Written();
    var moved := front.(cursor := front.cursor + 1);
    var after := [moved] + groups[1..];
    ResetPackets(front);
    ResetPackets(moved);
    ResetHead(groups, moved);
    assert front.Packets()[..n + 1] == front.Packets()[..n] + [front.Packets()[n]];
    assert forall i :: 1 <= i < |after| ==> after[i] == groups[i];
  }

  lemma ResetHead(groups: seq<Group>, g: Group)
    requires groups != [] && g.Unwritten() == groups[0].Unwritten()
    ensures Reset([g] + groups[1..]) == Reset(groups)
  {
  }

  /** The last packet of a group completes it. */
  lemma OpenCompletes(groups: seq<Group>, admitted: seq<Group>, done: seq<Group>, emitted: seq<Packet>, front: Group)
    requires OpenOk(groups, admitted, done, emitted) && groups != [] && front == groups[0]
    requires front.Written() + 1 == |front.Packets()|
    ensures OpenOk(groups[1..], admitted, done + [front.Unwritten()], emitted + [front.Packets()[front.Written()]])
  {
    hide Group.Packets;
    var n := front.Written();
    ResetPackets(front);
    var d := done + [front.Unwritten()];
    assert d[..|d| - 1] == done;
    assert front.Packets() == front.Packets()[..n] + [front.Packets()[n]];
    assert Reset(groups) == [front.Unwritten()] + Reset(groups[1..]);
    if groups[1..] != [] {
      assert groups[1].Written() == 0;
    }
  }

  lemma CutFromOpen(groups: seq<Group>, admitted: seq<Group>, done: seq<Group>, emitted: seq<Packet>)
    requires OpenOk(groups, admitted, done, emitted)
    ensures CutOk(admitted, done, emitted)
  {
    forall g | g in admitted ensures g.Valid() {
      if g !in done {
        var i :| 0 <= i < |groups| && Reset(groups)[i] == g;
        ResetPackets(groups[i]);
      }
    }
    if groups != [] {
      var front := groups[0];
      ResetPackets(front);
      assert admitted[|done|] == front.Unwritten();
      assert Stream(emitted, done, front.Unwritten(), front.Written());
    }
  }

  lemma PacketAtCursor(g: Group)
    requires g.Valid()
    ensures var packet := g.Packets()[g.Written()];
      match g
      case ForgetGroup(p) => packet == Forget(p)
      case Batch(spans, data, cursor) =>
        packet == if cursor == 0 then Start else if cursor - 1 < |spans| then g.Piece(cursor - 1) else Finish(|spans|)
  {
  }

  class ChunkDeliveryQueue {
    const maxGroups: nat
    const maxBytes: nat
    /** Charged for the queue itself and for each span of a batch. */
    const baseBytes: nat
    const spanBytes: nat
    var groups: seq<Group>
    var usedBytes: nat
    var closed: bool
    /** Every group ever admitted, the completed ones, and every packet written. */
    ghost var admitted: seq<Group>
    ghost var done: seq<Group>
    ghost var emitted: seq<Packet>

    ghost predicate Valid() reads this {
      && |groups| <= maxGroups && usedBytes <= maxBytes
      && usedBytes == baseBytes + Charges(groups, spanBytes)
      && if closed then groups == [] && CutOk(admitted, done, emitted) else OpenOk(groups, admitted, done, emitted)
    }

    constructor (maxGroups: nat, maxBytes: nat, baseBytes: nat, spanBytes: nat)
      requires baseBytes <= maxBytes
      ensures Valid() && groups == [] && emitted == [] && !closed && usedBytes == baseBytes
      ensures this.maxGroups == maxGroups && this.maxBytes == maxBytes
    {
      this.maxGroups, this.maxBytes, this.baseBytes, this.spanBytes := maxGroups, maxBytes, baseBytes, spanBytes;
      groups, usedBytes, closed := [], baseBytes, false;
      admitted, done, emitted := [], [], [];
    }

    /**
     An empty queue. The group table is charged to the queue's bytes as it is asked for, and
     again with the capacity the allocator gave it.
     */
    static method New(maxGroups: nat, maxBytes: nat, groupBytes: nat, capacity: nat, spanBytes: nat)
        returns (r: Result<ChunkDeliveryQueue, SendError>)
      requires maxGroups <= capacity
      ensures r.Err? ==> r.error == if maxGroups == 0 || maxGroups * groupBytes > USIZE_MAX then InvalidLimits else DeliveryBytes
      ensures r.Err? <==> maxGroups == 0 || maxGroups * groupBytes > USIZE_MAX || capacity * groupBytes > maxBytes
      ensures r.Ok? ==>
        && fresh(r.value) && r.value.Valid() && !r.value.closed && r.value.groups == [] && r.value.emitted == []
        && r.value.maxGroups == maxGroups && r.value.maxBytes == maxBytes && r.value.usedBytes == capacity * groupBytes
    {
      var requested, granted := maxGroups * groupBytes, capacity * groupBytes;
      assert granted == requested + (capacity - maxGroups) * groupBytes;
      if maxGroups == 0 || requested > USIZE_MAX {
        return Err(InvalidLimits);
      }
      if requested > maxBytes {
        return Err(DeliveryBytes);
      }
      if granted > maxBytes {
        return Err(DeliveryBytes);
      }
      var queue := new ChunkDeliveryQueue(maxGroups, maxBytes, granted, spanBytes);
      r := Ok(queue);
    }

    function CheckGroup(): (r: Option<SendError>) reads this
      ensures closed ==> r == Some(Closed)
      ensures !closed ==> (r == None <==> |groups| != maxGroups) && (r.Some? ==> r.value == DeliveryFull)
    {
      if closed then Some(Closed) else if |groups| == maxGroups then Some(DeliveryFull) else None
    }

    /** The next packet to write: the front group's packet at its cursor. */
    method FrontPacket() returns (r: Option<Packet>)
      requires Valid()
      ensures groups == [] ==> r == None
      ensures groups != [] ==> groups[0].Valid() && r == Some(groups[0].Packets()[groups[0].Written()])
    {
      hide Valid, Group.Packets;
      if groups == [] {
        return None;
      }
      FrontIsValid();
      PacketAtCursor(groups[0]);
      match groups[0]
      case ForgetGroup(p) =>
        return Some(Forget(p));
      case Batch(spans, data, cursor) =>
        if cursor == 0 {
          return Some(Start);
        } else if cursor - 1 < |spans| {
          var span := spans[cursor - 1];
          return Some(Data(span.position, data[span.start..span.start + span.len]));
        } else {
          return Some(Finish(|spans|));
        }
    }

    lemma FrontIsValid()
      requires Valid() && groups != []
      ensures groups[0].Valid()
    {
      assert groups[0] in groups;
    }

    /** Records that the front packet was written; a completed batch gives back its bytes. */
    method PacketWritten() returns (r: Result<(), SendError>)
      requires Valid()
      modifies this
      ensures Valid() && closed == old(closed) && admitted == old(admitted)
      ensures r == if closed then Err(Closed) else if old(groups) == [] then Err(NoPacket) else Ok(())
      ensures r.Err? ==> groups == old(groups) && emitted == old(emitted) && done == old(done) && usedBytes == old(usedBytes)
      ensures r.Ok? ==> old(groups)[0].Valid() && emitted == old(emitted) + [old(groups)[0].Packets()[old(groups)[0].Written()]]
    {
      if closed {
        return Err(Closed);
      }
      if groups == [] {
        return Err(NoPacket);
      }
      var front := groups[0];
      assert front in groups;
      OpenWrite(groups, admitted, done, emitted, front);
      ghost var next := front.Packets()[front.Written()];
      var completed := true;
      if front.Batch? {
        front := front.(cursor := front.cursor + 1);
        completed := front.cursor == |front.spans| + 2;
      }
      if completed {
        if front.Batch? {
          usedBytes := usedBytes - (|front.spans| * spanBytes + |front.data|);
        }
        done := done + [groups[0].Unwritten()];
        groups := groups[1..];
      } else {
        assert ([front] + groups[1..])[1..] == groups[1..];
        groups := [front] + groups[1..];
      }
      emitted := emitted + [next];
      r := Ok(());
    }

    /** Closes for good; the unwritten packets are dropped and never reappear. */
    method Fail()
      requires Valid()
      modifies this
      ensures Valid() && closed && groups == [] && usedBytes == baseBytes
      ensures emitted == old(emitted) && done == old(done) && admitted == old(admitted)
    {
      if !closed {
        CutFromOpen(groups, admitted, done, emitted);
      }
      closed := true;
      groups := [];
      usedBytes := baseBytes;
    }

    /** Appends one checked group. */
    method Push(g: Group)
      requires Valid() && CheckGroup() == None && g.Valid() && g.Written() == 0
      requires usedBytes + g.Charge(spanBytes) <= maxBytes
      modifies this
      ensures Valid() && !closed && groups == old(groups) + [g] && admitted == old(admitted) + [g]
      ensures emitted == old(emitted) && done == old(done)
    {
      ChargesAppend(groups, g, spanBytes);
      OpenAppend(groups, admitted, done, emitted, g);
      if g.Batch? {
        usedBytes := usedBytes + (|g.spans| * spanBytes + |g.data|);
      }
      groups := groups + [g];
      admitted := admitted + [g];
    }
  }
}
