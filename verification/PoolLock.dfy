/**
 The state behind the pool's lock, updated in place. Every critical section is one step of
 the protocol; its unsigned counters never go below zero.
 */
module PoolLock {
  import opened World
  import opened CpuPool

  class PoolState {
    const config: Config
    var queue: seq<nat>
    var closed: bool
    var inFlight: nat
    var queued: nat
    var running: nat
    var reserved: nat
    var completed: nat

    constructor (config: Config)
      ensures this.config == config && Shows(Start(config))
    {
      hide Inv;
      this.config, queue, closed := config, [], false;
      inFlight, queued, running, reserved, completed := 0, 0, 0, 0, 0;
      new;
      StartOk(config);
    }

    /** The lock holds what the protocol's state says. */
    ghost predicate Shows(s: State)
      reads this
    {
      Inv(config, s) && queue == s.queue && closed == s.closed && Ledger(inFlight, queued, running, reserved, completed) == s.ledger
    }

    /** Takes a slot and its bytes, or says why not and takes nothing. */
    method TryReserve(bytes: nat, ghost s: State, ghost id: nat, ghost kind: Kind) returns (r: Result<(), AdmissionError>)
      requires Shows(s) && id !in s.jobs
      modifies this
      ensures r == if old(closed) then Err(AdmissionError.Closed) else if old(inFlight) == config.maxJobs then Err(JobLimit)
                   else if bytes > config.bufferBytes - old(reserved) then Err(ByteLimit) else Ok(())
      ensures r.Err? ==> Shows(s) && Admission(s, config, bytes) == Some(r.error)
      ensures r.Ok? ==> inFlight == old(inFlight) + 1 && reserved == old(reserved) + bytes
      ensures r.Ok? ==> Enabled(config, s, Reserve(id, kind, bytes)) && Shows(Apply(config, s, Reserve(id, kind, bytes)))
    {
      hide Inv;
      ghost var step := Reserve(id, kind, bytes);
      BytesFit(config, s);
      if closed {
        return Err(AdmissionError.Closed);
      }
      if inFlight == config.maxJobs {
        return Err(JobLimit);
      }
      if bytes > config.bufferBytes - reserved {
        return Err(ByteLimit);
      }
      StepKeepsInv(config, s, step);
      inFlight, reserved := inFlight + 1, reserved + bytes;
      r := Ok(());
    }

    /** Dropping a lease returns its slot and bytes, in whatever step it happens. */
    method DropLease(bytes: nat, ghost s: State, ghost step: Step)
      requires Shows(s) && Enabled(config, s, step) && Returns(s, step)
      requires s.jobs[Target(s, step).value].bytes == bytes
      modifies `inFlight, `reserved
      ensures Shows(Apply(config, s, step))
    {
      hide Inv, Enabled, Apply, Moved, Ready, Returns;
      ReturnOnly(config, s, step);
      StepKeepsInv(config, s, step);
      inFlight, reserved := inFlight - 1, reserved - bytes;
    }

    /** Queues a reserved job unless the pool has closed meanwhile. */
    method Enqueue(id: nat, ghost s: State) returns (r: Result<(), AdmissionError>)
      requires Shows(s) && id in s.jobs && s.jobs[id].stage.Reserved?
      modifies `queue, `queued
      ensures r.Ok? == !s.closed && (r.Err? ==> r.error == AdmissionError.Closed && Shows(s))
      ensures r.Ok? ==> Shows(Apply(config, s, Submit(id))) && |queue| <= config.maxJobs
    {
      hide Inv;
      if closed {
        return Err(AdmissionError.Closed);
      }
      StepKeepsInv(config, s, Submit(id));
      QueueHasRoom(config, s, id);
      queue, queued := queue + [id], queued + 1;
      r := Ok(());
    }

    /** An idle worker's turn: the oldest job, or nothing and whether to leave for good. */
    method NextJob(w: nat, ghost s: State) returns (job: Option<nat>, leave: bool)
      requires Shows(s) && w < |s.workers| && s.workers[w].Idle?
      modifies `queue, `queued, `running
      ensures job.Some? ==> s.queue != [] && job.value == s.queue[0] && Enabled(config, s, Claim(w)) && Shows(Apply(config, s, Claim(w)))
      ensures job.None? ==> s.queue == [] && Shows(s) && leave == s.closed && (leave ==> Enabled(config, s, Exit(w)))
    {
      hide Inv;
      leave := false;
      if queue != [] {
        HeadIsQueued(config, s);
        StepKeepsInv(config, s, Claim(w));
        job := Some(queue[0]);
        queue, queued, running := queue[1..], queued - 1, running + 1;
      } else {
        job, leave := None, closed;
      }
    }

    method FinishJob(w: nat, ghost s: State)
      requires Shows(s) && Enabled(config, s, Step.FinishJob(w))
      modifies `running, `completed
      ensures Shows(Apply(config, s, Step.FinishJob(w)))
    {
      hide Inv;
      StepKeepsInv(config, s, Step.FinishJob(w));
      FinishOnly(config, s, w);
      running, completed := running - 1, completed + 1;
    }

    method Close(ghost s: State)
      requires Shows(s)
      modifies `closed
      ensures Shows(Apply(config, s, Step.Close))
    {
      hide Inv;
      StepKeepsInv(config, s, Step.Close);
      closed := true;
    }
  }

  lemma BytesFit(config: Config, s: State)
    requires Inv(config, s)
    ensures s.ledger.inFlight <= config.maxJobs && s.ledger.reserved <= config.bufferBytes
  {
  }

  /** The step ends its job's lease. */
  predicate Returns(s: State, step: Step) {
    var target := Target(s, step);
    target.Some? && target.value in s.jobs && s.jobs[target.value].lease && !Moved(s.jobs[target.value], s.closed, step).lease
  }

  /** Such a step changes nothing else behind the lock; and the lease it ends is in the books. */
  lemma ReturnOnly(config: Config, s: State, step: Step)
    requires Inv(config, s) && Enabled(config, s, step) && Returns(s, step)
    ensures Target(s, step).Some? && Target(s, step).value in s.jobs
    ensures var j := s.jobs[Target(s, step).value];
      var after := Apply(config, s, step);
      && s.ledger.inFlight >= 1 && s.ledger.reserved >= j.bytes
      && after.queue == s.queue && after.closed == s.closed && after.ledger == Returned(s.ledger, j.bytes)
  {
    hide Inv, Apply, Enabled, Total;
    Touches(config, s, step);
    var id := Target(s, step).value;
    var j := s.jobs[id];
    TotalChange(s.jobs, id, j, Slots);
    TotalChange(s.jobs, id, j, Bytes);
    InvFacts(config, s);
  }

  lemma HeadIsQueued(config: Config, s: State)
    requires Inv(config, s) && s.queue != []
    ensures s.queue[0] in s.jobs && s.jobs[s.queue[0]].stage.Queued? && s.ledger.queued == |s.queue|
    ensures s.jobs[s.queue[0]].lease
  {
    assert JobOk(s.jobs[s.queue[0]]);
  }

  lemma FinishOnly(config: Config, s: State, w: nat)
    requires Inv(config, s) && Enabled(config, s, Step.FinishJob(w))
    ensures var after := Apply(config, s, Step.FinishJob(w));
      && s.ledger.running >= 1 && after.queue == s.queue && after.closed == s.closed
      && after.ledger == s.ledger.(running := s.ledger.running - 1, completed := s.ledger.completed + 1)
  {
    hide Inv, Total;
    var step := Step.FinishJob(w);
    Touches(config, s, step);
    var id := Target(s, step).value;
    TotalChange(s.jobs, id, s.jobs[id], RunningJobs);
    InvFacts(config, s);
  }

  // ----- the resident budget -----

  /** Chunks in the world, charged apart from the pool. */
  class ResidentBudget {
    const config: Config
    var chunks: nat
    var used: nat

    constructor (config: Config)
      ensures this.config == config && Shows(Start(config))
    {
      hide Inv;
      this.config, chunks, used := config, 0, 0;
      new;
      StartOk(config);
    }

    ghost predicate Shows(s: State)
      reads this
    {
      Inv(config, s) && ResidentLedger(chunks, used) == s.resident
    }

    /**
     Charges the world for a decoded chunk before the pool's lease is dropped. On refusal the
     draft and its lease are as they were.
     */
    method TryAdopt(retained: nat, ghost s: State, ghost id: nat) returns (adopted: bool)
      requires Shows(s) && id in s.jobs && Ready(s.jobs[id], Charge(id)) && RetainedOf(s.jobs[id]) == retained
      modifies `chunks, `used
      ensures adopted == Enabled(config, s, Charge(id)) == (retained <= config.residentBytes - s.resident.used)
      ensures !adopted ==> Shows(s)
      ensures adopted ==>
        var charged := Apply(config, s, Charge(id));
        && Shows(charged) && charged.jobs[id].lease && Enabled(config, charged, Handover(id))
        && Apply(config, charged, Handover(id)).resident == charged.resident
    {
      hide Inv;
      UsedFits(config, s);
      if retained > config.residentBytes - used {
        return false;
      }
      StepKeepsInv(config, s, Charge(id));
      PaidTwice(config, s, id);
      chunks, used := chunks + 1, used + retained;
      adopted := true;
    }

    method DropResident(retained: nat, ghost s: State, ghost id: nat)
      requires Shows(s) && id in s.jobs && s.jobs[id].stage == Resident(retained)
      modifies `chunks, `used
      ensures Shows(Apply(config, s, Step.DropResident(id)))
    {
      hide Inv;
      StepKeepsInv(config, s, Step.DropResident(id));
      ResidentInBooks(config, s, id);
      chunks, used := chunks - 1, used - retained;
    }
  }

  lemma UsedFits(config: Config, s: State)
    requires Inv(config, s)
    ensures s.resident.used <= config.residentBytes
  {
  }

  lemma PaidTwice(config: Config, s: State, id: nat)
    requires Inv(config, s) && Enabled(config, s, Charge(id))
    ensures Apply(config, s, Charge(id)).jobs[id].lease
  {
    assert JobOk(s.jobs[id]);
  }

  lemma ResidentInBooks(config: Config, s: State, id: nat)
    requires Inv(config, s) && id in s.jobs && s.jobs[id].stage.Resident?
    ensures s.resident.chunks >= 1 && s.resident.used >= s.jobs[id].stage.retained
  {
    hide Total;
    TotalChange(s.jobs, id, s.jobs[id], Chunks);
    TotalChange(s.jobs, id, s.jobs[id], ResidentBytes);
  }
}
