/**
 The worker pool as a protocol: every critical section of clients and workers is one step,
 and steps interleave in any order. Two ledgers account for memory: the pool's slots and
 bytes, and the budget of chunks that moved into the world.
 */
module CpuPool {
  import opened World
  import opened Sums

  datatype Kind = SectionJob | DecodeJob

  datatype Outcome = Payload(retained: nat) | Failed | Suppressed

  /** From reservation to the end of its payload. */
  datatype Stage =
    | Reserved | Queued | Running | Checked(stopped: bool) | Settled(outcome: Outcome) | Finished(outcome: Outcome)
    | Published(outcome: Outcome) | Taken(outcome: Outcome) | Adopting(retained: nat) | Resident(retained: nat) | Gone

  /**
   `lease` is the pool's charge, `holder` the worker that still refers to the job, `handle`
   whether its client can still take the result, `suppressed` a cancellation before that.
   */
  datatype Job = Job(kind: Kind, bytes: nat, stage: Stage, accepted: bool, runs: nat, lease: bool, handle: bool, suppressed: bool, holder: Option<nat>)

  datatype Worker = Idle | Busy(id: nat) | Exited

  datatype Ledger = Ledger(inFlight: int, queued: int, running: int, reserved: int, completed: int)

  datatype ResidentLedger = ResidentLedger(chunks: int, used: int)

  datatype Config = Config(workers: nat, maxJobs: nat, bufferBytes: nat, residentBytes: nat)

  datatype State = State(jobs: map<nat, Job>, queue: seq<nat>, closed: bool, workers: seq<Worker>, ledger: Ledger, resident: ResidentLedger)

  datatype AdmissionError = Closed | JobLimit | ByteLimit

  datatype Step =
    | Reserve(id: nat, kind: Kind, bytes: nat)
    | DropReserved(id: nat) | Submit(id: nat) | Close
    | Claim(w: nat) | Exit(w: nat) | Check(w: nat) | Settle(w: nat, success: bool, retained: nat)
    | FinishJob(w: nat) | Publish(w: nat) | LetGo(w: nat)
    | Cancel(id: nat) | DropHandle(id: nat) | Take(id: nat) | DropCompletion(id: nat)
    | Charge(id: nat) | Handover(id: nat) | DropResident(id: nat)

  // ----- the pool's lock -----

  /** Admission under the lock: refused when closed, out of slots or out of bytes, in that order. */
  function Admission(s: State, config: Config, bytes: nat): Option<AdmissionError> {
    if s.closed then Some(AdmissionError.Closed)
    else if s.ledger.inFlight == config.maxJobs then Some(JobLimit)
    else if bytes > config.bufferBytes - s.ledger.reserved then Some(ByteLimit)
    else None
  }

  function Lent(l: Ledger, bytes: nat): Ledger {
    l.(inFlight := l.inFlight + 1, reserved := l.reserved + bytes)
  }

  function Returned(l: Ledger, bytes: nat): Ledger {
    l.(inFlight := l.inFlight - 1, reserved := l.reserved - bytes)
  }

  /** The job lets go of its lease, if it has one. */
  function Dropped(j: Job, stage: Stage): Job {
    j.(stage := stage, lease := false)
  }

  function DropLease(l: Ledger, j: Job): Ledger {
    if j.lease then Returned(l, j.bytes) else l
  }

  // ----- steps of one job -----

  /** First look at the cancellation flag; a decode stopped here frees its buffers at once. */
  function AfterCheck(j: Job): Job {
    if j.kind == DecodeJob && j.suppressed then Dropped(j, Checked(true)) else j.(stage := Checked(j.suppressed))
  }

  /** The work is done and the flag is looked at again; only a decode without a draft returns its lease here. */
  function AfterSettle(j: Job, success: bool, retained: nat): Job {
    var outcome := if (j.stage.Checked? && j.stage.stopped) || j.suppressed then Suppressed else if success then Payload(retained) else Failed;
    if j.kind == DecodeJob && !outcome.Payload? then Dropped(j, Settled(outcome)) else j.(stage := Settled(outcome))
  }

  function OutcomeOf(j: Job): Outcome {
    match j.stage
    case Settled(outcome) => outcome
    case Finished(outcome) => outcome
    case Published(outcome) => outcome
    case Taken(outcome) => outcome
    case _ => Suppressed
  }

  function RetainedOf(j: Job): nat {
    match j.stage
    case Taken(outcome) => if outcome.Payload? then outcome.retained else 0
    case Adopting(retained) => retained
    case Resident(retained) => retained
    case _ => 0
  }

  /** A section's slot takes the result always; a closed channel frees a decode's. */
  function AfterPublish(j: Job): Job {
    if j.kind == DecodeJob && j.suppressed then Dropped(j, Gone) else j.(stage := Published(OutcomeOf(j)))
  }

  /** The worker forgets the job; a section nobody can take any more is freed now. */
  function AfterLetGo(j: Job): Job {
    var free := j.(holder := None);
    if j.stage.Published? && !j.handle then Dropped(free, Gone) else free
  }

  /** The client gives up its handle: a cancellation, and the end of a result waiting for it. */
  function AfterDropHandle(j: Job): Job {
    var lost := j.(handle := false, suppressed := true);
    if j.stage.Published? && (j.kind == DecodeJob || j.holder.None?) then Dropped(lost, Gone) else lost
  }

  /** The client takes the result, unless it cancelled; a cancelled decode frees its draft. */
  function AfterTake(j: Job): Job {
    var taken := j.(handle := false);
    if !j.suppressed then taken.(stage := Taken(OutcomeOf(j)))
    else if j.kind == DecodeJob then Dropped(taken, Taken(Suppressed)) else taken.(stage := Taken(Suppressed))
  }

  /** The job after a step that concerns it. */
  function Moved(j: Job, closed: bool, step: Step): Job {
    match step
    case DropReserved(_) => Dropped(j, Gone)
    case Submit(_) => if closed then Dropped(j, Gone) else j.(stage := Queued, accepted := true, handle := true)
    case Claim(w) => j.(stage := Running, runs := j.runs + 1, holder := Some(w))
    case Check(_) => AfterCheck(j)
    case Settle(_, success, retained) => AfterSettle(j, success, retained)
    case FinishJob(_) => j.(stage := Finished(OutcomeOf(j)))
    case Publish(_) => AfterPublish(j)
    case LetGo(_) => AfterLetGo(j)
    case Cancel(_) => j.(suppressed := true)
    case DropHandle(_) => AfterDropHandle(j)
    case Take(_) => AfterTake(j)
    case DropCompletion(_) => Dropped(j, Gone)
    case Charge(_) => j.(stage := Adopting(RetainedOf(j)))
    case Handover(_) => Dropped(j, Resident(RetainedOf(j)))
    case DropResident(_) => j.(stage := Gone)
    case _ => j
  }

  /** Whether a job is at the point a step continues from. */
  predicate Ready(j: Job, step: Step) {
    match step
    case DropReserved(_) => j.stage.Reserved?
    case Submit(_) => j.stage.Reserved?
    case Claim(_) => j.stage.Queued?
    case Check(_) => j.stage.Running?
    case Settle(_, _, _) => j.stage.Checked?
    case FinishJob(_) => j.stage.Settled?
    case Publish(_) => j.stage.Finished?
    case LetGo(_) => Order(j.stage) >= 6
    case Cancel(_) => j.handle
    case DropHandle(_) => j.handle
    case Take(_) => j.handle && j.stage.Published?
    case DropCompletion(_) => j.stage.Taken?
    case Charge(_) => j.kind == DecodeJob && j.stage.Taken? && j.stage.outcome.Payload?
    case Handover(_) => j.stage.Adopting?
    case DropResident(_) => j.stage.Resident?
    case _ => false
  }

  // ----- steps of the whole -----

  /** The job a step concerns, if it is about one that exists. */
  function Target(s: State, step: Step): Option<nat> {
    match step
    case Reserve(_, _, _) => None
    case Close => None
    case Exit(_) => None
    case Claim(_) => if s.queue == [] then None else Some(s.queue[0])
    case Check(w) => WorkerJob(s, w)
    case Settle(w, _, _) => WorkerJob(s, w)
    case FinishJob(w) => WorkerJob(s, w)
    case Publish(w) => WorkerJob(s, w)
    case LetGo(w) => WorkerJob(s, w)
    case DropReserved(id) => Some(id)
    case Submit(id) => Some(id)
    case Cancel(id) => Some(id)
    case DropHandle(id) => Some(id)
    case Take(id) => Some(id)
    case DropCompletion(id) => Some(id)
    case Charge(id) => Some(id)
    case Handover(id) => Some(id)
    case DropResident(id) => Some(id)
  }

  function WorkerJob(s: State, w: nat): Option<nat> {
    if w < |s.workers| && s.workers[w].Busy? then Some(s.workers[w].id) else None
  }

  predicate Enabled(config: Config, s: State, step: Step) {
    match step
    case Reserve(id, _, bytes) => id !in s.jobs && Admission(s, config, bytes).None?
    case Close => true
    case Exit(w) => w < |s.workers| && s.workers[w].Idle? && s.closed && s.queue == []
    case Claim(w) => w < |s.workers| && s.workers[w].Idle? && Poised(s, step)
    case Charge(id) => Poised(s, step) && RetainedOf(s.jobs[id]) <= config.residentBytes - s.resident.used
    case _ => Poised(s, step)
  }

  predicate Poised(s: State, step: Step) {
    var target := Target(s, step);
    target.Some? && target.value in s.jobs && Ready(s.jobs[target.value], step)
  }

  /** The pool's counters, changed where the code changes them. */
  function LedgerAfter(l: Ledger, j: Job, after: Job, closed: bool, step: Step): Ledger {
    var m := if j.lease && !after.lease then Returned(l, j.bytes) else l;
    match step
    case Submit(_) => if closed then m else m.(queued := m.queued + 1)
    case Claim(_) => m.(queued := m.queued - 1, running := m.running + 1)
    case FinishJob(_) => m.(running := m.running - 1, completed := m.completed + 1)
    case _ => m
  }

  function ResidentAfter(r: ResidentLedger, j: Job, step: Step): ResidentLedger {
    match step
    case Charge(_) => ResidentLedger(r.chunks + 1, r.used + RetainedOf(j))
    case DropResident(_) => ResidentLedger(r.chunks - 1, r.used - RetainedOf(j))
    case _ => r
  }

  function QueueAfter(s: State, id: nat, step: Step): seq<nat> {
    match step
    case Submit(_) => if s.closed then s.queue else s.queue + [id]
    case Claim(_) => if s.queue == [] then [] else s.queue[1..]
    case _ => s.queue
  }

  function WorkersAfter(s: State, id: nat, step: Step): seq<Worker> {
    match step
    case Claim(w) => if w < |s.workers| then s.workers[w := Busy(id)] else s.workers
    case LetGo(w) => if w < |s.workers| then s.workers[w := Idle] else s.workers
    case _ => s.workers
  }

  function Apply(config: Config, s: State, step: Step): State
    requires Enabled(config, s, step)
  {
    match step
    case Reserve(id, kind, bytes) =>
      s.(jobs := s.jobs[id := NewJob(kind, bytes)], ledger := Lent(s.ledger, bytes))
    case Close => s.(closed := true)
    case Exit(w) => s.(workers := s.workers[w := Exited])
    case _ =>
      var id := Target(s, step).value;
      var j := s.jobs[id];
      var after := Moved(j, s.closed, step);
      State(s.jobs[id := after], QueueAfter(s, id, step), s.closed, WorkersAfter(s, id, step),
            LedgerAfter(s.ledger, j, after, s.closed, step), ResidentAfter(s.resident, j, step))
  }

  function NewJob(kind: Kind, bytes: nat): Job {
    Job(kind, bytes, Reserved, false, 0, true, false, false, None)
  }

  /** How far a job has come. */
  function Order(stage: Stage): nat {
    match stage
    case Reserved => 0
    case Queued => 1
    case Running => 2
    case Checked(_) => 3
    case Settled(_) => 4
    case Finished(_) => 5
    case Published(_) => 6
    case Taken(_) => 7
    case Adopting(_) => 8
    case Resident(_) => 9
    case Gone => 10
  }

  // ----- what the counters count -----

  datatype Measure = Slots | Bytes | QueuedJobs | RunningJobs | FinishedJobs | Chunks | ResidentBytes | Effort

  function Weight(j: Job, m: Measure): nat {
    var n := Order(j.stage);
    match m
    case Slots => if j.lease then 1 else 0
    case Bytes => if j.lease then j.bytes else 0
    case QueuedJobs => if n == 1 then 1 else 0
    case RunningJobs => if 2 <= n <= 4 then 1 else 0
    case FinishedJobs => if j.accepted && n >= 5 then 1 else 0
    case Chunks => if j.stage.Adopting? || j.stage.Resident? then 1 else 0
    case ResidentBytes => if j.stage.Adopting? then j.stage.retained else if j.stage.Resident? then j.stage.retained else 0
    case Effort => if 1 <= n <= 5 then 7 - n else if j.holder.Some? then 1 else 0
  }

  ghost function Total(jobs: map<nat, Job>, m: Measure): nat {
    Sum(jobs.Keys, id => if id in jobs then Weight(jobs[id], m) else 0)
  }

  lemma TotalChange(jobs: map<nat, Job>, id: nat, j: Job, m: Measure)
    requires id in jobs
    ensures Total(jobs[id := j], m) + Weight(jobs[id], m) == Total(jobs, m) + Weight(j, m)
    ensures Weight(jobs[id], m) <= Total(jobs, m)
  {
    hide Weight, Sum;
    var after := jobs[id := j];
    var f := x => if x in jobs then Weight(jobs[x], m) else 0;
    var g := x => if x in after then Weight(after[x], m) else 0;
    assert after.Keys == jobs.Keys;
    SumChange(jobs.Keys, f, g, id);
    SumPart(jobs.Keys, f, id);
  }

  lemma TotalAdd(jobs: map<nat, Job>, id: nat, j: Job, m: Measure)
    requires id !in jobs
    ensures Total(jobs[id := j], m) == Total(jobs, m) + Weight(j, m)
  {
    hide Weight;
    var after := jobs[id := j];
    var f := x => if x in jobs then Weight(jobs[x], m) else 0;
    var g := x => if x in after then Weight(after[x], m) else 0;
    var keys := jobs.Keys;
    assert after.Keys == keys + {id};
    SumAdd(keys, g, id);
    SumAgree(keys, f, g);
  }

  // ----- invariants -----

  /** Slots and bytes in use are exactly those of live leases; so with queue, work and chunks. */
  ghost predicate Balanced(s: State) {
    && s.ledger.inFlight == Total(s.jobs, Slots) && s.ledger.reserved == Total(s.jobs, Bytes)
    && s.ledger.queued == Total(s.jobs, QueuedJobs) == |s.queue|
    && s.ledger.running == Total(s.jobs, RunningJobs) && s.ledger.completed == Total(s.jobs, FinishedJobs)
    && s.resident.chunks == Total(s.jobs, Chunks) && s.resident.used == Total(s.jobs, ResidentBytes)
  }

  predicate Limited(config: Config, s: State) {
    s.ledger.inFlight <= config.maxJobs && s.ledger.reserved <= config.bufferBytes && s.resident.used <= config.residentBytes
  }

  /** The payload a job's owner could read right now. */
  predicate HasPayload(j: Job) {
    j.stage.Adopting? || j.stage.Resident? || ((j.stage.Settled? || j.stage.Finished? || j.stage.Published? || j.stage.Taken?) && j.stage.outcome.Payload?)
  }

  predicate JobOk(j: Job) {
    var n := Order(j.stage);
    && (n < 10 ==> j.accepted == (n >= 1)) && (n <= 1 ==> j.runs == 0) && (n >= 2 && j.accepted ==> j.runs == 1) && (!j.accepted ==> j.runs == 0)
    && (2 <= n <= 5 ==> j.holder.Some?) && (n <= 1 ==> j.holder.None?) && (j.holder.Some? ==> j.accepted)
    && (n <= 2 ==> j.lease) && (j.stage.Checked? && !j.stage.stopped ==> j.lease) && (n >= 9 ==> !j.lease)
    && (j.handle ==> 1 <= n <= 6 || j.stage.Gone?) && (j.stage.Reserved? ==> !j.suppressed)
    && (j.kind == SectionJob && n <= 7 ==> j.lease) && (8 <= n <= 9 ==> j.kind == DecodeJob)
    && (j.stage.Published? && !j.handle ==> j.kind == SectionJob && j.holder.Some?)
    // a payload is always paid for, and a cancellation in time means none is ever taken
    && (HasPayload(j) ==> j.lease || 8 <= n <= 9) && (j.stage.Adopting? ==> j.lease)
    && (j.suppressed && 7 <= n <= 9 ==> !HasPayload(j))
    && (1 <= n <= 6 ==> j.handle || j.suppressed)
  }

  /** A worker and the job it holds point at each other. */
  ghost predicate Staffed(s: State) {
    && (forall w :: 0 <= w < |s.workers| && s.workers[w].Busy? ==>
          s.workers[w].id in s.jobs && s.jobs[s.workers[w].id].holder == Some(w))
    && (forall id :: id in s.jobs && s.jobs[id].holder.Some? ==>
          s.jobs[id].holder.value < |s.workers| && s.workers[s.jobs[id].holder.value] == Busy(id))
  }

  /** The queue is exactly the queued jobs, each once; a worker leaves only an empty queue of a closed pool. */
  ghost predicate Lined(s: State) {
    && (forall i :: 0 <= i < |s.queue| ==> s.queue[i] in s.jobs && s.jobs[s.queue[i]].stage.Queued?)
    && (forall i, k :: 0 <= i < k < |s.queue| ==> s.queue[i] != s.queue[k])
    && (forall id :: id in s.jobs && s.jobs[id].stage.Queued? ==> id in s.queue)
    && (forall w :: 0 <= w < |s.workers| && s.workers[w].Exited? ==> s.closed && s.queue == [])
  }

  ghost predicate Inv(config: Config, s: State) {
    && Balanced(s) && Limited(config, s) && Staffed(s) && Lined(s) && |s.workers| == config.workers
    && forall id :: id in s.jobs ==> JobOk(s.jobs[id])
  }

  function Start(config: Config): State {
    State(map[], [], false, seq(config.workers, _ => Idle), Ledger(0, 0, 0, 0, 0), ResidentLedger(0, 0))
  }

  lemma StartOk(config: Config)
    ensures Inv(config, Start(config))
  {
    hide Weight, JobOk, Total;
    NoJobs(Slots);
    NoJobs(Bytes);
    NoJobs(QueuedJobs);
    NoJobs(RunningJobs);
    NoJobs(FinishedJobs);
    NoJobs(Chunks);
    NoJobs(ResidentBytes);
  }

  lemma NoJobs(m: Measure)
    ensures Total(map[], m) == 0
  {
  }

  // ----- each step keeps the invariants -----

  /** A sound job stays sound in every step it is ready for. */
  lemma MovedOk(j: Job, closed: bool, step: Step)
    requires JobOk(j) && Ready(j, step)
    ensures JobOk(Moved(j, closed, step))
  {
  }

  /** The counters move by exactly what the job's weight moves. */
  lemma CountersFollow(l: Ledger, r: ResidentLedger, j: Job, closed: bool, step: Step)
    requires JobOk(j) && Ready(j, step)
    ensures var after := Moved(j, closed, step);
      var m, n := LedgerAfter(l, j, after, closed, step), ResidentAfter(r, j, step);
      && m.inFlight - l.inFlight == Weight(after, Slots) - Weight(j, Slots)
      && m.reserved - l.reserved == Weight(after, Bytes) - Weight(j, Bytes)
      && m.queued - l.queued == Weight(after, QueuedJobs) - Weight(j, QueuedJobs)
      && m.running - l.running == Weight(after, RunningJobs) - Weight(j, RunningJobs)
      && m.completed - l.completed == Weight(after, FinishedJobs) - Weight(j, FinishedJobs)
      && n.chunks - r.chunks == Weight(after, Chunks) - Weight(j, Chunks)
      && n.used - r.used == Weight(after, ResidentBytes) - Weight(j, ResidentBytes)
  {
  }

  /** A step of one job, seen from the whole. */
  lemma Touches(config: Config, s: State, step: Step)
    requires Inv(config, s) && Enabled(config, s, step) && !step.Reserve? && !step.Close? && !step.Exit?
    ensures Target(s, step).Some? && Target(s, step).value in s.jobs
    ensures var id := Target(s, step).value;
      var j, after := s.jobs[id], Apply(config, s, step);
      && JobOk(j) && Ready(j, step) && after.jobs == s.jobs[id := Moved(j, s.closed, step)] && after.closed == s.closed
      && after.queue == QueueAfter(s, id, step) && after.workers == WorkersAfter(s, id, step)
      && after.ledger == LedgerAfter(s.ledger, j, Moved(j, s.closed, step), s.closed, step) && after.resident == ResidentAfter(s.resident, j, step)
      && (step.Claim? ==> s.queue != [] && step.w < |s.workers| && s.workers[step.w].Idle?)
      && (step.Charge? ==> RetainedOf(j) <= config.residentBytes - s.resident.used)
  {
    hide JobOk, Ready, Moved, LedgerAfter, ResidentAfter, QueueAfter, WorkersAfter, Balanced, Limited, Staffed, Lined;
  }

  lemma KeepsBalance(config: Config, s: State, step: Step)
    requires Inv(config, s) && Enabled(config, s, step)
    ensures Balanced(Apply(config, s, step))
  {
    hide Total, Weight, JobOk, Ready, Moved, LedgerAfter, ResidentAfter, Staffed, Lined, Limited, Apply, Target, Enabled;
    var after := Apply(config, s, step);
    if step.Close? || step.Exit? {
      Untouched(config, s, step);
    } else if step.Reserve? {
      Admitted(config, s, step);
    } else {
      Touches(config, s, step);
      var id := Target(s, step).value;
      var j, k := s.jobs[id], Moved(s.jobs[id], s.closed, step);
      CountersFollow(s.ledger, s.resident, j, s.closed, step);
      TotalChange(s.jobs, id, k, Slots);
      TotalChange(s.jobs, id, k, Bytes);
      TotalChange(s.jobs, id, k, QueuedJobs);
      TotalChange(s.jobs, id, k, RunningJobs);
      TotalChange(s.jobs, id, k, FinishedJobs);
      TotalChange(s.jobs, id, k, Chunks);
      TotalChange(s.jobs, id, k, ResidentBytes);
      QueueFollows(s, id, j, step);
    }
  }

  /** The queue's length moves with the queued counter. */
  lemma QueueFollows(s: State, id: nat, j: Job, step: Step)
    requires JobOk(j) && Ready(j, step) && (step.Claim? ==> s.queue != [])
    ensures |QueueAfter(s, id, step)| - |s.queue| == Weight(Moved(j, s.closed, step), QueuedJobs) - Weight(j, QueuedJobs)
  {
  }

  lemma Untouched(config: Config, s: State, step: Step)
    requires Enabled(config, s, step) && (step.Close? || step.Exit?)
    ensures var after := Apply(config, s, step);
      && after.jobs == s.jobs && after.queue == s.queue && after.ledger == s.ledger && after.resident == s.resident
      && (step.Close? ==> after.workers == s.workers && after.closed)
      && (step.Exit? ==> step.w < |s.workers| && s.workers[step.w].Idle? && after.workers == s.workers[step.w := Exited]
                         && after.closed == s.closed && s.closed && s.queue == [])
  {
  }

  /** A reservation adds one lease and nothing else. */
  lemma Admitted(config: Config, s: State, step: Step)
    requires Enabled(config, s, step) && step.Reserve?
    ensures var after, j := Apply(config, s, step), NewJob(step.kind, step.bytes);
      && step.id !in s.jobs && after.jobs == s.jobs[step.id := j] && JobOk(j)
      && after == s.(jobs := after.jobs, ledger := Lent(s.ledger, step.bytes))
      && s.ledger.inFlight != config.maxJobs && step.bytes <= config.bufferBytes - s.ledger.reserved && !s.closed
      && (forall m :: Total(after.jobs, m) == Total(s.jobs, m) + if m == Slots then 1 else if m == Bytes then step.bytes else 0)
  {
    hide Total;
    var j := NewJob(step.kind, step.bytes);
    forall m ensures Total(s.jobs[step.id := j], m) == Total(s.jobs, m) + if m == Slots then 1 else if m == Bytes then step.bytes else 0 {
      TotalAdd(s.jobs, step.id, j, m);
    }
  }

  lemma LeasesOnlyEnd(l: Ledger, j: Job, closed: bool, step: Step)
    requires Ready(j, step)
    ensures var m := LedgerAfter(l, j, Moved(j, closed, step), closed, step); m.inFlight <= l.inFlight && m.reserved <= l.reserved
    ensures Moved(j, closed, step).holder == match step case Claim(w) => Some(w) case LetGo(_) => None case _ => j.holder
    ensures Moved(j, closed, step).stage.Queued? <==> if step.Submit? then !closed else j.stage.Queued? && !step.Claim?
    ensures j.suppressed ==> Moved(j, closed, step).suppressed
    ensures Order(Moved(j, closed, step).stage) >= Order(j.stage)
  {
  }

  lemma KeepsLimits(config: Config, s: State, step: Step)
    requires Inv(config, s) && Enabled(config, s, step)
    ensures Limited(config, Apply(config, s, step))
  {
    hide Total, JobOk, Ready, Moved, LedgerAfter, Staffed, Lined, Balanced, Apply, Target, Enabled;
    if step.Close? || step.Exit? {
      Untouched(config, s, step);
    } else if step.Reserve? {
      Admitted(config, s, step);
    } else {
      Touches(config, s, step);
      LeasesOnlyEnd(s.ledger, s.jobs[Target(s, step).value], s.closed, step);
    }
  }

  /** The worker named by a step is the one its job names. */
  lemma WorkerIsHolder(s: State, step: Step)
    requires Staffed(s) && Target(s, step).Some? && Target(s, step).value in s.jobs && Ready(s.jobs[Target(s, step).value], step)
    requires JobOk(s.jobs[Target(s, step).value])
    ensures step.LetGo? ==> step.w < |s.workers| && s.workers[step.w] == Busy(Target(s, step).value) && s.jobs[Target(s, step).value].holder == Some(step.w)
    ensures step.Claim? ==> s.jobs[Target(s, step).value].holder == None
  {
  }

  lemma KeepsStaff(config: Config, s: State, step: Step)
    requires Inv(config, s) && Enabled(config, s, step)
    ensures Staffed(Apply(config, s, step)) && |Apply(config, s, step).workers| == config.workers
  {
    hide JobOk, Ready, Moved, LedgerAfter, ResidentAfter, QueueAfter, Lined, Balanced, Limited, Apply, Target, Enabled;
    if step.Close? || step.Exit? {
      Untouched(config, s, step);
    } else if step.Reserve? {
      Admitted(config, s, step);
    } else {
      Touches(config, s, step);
      WorkerIsHolder(s, step);
      LeasesOnlyEnd(s.ledger, s.jobs[Target(s, step).value], s.closed, step);
    }
  }

  /** A queued job is at one place of the queue. */
  lemma QueuedOnce(s: State, id: nat, step: Step)
    requires Lined(s) && Target(s, step) == Some(id) && id in s.jobs && Ready(s.jobs[id], step)
    ensures step.Submit? ==> id !in s.queue
    ensures step.Claim? ==> s.queue != [] && s.queue[0] == id && id !in s.queue[1..]
  {
  }

  lemma KeepsLine(config: Config, s: State, step: Step)
    requires Inv(config, s) && Enabled(config, s, step)
    ensures Lined(Apply(config, s, step))
  {
    hide JobOk, Ready, Moved, LedgerAfter, ResidentAfter, Staffed, Balanced, Limited, Apply, Target, Enabled, QueueAfter, WorkersAfter;
    var after := Apply(config, s, step);
    if step.Close? || step.Exit? {
      Untouched(config, s, step);
    } else if step.Reserve? {
      Admitted(config, s, step);
    } else {
      Touches(config, s, step);
      var id := Target(s, step).value;
      QueuedOnce(s, id, step);
      LeasesOnlyEnd(s.ledger, s.jobs[id], s.closed, step);
      LineFollows(s, after, step, id, Moved(s.jobs[id], s.closed, step));
    }
  }

  /** A submitted job joins the line at its end, a claimed one leaves it at its front, and no other step moves it. */
  lemma LineFollows(s: State, after: State, step: Step, id: nat, j: Job)
    requires Lined(s) && id in s.jobs && after.jobs == s.jobs[id := j] && after.closed == s.closed
    requires after.queue == QueueAfter(s, id, step) && after.workers == WorkersAfter(s, id, step)
    requires j.stage.Queued? <==> if step.Submit? then !s.closed else s.jobs[id].stage.Queued? && !step.Claim?
    requires step.Submit? ==> id !in s.queue
    requires step.Claim? ==> s.queue != [] && s.queue[0] == id && id !in s.queue[1..] && step.w < |s.workers| && s.workers[step.w].Idle?
    ensures Lined(after)
  {
    assert forall w :: 0 <= w < |after.workers| && after.workers[w].Exited? ==> w < |s.workers| && s.workers[w].Exited?;
    if step.Claim? {
      assert s.queue == [id] + after.queue;
    } else if step.Submit? && !s.closed {
      assert after.queue == s.queue + [id];
    } else {
      assert after.queue == s.queue;
    }
  }

  lemma KeepsJobs(config: Config, s: State, step: Step)
    requires Inv(config, s) && Enabled(config, s, step)
    ensures forall id :: id in Apply(config, s, step).jobs ==> JobOk(Apply(config, s, step).jobs[id])
  {
    hide JobOk, Ready, Moved, LedgerAfter, ResidentAfter, QueueAfter, WorkersAfter, Staffed, Lined, Balanced, Limited, Apply, Target, Enabled;
    if step.Close? || step.Exit? {
      Untouched(config, s, step);
    } else if step.Reserve? {
      Admitted(config, s, step);
    } else {
      Touches(config, s, step);
      MovedOk(s.jobs[Target(s, step).value], s.closed, step);
    }
  }

  /** Every step of every client and worker keeps the books. */
  lemma StepKeepsInv(config: Config, s: State, step: Step)
    requires Inv(config, s) && Enabled(config, s, step)
    ensures Inv(config, Apply(config, s, step))
  {
    hide JobOk, Staffed, Lined, Balanced, Limited, Apply, Enabled;
    KeepsBalance(config, s, step);
    KeepsLimits(config, s, step);
    KeepsStaff(config, s, step);
    KeepsLine(config, s, step);
    KeepsJobs(config, s, step);
  }

  // ----- whole runs -----

  /** The states an interleaving of steps can lead to. */
  ghost predicate Runs(config: Config, from: State, steps: seq<Step>, to: State)
    decreases |steps|
  {
    if steps == [] then from == to
    else Enabled(config, from, steps[0]) && Runs(config, Apply(config, from, steps[0]), steps[1..], to)
  }

  lemma {:induction false} RunKeepsInv(config: Config, from: State, steps: seq<Step>, to: State)
    requires Inv(config, from) && Runs(config, from, steps, to)
    ensures Inv(config, to)
    decreases |steps|
  {
    hide Inv, Apply, Enabled;
    if steps != [] {
      StepKeepsInv(config, from, steps[0]);
      RunKeepsInv(config, Apply(config, from, steps[0]), steps[1..], to);
    }
  }

  /** In any reachable state the ledger is the live leases, inside its limits, and payloads are paid for. */
  lemma ReachableIsBalanced(config: Config, steps: seq<Step>, s: State)
    requires Runs(config, Start(config), steps, s)
    ensures Balanced(s) && Limited(config, s)
    ensures 0 <= s.ledger.inFlight && 0 <= s.ledger.reserved && 0 <= s.ledger.queued && 0 <= s.ledger.running && 0 <= s.resident.used
    ensures forall id :: id in s.jobs && HasPayload(s.jobs[id]) ==> s.jobs[id].lease || s.jobs[id].stage.Adopting? || s.jobs[id].stage.Resident?
    ensures forall id :: id in s.jobs && s.jobs[id].accepted ==> s.jobs[id].runs <= 1
  {
    hide *;
    StartOk(config);
    RunKeepsInv(config, Start(config), steps, s);
    InvFacts(config, s);
  }

  lemma InvFacts(config: Config, s: State)
    requires Inv(config, s)
    ensures Balanced(s) && Limited(config, s)
    ensures 0 <= s.ledger.inFlight && 0 <= s.ledger.reserved && 0 <= s.ledger.queued && 0 <= s.ledger.running && 0 <= s.resident.used
    ensures forall id :: id in s.jobs && HasPayload(s.jobs[id]) ==> s.jobs[id].lease || s.jobs[id].stage.Adopting? || s.jobs[id].stage.Resident?
    ensures forall id :: id in s.jobs && s.jobs[id].accepted ==> s.jobs[id].runs <= 1
  {
    hide Total, Staffed, Lined, HasPayload, JobOk;
    forall id | id in s.jobs
      ensures HasPayload(s.jobs[id]) ==> s.jobs[id].lease || s.jobs[id].stage.Adopting? || s.jobs[id].stage.Resident?
      ensures s.jobs[id].runs <= 1
    {
      JobFacts(s.jobs[id]);
    }
  }

  lemma JobFacts(j: Job)
    requires JobOk(j)
    ensures HasPayload(j) ==> j.lease || j.stage.Adopting? || j.stage.Resident?
    ensures j.runs <= 1
  {
  }

  lemma JobPersists(config: Config, s: State, step: Step, id: nat)
    requires Inv(config, s) && Enabled(config, s, step) && id in s.jobs
    ensures var after := Apply(config, s, step);
      && id in after.jobs && (s.jobs[id].suppressed ==> after.jobs[id].suppressed)
      && Order(after.jobs[id].stage) >= Order(s.jobs[id].stage)
      && (s.closed ==> after.closed) && (s.closed && !s.jobs[id].accepted ==> !after.jobs[id].accepted)
  {
    hide JobOk, Ready, LedgerAfter, ResidentAfter, QueueAfter, WorkersAfter, Staffed, Lined, Balanced, Limited, Apply, Target, Enabled, Order,
         AfterCheck, AfterSettle, AfterPublish, AfterLetGo, AfterDropHandle, AfterTake, Dropped;
    if step.Close? || step.Exit? {
      Untouched(config, s, step);
    } else if step.Reserve? {
      Admitted(config, s, step);
    } else {
      Touches(config, s, step);
      LeasesOnlyEnd(s.ledger, s.jobs[Target(s, step).value], s.closed, step);
      AcceptedStays(s.jobs[Target(s, step).value], s.closed, step);
    }
  }

  lemma AcceptedStays(j: Job, closed: bool, step: Step)
    requires Ready(j, step)
    ensures closed && !j.accepted ==> !Moved(j, closed, step).accepted
  {
  }

  /** A task cancelled before its result is taken never yields a payload, in any continuation. */
  lemma {:induction false} CancelledNeverYields(config: Config, from: State, steps: seq<Step>, to: State, id: nat)
    requires Inv(config, from) && Runs(config, from, steps, to)
    requires id in from.jobs && from.jobs[id].suppressed
    ensures id in to.jobs && to.jobs[id].suppressed && (Order(to.jobs[id].stage) >= 7 ==> !HasPayload(to.jobs[id]))
    decreases |steps|
  {
    hide Apply, Enabled, Balanced, Limited, Staffed, Lined;
    if steps != [] {
      StepKeepsInv(config, from, steps[0]);
      JobPersists(config, from, steps[0], id);
      CancelledNeverYields(config, Apply(config, from, steps[0]), steps[1..], to, id);
    }
  }

  // ----- an uncancelled task yields -----

  /** The work succeeded and its result waits to be taken. */
  predicate Offers(j: Job, retained: nat) {
    j.stage == Settled(Payload(retained)) || j.stage == Finished(Payload(retained)) || j.stage == Published(Payload(retained))
  }

  /** The client has the result, or had it. */
  predicate Received(j: Job, retained: nat) {
    j.stage == Taken(Payload(retained)) || j.stage == Adopting(retained) || j.stage == Resident(retained) || j.stage.Gone?
  }

  /** Work that succeeds without having been cancelled has a result; a failure says so, and a cancellation hides both. */
  lemma SettlingMeans(config: Config, s: State, w: nat, success: bool, retained: nat, id: nat)
    requires Inv(config, s) && Enabled(config, s, Settle(w, success, retained)) && w < |s.workers| && s.workers[w] == Busy(id)
    ensures id in s.jobs && s.jobs[id].stage.Checked?
    ensures Apply(config, s, Settle(w, success, retained)).jobs[id].stage ==
      Settled(if s.jobs[id].suppressed || s.jobs[id].stage.stopped then Suppressed else if success then Payload(retained) else Failed)
  {
    hide Inv;
    assert WorkerJob(s, w) == Some(id);
  }

  lemma OfferKept(j: Job, closed: bool, step: Step, retained: nat)
    requires JobOk(j) && Ready(j, step) && Offers(j, retained) && !Moved(j, closed, step).suppressed
    ensures Offers(Moved(j, closed, step), retained) || (step.Take? && Moved(j, closed, step).stage == Taken(Payload(retained)))
  {
  }

  lemma ReceiptKept(j: Job, closed: bool, step: Step, retained: nat)
    requires JobOk(j) && Ready(j, step) && Received(j, retained)
    ensures Received(Moved(j, closed, step), retained)
  {
  }

  /** What one step leaves of a job that is not cancelled by it. */
  lemma OfferStep(config: Config, s: State, step: Step, id: nat, retained: nat)
    requires Inv(config, s) && Enabled(config, s, step) && id in s.jobs
    ensures id in Apply(config, s, step).jobs
    ensures var before, after := s.jobs[id], Apply(config, s, step).jobs[id];
      && (Offers(before, retained) && !after.suppressed ==> Offers(after, retained) || (step == Take(id) && after.stage == Taken(Payload(retained))))
      && (Received(before, retained) ==> Received(after, retained))
  {
    hide JobOk, Ready, LedgerAfter, ResidentAfter, QueueAfter, WorkersAfter, Staffed, Lined, Balanced, Limited, Apply, Target, Enabled, Offers, Received, Moved;
    if step.Close? || step.Exit? {
      Untouched(config, s, step);
    } else if step.Reserve? {
      Admitted(config, s, step);
    } else {
      Touches(config, s, step);
      var target := Target(s, step).value;
      var j := s.jobs[target];
      if Offers(j, retained) && !Moved(j, s.closed, step).suppressed {
        OfferKept(j, s.closed, step, retained);
        TakesOwn(s, step);
      }
      if Received(j, retained) {
        ReceiptKept(j, s.closed, step, retained);
      }
    }
  }

  lemma TakesOwn(s: State, step: Step)
    ensures step.Take? ==> Target(s, step) == Some(step.id)
  {
  }

  /** A result nobody cancelled stays until it is taken, and the client takes exactly it. */
  lemma {:induction false} UncancelledYields(config: Config, from: State, steps: seq<Step>, to: State, id: nat, retained: nat)
    requires Inv(config, from) && Runs(config, from, steps, to) && id in from.jobs && Offers(from.jobs[id], retained)
    ensures id in to.jobs
    ensures to.jobs[id].suppressed || Offers(to.jobs[id], retained) || (Take(id) in steps && Received(to.jobs[id], retained))
    decreases |steps|
  {
    hide Apply, Enabled, Inv, Offers, Received;
    if steps != [] {
      var next := Apply(config, from, steps[0]);
      StepKeepsInv(config, from, steps[0]);
      OfferStep(config, from, steps[0], id, retained);
      if next.jobs[id].suppressed {
        CancelledNeverYields(config, next, steps[1..], to, id);
      } else if Offers(next.jobs[id], retained) {
        UncancelledYields(config, next, steps[1..], to, id, retained);
      } else {
        assert Received(next.jobs[id], retained) by {
          TakenIsReceived(next.jobs[id], retained);
        }
        ReceivedForGood(config, next, steps[1..], to, id, retained);
      }
    }
  }

  lemma TakenIsReceived(j: Job, retained: nat)
    ensures j.stage == Taken(Payload(retained)) ==> Received(j, retained)
  {
  }

  lemma {:induction false} ReceivedForGood(config: Config, from: State, steps: seq<Step>, to: State, id: nat, retained: nat)
    requires Inv(config, from) && Runs(config, from, steps, to) && id in from.jobs && Received(from.jobs[id], retained)
    ensures id in to.jobs && Received(to.jobs[id], retained)
    decreases |steps|
  {
    hide Apply, Enabled, Inv, Received;
    if steps != [] {
      StepKeepsInv(config, from, steps[0]);
      OfferStep(config, from, steps[0], id, retained);
      ReceivedForGood(config, Apply(config, from, steps[0]), steps[1..], to, id, retained);
    }
  }

  /** Once every worker has left, every accepted job has run, exactly once, and been finished. */
  lemma DrainedExactlyOnce(config: Config, s: State)
    requires Inv(config, s) && config.workers > 0 && forall w :: 0 <= w < |s.workers| ==> s.workers[w].Exited?
    ensures s.closed && s.queue == [] && s.ledger.running == 0 && s.ledger.queued == 0
    ensures forall id :: id in s.jobs && s.jobs[id].accepted ==> s.jobs[id].runs == 1 && Order(s.jobs[id].stage) >= 6
  {
    hide Weight;
    assert s.workers[0].Exited?;
    forall id | id in s.jobs
      ensures Weight(s.jobs[id], RunningJobs) == 0
      ensures s.jobs[id].accepted ==> s.jobs[id].runs == 1 && Order(s.jobs[id].stage) >= 6
    {
      Unheld(s, id);
    }
    NoWeight(s.jobs, RunningJobs);
  }

  lemma Unheld(s: State, id: nat)
    requires id in s.jobs && JobOk(s.jobs[id]) && Staffed(s) && Lined(s) && s.queue == []
    requires forall w :: 0 <= w < |s.workers| ==> s.workers[w].Exited?
    ensures Weight(s.jobs[id], RunningJobs) == 0 && (s.jobs[id].accepted ==> s.jobs[id].runs == 1 && Order(s.jobs[id].stage) >= 6)
  {
  }

  lemma NoWeight(jobs: map<nat, Job>, m: Measure)
    requires forall id :: id in jobs ==> Weight(jobs[id], m) == 0
    ensures Total(jobs, m) == 0
  {
    SumZero(jobs.Keys, id => if id in jobs then Weight(jobs[id], m) else 0);
  }

  lemma {:induction false} SumZero(s: set<nat>, f: nat -> nat)
    requires forall x :: x in s ==> f(x) == 0
    ensures Sum(s, f) == 0
  {
    if s != {} {
      var x :| x in s;
      SumRemove(s, f, x);
      SumZero(s - {x}, f);
    }
  }

  // ----- the queue never grows past its reservation -----

  lemma {:induction false} SumBelow(s: set<nat>, f: nat -> nat, g: nat -> nat)
    requires forall x :: x in s ==> f(x) <= g(x)
    ensures Sum(s, f) <= Sum(s, g)
  {
    if s != {} {
      var x :| x in s;
      SumRemove(s, f, x);
      SumRemove(s, g, x);
      SumBelow(s - {x}, f, g);
    }
  }

  /** When a reservation is submitted there is still room reserved for it. */
  lemma QueueHasRoom(config: Config, s: State, id: nat)
    requires Inv(config, s) && id in s.jobs && s.jobs[id].stage.Reserved?
    ensures |s.queue| < config.maxJobs
  {
    var f := x => if x in s.jobs then Weight(s.jobs[x], QueuedJobs) else 0;
    var g := x => if x in s.jobs then Weight(s.jobs[x], Slots) else 0;
    var others := s.jobs.Keys - {id};
    SumRemove(s.jobs.Keys, f, id);
    SumRemove(s.jobs.Keys, g, id);
    forall x | x in others ensures f(x) <= g(x) {
      assert JobOk(s.jobs[x]);
    }
    SumBelow(others, f, g);
    assert JobOk(s.jobs[id]);
  }

  // ----- closing drains -----

  predicate IsWorkerStep(step: Step) {
    step.Claim? || step.Exit? || step.Check? || step.Settle? || step.FinishJob? || step.Publish? || step.LetGo?
  }

  /** What is left for the workers of a closed pool. */
  ghost function Remaining(s: State): nat {
    Total(s.jobs, Effort) + Present(s.workers)
  }

  function Present(workers: seq<Worker>): nat {
    if workers == [] then 0 else Present(workers[..|workers| - 1]) + if workers[|workers| - 1].Exited? then 0 else 1
  }

  lemma {:induction false} PresentChange(workers: seq<Worker>, w: nat, after: Worker)
    requires w < |workers|
    ensures Present(workers[w := after]) + (if workers[w].Exited? then 0 else 1) == Present(workers) + if after.Exited? then 0 else 1
    decreases |workers|
  {
    var n := |workers| - 1;
    if w < n {
      PresentChange(workers[..n], w, after);
      assert workers[w := after][..n] == workers[..n][w := after];
    } else {
      assert workers[w := after][..n] == workers[..n];
    }
  }

  lemma EffortMoves(j: Job, closed: bool, step: Step)
    requires JobOk(j) && Ready(j, step) && closed
    ensures Weight(Moved(j, closed, step), Effort) <= Weight(j, Effort)
    ensures IsWorkerStep(step) && (step.LetGo? ==> j.holder.Some?) ==> Weight(Moved(j, closed, step), Effort) < Weight(j, Effort)
  {
  }

  /** In a closed pool no step adds work, and every step of a worker takes some away. */
  lemma ClosingDrains(config: Config, s: State, step: Step)
    requires Inv(config, s) && s.closed && Enabled(config, s, step)
    ensures Apply(config, s, step).closed && Remaining(Apply(config, s, step)) <= Remaining(s)
    ensures IsWorkerStep(step) ==> Remaining(Apply(config, s, step)) < Remaining(s)
  {
    hide Total, Weight, JobOk, Ready, Moved, LedgerAfter, ResidentAfter, QueueAfter, Staffed, Lined, Limited, Balanced, Apply, Target, Enabled;
    if step.Close? || step.Exit? {
      Untouched(config, s, step);
      if step.Exit? {
        PresentChange(s.workers, step.w, Exited);
      }
    } else if step.Reserve? {
      Admitted(config, s, step);
    } else {
      Touches(config, s, step);
      var id := Target(s, step).value;
      var j := s.jobs[id];
      WorkerIsHolder(s, step);
      EffortMoves(j, s.closed, step);
      TotalChange(s.jobs, id, Moved(j, s.closed, step), Effort);
      if step.Claim? {
        PresentChange(s.workers, step.w, Busy(id));
      } else if step.LetGo? {
        PresentChange(s.workers, step.w, Idle);
      }
    }
  }

  /** Until every worker has left a closed pool, some worker can go on, whatever the clients do. */
  lemma WorkersNeverWait(config: Config, s: State, w: nat) returns (step: Step)
    requires Inv(config, s) && s.closed && w < |s.workers| && !s.workers[w].Exited?
    ensures Enabled(config, s, step) && IsWorkerStep(step) && step.w == w
  {
    if s.workers[w].Idle? {
      if s.queue == [] {
        step := Exit(w);
      } else {
        step := Claim(w);
        assert s.queue[0] in s.jobs;
      }
    } else {
      var id := s.workers[w].id;
      var j := s.jobs[id];
      assert JobOk(j) && j.holder == Some(w);
      step := match j.stage
              case Running => Check(w)
              case Checked(_) => Settle(w, true, 0)
              case Settled(_) => FinishJob(w)
              case Finished(_) => Publish(w)
              case _ => LetGo(w);
      HeldJobsAreAhead(j);
    }
  }

  lemma HeldJobsAreAhead(j: Job)
    requires JobOk(j) && j.holder.Some?
    ensures Order(j.stage) >= 2
  {
  }
}
