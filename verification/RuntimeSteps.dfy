/** The investment runtime between two awaits. Every function below is one stretch of code that runs without
    interruption; the runtime's behaviour is any interleaving of them. */
module RuntimeSteps {
  import opened Common
  import opened RecoverySteps

  /** Milliseconds a recovery request id is remembered at least. */
  const REQUEST_RETENTION := 86_400_000

  datatype CollectionStatus = Collected | Partial | AuthRequired | CollectionError | Skipped

  datatype Outcome = Fulfilled(status: Option<CollectionStatus>) | Rejected

  /** A `runNow` call: it waits for a renewal, calls the collector, has an outcome, and clears up after itself.
      `Failing` is a rejected manual run whose own handler has not run yet. */
  datatype RunPhase = Waiting(maintenance: nat) | Collecting | Settled(outcome: Outcome) | Failing | Finished

  /** `recovery` is the manual recovery this run was started for. The abort controller lives exactly as long as the run. */
  datatype Run = Run(phase: RunPhase, generation: nat, aborted: bool, rejected: bool, recovery: Option<Recovery>)

  datatype MaintenancePhase = Renewing | Renewed | Done

  datatype Maintenance = Maintenance(phase: MaintenancePhase, aborted: bool)

  datatype Tombstone = Tombstone(createdAt: int, status: Status)

  /** What `close` waits for. */
  datatype Closing = Closing(run: Option<nat>, maintenance: Option<nat>)

  datatype Config = Config(collector: bool, renewer: bool, manualVerification: bool)

  datatype Runtime = Runtime(
    config: Config, now: int,
    runs: seq<Run>, maintenances: seq<Maintenance>,
    running: Option<nat>, maintaining: Option<nat>,
    closed: bool, generation: nat, closing: Option<Closing>,
    /** The run of the latest manual recovery, and the provider's lease. */
    manual: Option<nat>, lease: bool,
    /** The store: its tombstones survive a restart. */
    storeClosed: bool, tombstones: map<string, Tombstone>,
    /** History: store accesses after the store closed, and the recovery collections ever started. */
    lateTouches: nat, starts: seq<(string, int)>)

  predicate InFlight(r: Run) {
    r.phase.Waiting? || r.phase.Collecting? || r.phase.Settled?
  }

  // ---------------------------------------------------------------- the store

  function Touch(w: Runtime): Runtime {
    if w.storeClosed then w.(lateTouches := w.lateTouches + 1) else w
  }

  /** `finishManualRecoveryRequest`. */
  function Persist(w: Runtime, status: Status): Runtime {
    var id := status.challengeId;
    var t := Touch(w);
    if id in t.tombstones then t.(tombstones := t.tombstones[id := Tombstone(t.tombstones[id].createdAt, status)]) else t
  }

  /** What the store says about a recovery that was started and not yet finished. */
  function Interrupted(id: string): Status {
    Status(id, Failed, None, Some(RecoveryInterrupted))
  }

  function Retained(tombstones: map<string, Tombstone>, at: int): map<string, Tombstone> {
    map id | id in tombstones && tombstones[id].createdAt >= at - REQUEST_RETENTION :: tombstones[id]
  }

  // ---------------------------------------------------------------- aborting and recovery effects

  /** Aborting and answering start no task and end none. */
  ghost predicate SameTasks(w: Runtime, v: Runtime) {
    && |v.runs| == |w.runs| && |v.maintenances| == |w.maintenances|
    && v.running == w.running && v.maintaining == w.maintaining && v.manual == w.manual && v.config == w.config && v.now == w.now
    && (v.lease ==> w.lease)
    && v.closed == w.closed && v.closing == w.closing && v.storeClosed == w.storeClosed && v.starts == w.starts
    && (forall i :: 0 <= i < |w.runs| ==> SameTask(w.runs[i], v.runs[i]))
    && (forall m :: 0 <= m < |w.maintenances| ==> v.maintenances[m].phase == w.maintenances[m].phase)
  }

  ghost predicate SameTask(r: Run, s: Run) {
    && s.phase == r.phase && s.generation == r.generation && s.rejected == r.rejected && (r.aborted ==> s.aborted)
    && (s.recovery.Some? <==> r.recovery.Some?)
  }

  /** Run `i`'s recovery becomes `s`; ending it gives the lease back and saves the outcome. */
  function RecoveryTo(w: Runtime, i: nat, s: Recovery): (v: Runtime)
    requires i < |w.runs| && w.runs[i].recovery.Some?
    ensures SameTasks(w, v) && v.generation == w.generation
  {
    var ended := !Terminal(w.runs[i].recovery.value) && Terminal(s);
    var w1 := w.(runs := w.runs[i := w.runs[i].(recovery := Some(s))]);
    if ended then Persist(w1.(lease := false), s.current) else w1
  }

  /** The signal of run `i` fires; a login waiting for a code listens to it. */
  function AbortRun(w: Runtime, i: nat): (v: Runtime)
    requires i < |w.runs|
    ensures SameTasks(w, v) && v.generation == w.generation && v.runs[i].aborted
  {
    if w.runs[i].aborted then w
    else
      var w1 := w.(runs := w.runs[i := w.runs[i].(aborted := true)]);
      match w.runs[i].recovery
      case None => w1
      case Some(r) => RecoveryTo(w1, i, AbortFired(r))
  }

  predicate WellIndexed(w: Runtime) {
    && (w.running.Some? ==> w.running.value < |w.runs|)
    && (w.maintaining.Some? ==> w.maintaining.value < |w.maintenances|)
    && (w.manual.Some? ==> w.manual.value < |w.runs| && w.runs[w.manual.value].recovery.Some?)
  }

  lemma StillIndexed(w: Runtime, v: Runtime)
    requires WellIndexed(w) && SameTasks(w, v)
    ensures WellIndexed(v)
  {
  }

  /** The abort callback of a recovery. */
  function AbortCurrent(w: Runtime): (v: Runtime)
    requires WellIndexed(w)
    ensures SameTasks(w, v) && v.generation == w.generation && (v.running.Some? ==> v.runs[v.running.value].aborted)
  {
    if w.running.Some? then AbortRun(w, w.running.value) else w
  }

  function AbortMaintenance(w: Runtime): (v: Runtime)
    requires WellIndexed(w)
    ensures SameTasks(w, v) && v.generation == w.generation
  {
    if w.maintaining.None? then w
    else
      var m := w.maintaining.value;
      w.(maintenances := w.maintenances[m := w.maintenances[m].(aborted := true)])
  }

  function CancelManual(w: Runtime): (v: Runtime)
    requires WellIndexed(w)
    ensures SameTasks(w, v) && v.generation == w.generation
  {
    if w.manual.None? then w
    else
      var i := w.manual.value;
      var answer := Cancel(w.runs[i].recovery.value);
      var w1 := RecoveryTo(w, i, answer.0);
      if answer.2 then AbortCurrent(w1) else w1
  }

  // ---------------------------------------------------------------- collection and maintenance

  /** `runNow` up to its first await. */
  function StartRun(w: Runtime, recovery: Option<Recovery>): Runtime {
    if w.closed || w.running.Some? || !w.config.collector || (recovery.None? && w.lease) then w
    else
      var phase := if w.maintaining.Some? then Waiting(w.maintaining.value) else Collecting;
      w.(runs := w.runs + [Run(phase, w.generation, false, false, recovery)], running := Some(|w.runs|))
  }

  /** The waited-for renewal is over. */
  function ResumeRun(w: Runtime, i: nat): Runtime
    requires i < |w.runs|
  {
    var run := w.runs[i];
    var phase := if w.closed || run.aborted || w.generation != run.generation then Settled(Fulfilled(None)) else Collecting;
    w.(runs := w.runs[i := run.(phase := phase)])
  }

  function CollectReturns(w: Runtime, i: nat, status: CollectionStatus): Runtime
    requires i < |w.runs|
  {
    w.(runs := w.runs[i := w.runs[i].(phase := Settled(Fulfilled(Some(status))))])
  }

  /** The collector throws; recording the failure may throw too. */
  function CollectThrows(w: Runtime, i: nat, recordFails: bool): Runtime
    requires i < |w.runs|
  {
    var run := w.runs[i];
    if run.aborted then CollectReturns(w, i, CollectionError)
    else if recordFails then Touch(w.(runs := w.runs[i := run.(phase := Settled(Rejected), rejected := true)]))
    else Touch(CollectReturns(w, i, CollectionError))
  }

  function FinishedRecovery(r: Recovery, status: Option<CollectionStatus>): Recovery {
    Finish(r, status == Some(Collected) || status == Some(Partial), if status == Some(AuthRequired) then OtpRequired else CollectionFailed)
  }

  /** The rest of `runNow` once its inner promise settled. */
  function EndRun(w: Runtime, i: nat): Runtime
    requires i < |w.runs| && w.runs[i].phase.Settled?
  {
    var run := w.runs[i];
    var w1 := if run.phase.outcome.Fulfilled? && run.recovery.Some? then
        RecoveryTo(w, i, FinishedRecovery(run.recovery.value, run.phase.outcome.status))
      else w;
    var phase := if run.phase.outcome.Rejected? && run.recovery.Some? then Failing else Finished;
    w1.(runs := w1.runs[i := w1.runs[i].(phase := phase)], running := None)
  }

  /** The rejection handler of a manual run. */
  function CatchRun(w: Runtime, i: nat): Runtime
    requires i < |w.runs| && w.runs[i].recovery.Some?
  {
    var w1 := RecoveryTo(w, i, Finish(w.runs[i].recovery.value, false, CollectionFailed));
    w1.(runs := w1.runs[i := w1.runs[i].(phase := Finished)])
  }

  /** `maintainSession` up to its first await; a scheduled one does nothing while a login is needed. */
  function StartMaintenance(w: Runtime, scheduled: bool, authRequired: bool): Runtime {
    if w.closed || w.running.Some? || w.maintaining.Some? || !w.config.renewer then w
    else
      var phase := if scheduled && authRequired then Renewed else Renewing;
      Touch(w).(maintenances := w.maintenances + [Maintenance(phase, false)], maintaining := Some(|w.maintenances|))
  }

  /** The renewal returned or threw; the session state is saved unless the profile was busy. */
  function RenewalEnds(w: Runtime, m: nat, busy: bool): Runtime
    requires m < |w.maintenances|
  {
    var w1 := w.(maintenances := w.maintenances[m := w.maintenances[m].(phase := Renewed)]);
    if w.maintenances[m].aborted || w.closed || busy then w1 else Touch(w1)
  }

  function EndMaintenance(w: Runtime, m: nat): Runtime
    requires m < |w.maintenances|
  {
    w.(maintenances := w.maintenances[m := w.maintenances[m].(phase := Done)], maintaining := None)
  }

  // ---------------------------------------------------------------- lifecycle

  function Stop(w: Runtime): Runtime
    requires WellIndexed(w)
  {
    var w1 := AbortMaintenance(w.(generation := w.generation + 1));
    CancelManual(AbortCurrent(w1))
  }

  function Close(w: Runtime): Runtime
    requires WellIndexed(w)
  {
    if w.closed then w
    else
      var w1 := Stop(w.(closed := true));
      w1.(closing := Some(Closing(w1.running, w1.maintaining)))
  }

  predicate RunSettled(w: Runtime, run: Option<nat>) {
    run.Some? ==> run.value < |w.runs| && !InFlight(w.runs[run.value])
  }

  predicate MaintenanceSettled(w: Runtime, maintenance: Option<nat>) {
    maintenance.Some? ==> maintenance.value < |w.maintenances| && w.maintenances[maintenance.value].phase.Done?
  }

  predicate RunRejected(w: Runtime, run: Option<nat>)
    requires RunSettled(w, run)
  {
    run.Some? && w.runs[run.value].rejected
  }

  /** `Promise.all` in `close` settled, at once when the run was rejected; then the store stays open. */
  function EndClose(w: Runtime): Runtime
    requires w.closing.Some? && RunSettled(w, w.closing.value.run)
  {
    w.(closing := None, storeClosed := w.storeClosed || !RunRejected(w, w.closing.value.run))
  }

  // ---------------------------------------------------------------- recovery control

  datatype StartReply = StartUnavailable | StartShown(status: Status) | InProgress | RateLimited | Started(status: Status)

  predicate RecoveryUnavailable(w: Runtime) {
    w.closed || !w.config.collector || !w.config.manualVerification
  }

  predicate IsManual(w: Runtime, id: string)
    requires WellIndexed(w)
  {
    w.manual.Some? && w.runs[w.manual.value].recovery.value.current.challengeId == id
  }

  /** `allowed` is the refresh limiter's answer. */
  function StartRecovery(w: Runtime, id: string, allowed: bool): (Runtime, StartReply)
    requires WellIndexed(w)
  {
    if RecoveryUnavailable(w) then (w, StartUnavailable)
    else if IsManual(w, id) then (w, StartShown(w.runs[w.manual.value].recovery.value.current))
    else
      var t := Touch(w);
      if id in w.tombstones then (t, StartShown(w.tombstones[id].status))
      else if w.running.Some? || w.lease then (t, InProgress)
      else if !allowed then (t, RateLimited)
      else
        var recovery := Created(id, w.now);
        var kept := Retained(w.tombstones, w.now)[id := Tombstone(w.now, Interrupted(id))];
        var reserved := t.(tombstones := kept, starts := w.starts + [(id, w.now)], lease := true, manual := Some(|w.runs|));
        (StartRun(reserved, Some(recovery)), Started(recovery.current))
  }

  datatype ActionReply = ActionUnavailable | Answer(reply: ControlReply) | NotFound

  /** The answer about a recovery this process does not hold. */
  function StoredAnswer(tombstones: map<string, Tombstone>, id: string, canceling: bool): ActionReply {
    if id !in tombstones then NotFound
    else
      var status := tombstones[id].status;
      if status.state.Canceled? && canceling then Answer(Shown(status))
      else if status.state.Expired? then Answer(ExpiredReply)
      else Answer(NotWaiting)
  }

  function SubmitRecovery(w: Runtime, id: string, code: string): (Runtime, ActionReply)
    requires WellIndexed(w)
  {
    if RecoveryUnavailable(w) then (w, ActionUnavailable)
    else if !IsManual(w, id) then (Touch(w), StoredAnswer(w.tombstones, id, false))
    else
      var i := w.manual.value;
      var answer := Submit(w.runs[i].recovery.value, code, w.now);
      var w1 := RecoveryTo(w, i, answer.0);
      (if answer.2 then AbortCurrent(w1) else w1, Answer(answer.1))
  }

  function CancelRecovery(w: Runtime, id: string): (Runtime, ActionReply)
    requires WellIndexed(w)
  {
    if RecoveryUnavailable(w) then (w, ActionUnavailable)
    else if !IsManual(w, id) then (Touch(w), StoredAnswer(w.tombstones, id, true))
    else (CancelManual(w), Answer(Cancel(w.runs[w.manual.value].recovery.value).1))
  }

  /** The timer of run `i`'s recovery fires. */
  function TimerExpires(w: Runtime, i: nat): Runtime
    requires WellIndexed(w) && i < |w.runs| && w.runs[i].recovery.Some?
  {
    AbortCurrent(RecoveryTo(w, i, TimerFired(w.runs[i].recovery.value)))
  }

  // ---------------------------------------------------------------- steps

  datatype RuntimeEvent =
    | Tick(elapsed: nat)
    | RunNow
    | RunResumes(run: nat)
    | CollectorUsesStore(run: nat)
    | CollectorReturns(run: nat, status: CollectionStatus)
    | CollectorThrows(run: nat, recordFails: bool)
    | RunEnds(run: nat)
    | RunCatches(run: nat)
    | Maintain(scheduled: bool, authRequired: bool)
    | RenewalReturns(maintenance: nat, busy: bool)
    | MaintenanceEnds(maintenance: nat)
    | Stopped
    | Closed
    | CloseSettles
    | RecoveryStarts(id: string, allowed: bool)
    | CodeSubmitted(id: string, code: string)
    | RecoveryCanceledByUser(id: string)
    | LoginPrepares(run: nat)
    | LoginReads(run: nat, signalAborted: bool)
    | LoginCleansUp(run: nat)
    | LoginSignalAborts(run: nat)
    | TimerFires(run: nat)
    | Restarted

  /** Only the login of a run that is collecting uses the recovery's source. */
  predicate LoginActive(w: Runtime, i: nat) {
    i < |w.runs| && w.runs[i].phase.Collecting? && w.runs[i].recovery.Some?
  }

  predicate Enabled(w: Runtime, e: RuntimeEvent) {
    match e
    case RunResumes(i) =>
      && i < |w.runs| && w.runs[i].phase.Waiting? && w.runs[i].phase.maintenance < |w.maintenances|
      && !w.maintenances[w.runs[i].phase.maintenance].phase.Renewing?
    case CollectorUsesStore(i) => i < |w.runs| && w.runs[i].phase.Collecting?
    case CollectorReturns(i, _) => i < |w.runs| && w.runs[i].phase.Collecting?
    case CollectorThrows(i, _) => i < |w.runs| && w.runs[i].phase.Collecting?
    case RunEnds(i) => i < |w.runs| && w.runs[i].phase.Settled?
    case RunCatches(i) => i < |w.runs| && w.runs[i].phase.Failing? && w.runs[i].recovery.Some?
    case RenewalReturns(m, _) => m < |w.maintenances| && w.maintenances[m].phase.Renewing?
    case MaintenanceEnds(m) => m < |w.maintenances| && w.maintenances[m].phase.Renewed?
    case CloseSettles =>
      && w.closing.Some? && RunSettled(w, w.closing.value.run)
      && (RunRejected(w, w.closing.value.run) || MaintenanceSettled(w, w.closing.value.maintenance))
    case LoginPrepares(i) => LoginActive(w, i)
    case LoginReads(i, _) => LoginActive(w, i) && w.runs[i].recovery.value.prepared
    case LoginCleansUp(i) => LoginActive(w, i) && w.runs[i].recovery.value.prepared
    case LoginSignalAborts(i) => LoginActive(w, i)
    case TimerFires(i) => i < |w.runs| && w.runs[i].recovery.Some? && w.runs[i].recovery.value.timer
    case _ => true
  }

  function Restart(w: Runtime): Runtime {
    w.(runs := [], maintenances := [], running := None, maintaining := None, closed := false, generation := 0, closing := None,
       manual := None, lease := false, storeClosed := false)
  }

  /** The login's calls on the recovery of run `i`. */
  function LoginStep(w: Runtime, e: RuntimeEvent): Runtime
    requires e.LoginPrepares? || e.LoginReads? || e.LoginCleansUp? || e.LoginSignalAborts?
    requires LoginActive(w, e.run)
  {
    var r := w.runs[e.run].recovery.value;
    RecoveryTo(w, e.run,
               match e
               case LoginPrepares(i) => Prepare(r, w.runs[i].aborted).0
               case LoginReads(i, signalAborted) => Read(r, signalAborted || w.runs[i].aborted).0
               case LoginCleansUp(i) => RequestCanceled(r)
               case LoginSignalAborts(i) => AbortFired(r))
  }

  function Next(w: Runtime, e: RuntimeEvent): Runtime
    requires WellIndexed(w)
  {
    if !Enabled(w, e) then w
    else
      match e
      case Tick(elapsed) => w.(now := w.now + elapsed)
      case RunNow => StartRun(w, None)
      case RunResumes(i) => ResumeRun(w, i)
      case CollectorUsesStore(i) => Touch(w)
      case CollectorReturns(i, status) => CollectReturns(w, i, status)
      case CollectorThrows(i, recordFails) => CollectThrows(w, i, recordFails)
      case RunEnds(i) => EndRun(w, i)
      case RunCatches(i) => CatchRun(w, i)
      case Maintain(scheduled, authRequired) => StartMaintenance(w, scheduled, authRequired)
      case RenewalReturns(m, busy) => RenewalEnds(w, m, busy)
      case MaintenanceEnds(m) => EndMaintenance(w, m)
      case Stopped => Stop(w)
      case Closed => Close(w)
      case CloseSettles => EndClose(w)
      case RecoveryStarts(id, allowed) => StartRecovery(w, id, allowed).0
      case CodeSubmitted(id, code) => SubmitRecovery(w, id, code).0
      case RecoveryCanceledByUser(id) => CancelRecovery(w, id).0
      case TimerFires(i) => TimerExpires(w, i)
      case Restarted => Restart(w)
      case _ => LoginStep(w, e)
  }

  predicate Initial(w: Runtime) {
    w.runs == [] && w.maintenances == [] && w.running.None? && w.maintaining.None? && !w.closed && w.closing.None?
    && w.manual.None? && !w.lease && !w.storeClosed && w.lateTouches == 0 && w.starts == []
  }
}
