/** What every interleaving of the runtime's steps keeps, with crashes and restarts in between. */
module RuntimeRuns {
  import opened Common
  import opened RecoverySteps
  import opened RuntimeSteps

  // ---------------------------------------------------------------- the invariant

  /** `running` and `maintaining` name the tasks in flight; a waiting run waits for the renewal in flight, if any. */
  ghost predicate TaskInv(w: Runtime) {
    && WellIndexed(w)
    && (forall i :: 0 <= i < |w.runs| ==> (InFlight(w.runs[i]) <==> w.running == Some(i)))
    && (forall m :: 0 <= m < |w.maintenances| ==> (!w.maintenances[m].phase.Done? <==> w.maintaining == Some(m)))
    && (w.running.Some? && w.maintaining.Some? ==> Excludes(w.runs[w.running.value], w.maintaining.value, w.maintenances[w.maintaining.value]))
    && (w.running.Some? && w.runs[w.running.value].phase.Waiting? ==> w.runs[w.running.value].phase.maintenance < |w.maintenances|)
  }

  predicate Excludes(run: Run, m: nat, maintenance: Maintenance) {
    if run.phase.Waiting? then run.phase.maintenance == m else maintenance.phase.Renewed?
  }

  /** An open recovery is the latest one, holds the lease, and its run has not cleaned up yet. */
  ghost predicate RecoveryInv(w: Runtime) {
    && WellIndexed(w)
    && (forall i :: 0 <= i < |w.runs| && w.runs[i].recovery.Some? ==>
          && Valid(w.runs[i].recovery.value)
          && (!Terminal(w.runs[i].recovery.value) ==>
                w.manual == Some(i) && w.lease && (InFlight(w.runs[i]) || w.runs[i].phase.Failing?)))
    && (w.lease ==> w.manual.Some? && !Terminal(w.runs[w.manual.value].recovery.value))
    && (w.lease ==> w.running == w.manual || (w.running.None? && w.runs[w.manual.value].phase.Failing?))
  }

  ghost predicate StoreInv(w: Runtime) {
    && WellIndexed(w)
    && (w.storeClosed ==> w.closed && !w.lease && w.closing.None? && w.running.None? && w.maintaining.None?)
    && (w.closing.Some? ==> w.closed && CapturedAll(w, w.closing.value))
    && w.lateTouches == 0
  }

  /** Whatever is in flight is what `close` waits for. */
  predicate CapturedAll(w: Runtime, c: Closing) {
    && (w.running.Some? ==> c.run == w.running) && (w.maintaining.Some? ==> c.maintenance == w.maintaining)
  }

  ghost predicate DurableInv(w: Runtime) {
    && WellIndexed(w)
    && (forall id :: id in w.tombstones ==> w.tombstones[id].createdAt <= w.now)
    && (forall k :: 0 <= k < |w.starts| ==> Remembered(w, w.starts[k].0, w.starts[k].1))
    && Spaced(w.starts)
    && (w.manual.Some? ==> ManualSaved(w, w.runs[w.manual.value].recovery.value))
  }

  /** A started request id is still known, or its retention is over. */
  predicate Remembered(w: Runtime, id: string, at: int) {
    at <= w.now && (w.now > at + REQUEST_RETENTION || (id in w.tombstones && w.tombstones[id].createdAt >= at))
  }

  /** Two collections for one request id are more than the retention apart. */
  ghost predicate Spaced(starts: seq<(string, int)>) {
    forall j, k :: 0 <= j < k < |starts| && starts[j].0 == starts[k].0 ==> starts[k].1 > starts[j].1 + REQUEST_RETENTION
  }

  /** The store shows the latest recovery as interrupted until it has its outcome, then the outcome. */
  predicate ManualSaved(w: Runtime, r: Recovery) {
    var id := r.current.challengeId;
    id in w.tombstones && w.tombstones[id].status == (if Terminal(r) then r.current else Interrupted(id))
  }

  ghost predicate Core(w: Runtime) {
    TaskInv(w) && RecoveryInv(w) && StoreInv(w) && DurableInv(w)
  }

  /** A stopped runtime has no open recovery, and what still runs is aborted. */
  ghost predicate Quiet(w: Runtime) {
    WellIndexed(w) && !w.lease && (w.running.Some? ==> w.runs[w.running.value].aborted)
  }

  ghost predicate Inv(w: Runtime) {
    Core(w) && (w.closed ==> Quiet(w))
  }

  // ---------------------------------------------------------------- recovery effects keep it

  lemma RecoveryToKeeps(w: Runtime, i: nat, s: Recovery)
    requires Core(w) && i < |w.runs| && w.runs[i].recovery.Some?
    requires Valid(s) && Progresses(w.runs[i].recovery.value, s)
    ensures Core(RecoveryTo(w, i, s))
  {
    var r := w.runs[i].recovery.value;
    var v := RecoveryTo(w, i, s);
    assert TaskInv(v);
    assert Terminal(r) ==> s.current == r.current;
    assert RecoveryInv(v);
    assert StoreInv(v);
    if !Terminal(r) && Terminal(s) {
      assert w.manual == Some(i);
    }
  }

  lemma QuietKept(w: Runtime, v: Runtime)
    requires WellIndexed(w) && (w.closed ==> Quiet(w)) && SameTasks(w, v)
    ensures v.closed ==> Quiet(v)
  {
  }

  lemma AbortRunKeeps(w: Runtime, i: nat)
    requires Core(w) && i < |w.runs|
    ensures Core(AbortRun(w, i))
  {
    if !w.runs[i].aborted {
      var w1 := w.(runs := w.runs[i := w.runs[i].(aborted := true)]);
      assert TaskInv(w1) && RecoveryInv(w1) && StoreInv(w1);
      assert DurableInv(w1);
      if w.runs[i].recovery.Some? {
        var r := w.runs[i].recovery.value;
        StepProgresses(r, AbortEvent);
        RecoveryToKeeps(w1, i, AbortFired(r));
      }
    }
  }

  lemma AbortCurrentKeeps(w: Runtime)
    requires Core(w)
    ensures Core(AbortCurrent(w))
  {
    if w.running.Some? {
      AbortRunKeeps(w, w.running.value);
    }
  }

  lemma AbortMaintenanceKeeps(w: Runtime)
    requires Core(w)
    ensures Core(AbortMaintenance(w))
  {
    var v := AbortMaintenance(w);
    assert TaskInv(v) && RecoveryInv(v) && StoreInv(v);
    assert DurableInv(v);
  }

  lemma CancelManualKeeps(w: Runtime)
    requires Core(w)
    ensures Core(CancelManual(w)) && !CancelManual(w).lease
  {
    if w.manual.Some? {
      var r := w.runs[w.manual.value].recovery.value;
      StepProgresses(r, CancelEvent);
      RecoveryToKeeps(w, w.manual.value, Cancel(r).0);
      var w1 := RecoveryTo(w, w.manual.value, Cancel(r).0);
      assert Terminal(w1.runs[w1.manual.value].recovery.value);
      AbortCurrentKeeps(w1);
    }
  }

  lemma NewGenerationKeeps(w: Runtime)
    requires Core(w)
    ensures Core(w.(generation := w.generation + 1))
  {
    var v := w.(generation := w.generation + 1);
    assert TaskInv(v) && RecoveryInv(v) && StoreInv(v);
  }

  lemma CoreIndexed(w: Runtime)
    requires Core(w)
    ensures WellIndexed(w)
  {
  }

  lemma StopKeeps(w: Runtime)
    requires Core(w)
    ensures Core(Stop(w)) && Quiet(Stop(w))
  {
    hide Core, TaskInv, RecoveryInv, StoreInv, DurableInv, AbortMaintenance, AbortRun, AbortCurrent, CancelManual, RecoveryTo, SameTasks, WellIndexed;
    var w1 := w.(generation := w.generation + 1);
    NewGenerationKeeps(w);
    CoreIndexed(w1);
    var w2 := AbortMaintenance(w1);
    AbortMaintenanceKeeps(w1);
    CoreIndexed(w2);
    var w3 := AbortCurrent(w2);
    AbortCurrentKeeps(w2);
    CoreIndexed(w3);
    var w4 := CancelManual(w3);
    CancelManualKeeps(w3);
    CoreIndexed(w4);
    AbortedStays(w3, w4);
    CoreIndexed(w);
  }

  lemma AbortedStays(w: Runtime, v: Runtime)
    requires WellIndexed(w) && WellIndexed(v) && SameTasks(w, v) && (w.running.Some? ==> w.runs[w.running.value].aborted)
    ensures v.running.Some? ==> v.runs[v.running.value].aborted
  {
  }

  lemma ClosingKeeps(w: Runtime)
    requires Core(w) && !w.closed
    ensures Core(w.(closed := true))
  {
    var w1 := w.(closed := true);
    assert TaskInv(w1) && RecoveryInv(w1) && StoreInv(w1) && DurableInv(w1);
  }

  lemma WaitingKeeps(w: Runtime)
    requires Core(w) && Quiet(w) && w.closed && !w.storeClosed
    ensures Inv(w.(closing := Some(Closing(w.running, w.maintaining))))
  {
    var v := w.(closing := Some(Closing(w.running, w.maintaining)));
    assert TaskInv(v) && RecoveryInv(v) && StoreInv(v) && DurableInv(v);
  }

  lemma StopLeavesFlags(w: Runtime)
    requires WellIndexed(w)
    ensures Stop(w).closed == w.closed && Stop(w).storeClosed == w.storeClosed
  {
    hide RecoveryTo, AbortRun, AbortCurrent, CancelManual, AbortMaintenance, SameTask;
  }

  lemma CloseKeeps(w: Runtime)
    requires Inv(w)
    ensures Inv(Close(w))
  {
    if !w.closed {
      ClosingKeeps(w);
      var w1 := w.(closed := true);
      assert !w.storeClosed;
      hide Core, Stop, TaskInv, RecoveryInv, StoreInv, DurableInv;
      StopKeeps(w1);
      StopLeavesFlags(w1);
      WaitingKeeps(Stop(w1));
    }
  }

  // ---------------------------------------------------------------- tasks keep it

  lemma StartRunKeeps(w: Runtime)
    requires Inv(w)
    ensures Inv(StartRun(w, None))
  {
    var v := StartRun(w, None);
    assert TaskInv(v);
    assert RecoveryInv(v);
    assert StoreInv(v);
    assert DurableInv(v);
  }

  /** Steps that only move one run from one phase to another. */
  lemma PhaseKeeps(w: Runtime, i: nat, run: Run)
    requires Inv(w) && i < |w.runs| && InFlight(w.runs[i]) && InFlight(run)
    requires run.recovery == w.runs[i].recovery && run.aborted == w.runs[i].aborted
    requires !run.phase.Waiting?
    requires w.maintaining.Some? ==> w.maintenances[w.maintaining.value].phase.Renewed?
    ensures Inv(w.(runs := w.runs[i := run]))
  {
    var v := w.(runs := w.runs[i := run]);
    assert TaskInv(v);
    assert RecoveryInv(v) && StoreInv(v) && DurableInv(v);
  }

  lemma ResumeRunKeeps(w: Runtime, i: nat)
    requires Inv(w) && Enabled(w, RunResumes(i))
    ensures Inv(ResumeRun(w, i))
  {
    PhaseKeeps(w, i, ResumeRun(w, i).runs[i]);
  }

  lemma CollectKeeps(w: Runtime, i: nat, status: CollectionStatus, recordFails: bool)
    requires Inv(w) && i < |w.runs| && w.runs[i].phase.Collecting?
    ensures Inv(CollectReturns(w, i, status)) && Inv(CollectThrows(w, i, recordFails))
  {
    PhaseKeeps(w, i, CollectReturns(w, i, status).runs[i]);
    PhaseKeeps(w, i, CollectReturns(w, i, CollectionError).runs[i]);
    PhaseKeeps(w, i, w.runs[i].(phase := Settled(Rejected), rejected := true));
  }

  lemma EndRunKeeps(w: Runtime, i: nat)
    requires Inv(w) && i < |w.runs| && w.runs[i].phase.Settled?
    ensures Inv(EndRun(w, i))
  {
    var run := w.runs[i];
    if run.phase.outcome.Fulfilled? && run.recovery.Some? {
      var s := FinishedRecovery(run.recovery.value, run.phase.outcome.status);
      FinishProgresses(run.recovery.value, run.phase.outcome.status);
      RecoveryToKeeps(w, i, s);
      QuietKept(w, RecoveryTo(w, i, s));
      FreeRunKeeps(RecoveryTo(w, i, s), i);
    } else if run.phase.outcome.Rejected? && run.recovery.Some? {
      FailRunKeeps(w, i);
    } else {
      FreeRunKeeps(w, i);
    }
  }

  lemma FinishProgresses(r: Recovery, status: Option<CollectionStatus>)
    requires Valid(r)
    ensures Valid(FinishedRecovery(r, status)) && Progresses(r, FinishedRecovery(r, status)) && Terminal(FinishedRecovery(r, status))
  {
    var e := FinishEvent(status == Some(Collected) || status == Some(Partial), if status == Some(AuthRequired) then OtpRequired else CollectionFailed);
    StepProgresses(r, e);
    assert After(r, e) == FinishedRecovery(r, status);
  }

  lemma FreeRunKeeps(w: Runtime, i: nat)
    requires Inv(w) && i < |w.runs| && w.runs[i].phase.Settled?
    requires w.runs[i].recovery.Some? ==> Terminal(w.runs[i].recovery.value)
    ensures Inv(w.(runs := w.runs[i := w.runs[i].(phase := Finished)], running := None))
  {
    var v := w.(runs := w.runs[i := w.runs[i].(phase := Finished)], running := None);
    assert w.running == Some(i);
    assert TaskInv(v);
    assert RecoveryInv(v) && StoreInv(v) && DurableInv(v);
  }

  lemma FailRunKeeps(w: Runtime, i: nat)
    requires Inv(w) && i < |w.runs| && w.runs[i].phase.Settled?
    ensures Inv(w.(runs := w.runs[i := w.runs[i].(phase := Failing)], running := None))
  {
    var v := w.(runs := w.runs[i := w.runs[i].(phase := Failing)], running := None);
    assert w.running == Some(i);
    assert TaskInv(v);
    assert RecoveryInv(v) && StoreInv(v) && DurableInv(v);
  }

  lemma CatchRunKeeps(w: Runtime, i: nat)
    requires Inv(w) && Enabled(w, RunCatches(i))
    ensures Inv(CatchRun(w, i))
  {
    var r := w.runs[i].recovery.value;
    var s := Finish(r, false, CollectionFailed);
    StepProgresses(r, FinishEvent(false, CollectionFailed));
    RecoveryToKeeps(w, i, s);
    var v := RecoveryTo(w, i, s);
    QuietKept(w, v);
    CaughtKeeps(v, i);
  }

  lemma CaughtKeeps(w: Runtime, i: nat)
    requires Inv(w) && i < |w.runs| && w.runs[i].phase.Failing?
    requires w.runs[i].recovery.Some? && Terminal(w.runs[i].recovery.value)
    ensures Inv(w.(runs := w.runs[i := w.runs[i].(phase := Finished)]))
  {
    var v := w.(runs := w.runs[i := w.runs[i].(phase := Finished)]);
    assert TaskInv(v);
    assert RecoveryInv(v) && StoreInv(v) && DurableInv(v);
  }

  lemma MaintenanceKeeps(w: Runtime, scheduled: bool, authRequired: bool)
    requires Inv(w)
    ensures Inv(StartMaintenance(w, scheduled, authRequired))
  {
    var v := StartMaintenance(w, scheduled, authRequired);
    assert TaskInv(v);
    assert RecoveryInv(v) && StoreInv(v) && DurableInv(v);
  }

  lemma RenewalKeeps(w: Runtime, m: nat, busy: bool)
    requires Inv(w) && m < |w.maintenances| && w.maintenances[m].phase.Renewing?
    ensures Inv(RenewalEnds(w, m, busy))
  {
    var v := RenewalEnds(w, m, busy);
    assert w.maintaining == Some(m);
    assert TaskInv(v);
    assert RecoveryInv(v) && StoreInv(v) && DurableInv(v);
  }

  lemma EndMaintenanceKeeps(w: Runtime, m: nat)
    requires Inv(w) && m < |w.maintenances| && w.maintenances[m].phase.Renewed?
    ensures Inv(EndMaintenance(w, m))
  {
    var v := EndMaintenance(w, m);
    assert w.maintaining == Some(m);
    assert TaskInv(v);
    assert RecoveryInv(v) && StoreInv(v) && DurableInv(v);
  }

  lemma EndCloseKeeps(w: Runtime)
    requires Inv(w) && Enabled(w, CloseSettles)
    ensures Inv(EndClose(w))
  {
    var v := EndClose(w);
    assert TaskInv(v) && RecoveryInv(v) && DurableInv(v);
  }

  // ---------------------------------------------------------------- recovery control keeps it

  lemma StartRecoveryKeeps(w: Runtime, id: string, allowed: bool)
    requires Inv(w)
    ensures Inv(StartRecovery(w, id, allowed).0)
  {
    if StartRecovery(w, id, allowed).1.Started? {
      var v := StartRecovery(w, id, allowed).0;
      var run := v.runs[|w.runs|];
      assert Valid(Created(id, w.now)) && !Terminal(Created(id, w.now));
      assert v.runs == w.runs + [run] && run.recovery == Some(Created(id, w.now)) && InFlight(run);
      assert TaskInv(v);
      assert RecoveryInv(v);
      assert StoreInv(v);
      StartDurable(w, id, allowed);
    } else {
      assert StartRecovery(w, id, allowed).0 == w;
    }
  }

  lemma StartDurable(w: Runtime, id: string, allowed: bool)
    requires Inv(w) && StartRecovery(w, id, allowed).1.Started?
    ensures DurableInv(StartRecovery(w, id, allowed).0)
  {
    var v := StartRecovery(w, id, allowed).0;
    assert v.starts == w.starts + [(id, w.now)];
    forall k | 0 <= k < |v.starts| ensures Remembered(v, v.starts[k].0, v.starts[k].1) {
      if k < |w.starts| {
        assert Remembered(w, w.starts[k].0, w.starts[k].1);
      }
    }
    forall j, k | 0 <= j < k < |v.starts| && v.starts[j].0 == v.starts[k].0
      ensures v.starts[k].1 > v.starts[j].1 + REQUEST_RETENTION
    {
      assert Remembered(w, w.starts[j].0, w.starts[j].1);
    }
  }

  /** A recovery moves on and the current collection is aborted with it. */
  lemma AnswerKeeps(w: Runtime, i: nat, s: Recovery)
    requires Inv(w) && i < |w.runs| && w.runs[i].recovery.Some?
    requires Valid(s) && Progresses(w.runs[i].recovery.value, s)
    ensures Inv(RecoveryTo(w, i, s)) && Inv(AbortCurrent(RecoveryTo(w, i, s)))
  {
    RecoveryToKeeps(w, i, s);
    QuietKept(w, RecoveryTo(w, i, s));
    hide RecoveryTo, TaskInv, RecoveryInv, DurableInv;
    AbortCurrentKeeps(RecoveryTo(w, i, s));
    QuietKept(RecoveryTo(w, i, s), AbortCurrent(RecoveryTo(w, i, s)));
  }

  lemma SubmitKeeps(w: Runtime, id: string, code: string)
    requires Inv(w)
    ensures Inv(SubmitRecovery(w, id, code).0)
  {
    if !RecoveryUnavailable(w) && IsManual(w, id) {
      var r := w.runs[w.manual.value].recovery.value;
      StepProgresses(r, SubmitEvent(code, w.now));
      AnswerKeeps(w, w.manual.value, Submit(r, code, w.now).0);
      hide Inv, RecoveryTo, AbortCurrent, Submit;
    }
  }

  lemma CancelKeeps(w: Runtime, id: string)
    requires Inv(w)
    ensures Inv(CancelRecovery(w, id).0)
  {
    if !RecoveryUnavailable(w) && IsManual(w, id) {
      CancelManualKeeps(w);
      QuietKept(w, CancelManual(w));
      hide CancelManual, TaskInv, RecoveryInv, DurableInv, StoreInv;
    }
  }

  lemma TimerKeeps(w: Runtime, i: nat)
    requires Inv(w) && Enabled(w, TimerFires(i))
    ensures Inv(TimerExpires(w, i))
  {
    StepProgresses(w.runs[i].recovery.value, TimerEvent);
    AnswerKeeps(w, i, TimerFired(w.runs[i].recovery.value));
    hide Inv, RecoveryTo, AbortCurrent;
  }

  lemma LoginKeeps(w: Runtime, e: RuntimeEvent)
    requires Inv(w) && Enabled(w, e)
    requires e.LoginPrepares? || e.LoginReads? || e.LoginCleansUp? || e.LoginSignalAborts?
    ensures Inv(LoginStep(w, e))
  {
    var r := w.runs[e.run].recovery.value;
    var aborted := w.runs[e.run].aborted;
    var step := LoginCall(e, aborted);
    assert Core(w);
    StepProgresses(r, step);
    RecoveryToKeeps(w, e.run, After(r, step));
    QuietKept(w, RecoveryTo(w, e.run, After(r, step)));
    LoginStepIs(w, e);
  }

  /** The call on the recovery a login step makes. */
  function LoginCall(e: RuntimeEvent, aborted: bool): RecoverySteps.Event
    requires e.LoginPrepares? || e.LoginReads? || e.LoginCleansUp? || e.LoginSignalAborts?
  {
    match e
    case LoginPrepares(_) => PrepareEvent(aborted)
    case LoginReads(_, signalAborted) => ReadEvent(signalAborted || aborted)
    case LoginCleansUp(_) => RequestCancelEvent
    case LoginSignalAborts(_) => AbortEvent
  }

  lemma LoginStepIs(w: Runtime, e: RuntimeEvent)
    requires Enabled(w, e)
    requires e.LoginPrepares? || e.LoginReads? || e.LoginCleansUp? || e.LoginSignalAborts?
    ensures LoginStep(w, e) == RecoveryTo(w, e.run, After(w.runs[e.run].recovery.value, LoginCall(e, w.runs[e.run].aborted)))
  {
    hide RecoveryTo;
  }

  lemma NextKeeps(w: Runtime, e: RuntimeEvent)
    requires Inv(w)
    ensures Inv(Next(w, e))
  {
    if !Enabled(w, e) { return; }
    hide Inv, StartRun, ResumeRun, CollectReturns, CollectThrows, EndRun, CatchRun, StartMaintenance, RenewalEnds, EndMaintenance,
      Stop, Close, EndClose, StartRecovery, SubmitRecovery, CancelRecovery, TimerExpires, LoginStep, Restart;
    match e
    case Tick(elapsed) => TickKeeps(w, elapsed);
    case RunNow => StartRunKeeps(w);
    case RunResumes(i) => ResumeRunKeeps(w, i);
    case CollectorUsesStore(i) => TouchKeeps(w, i);
    case CollectorReturns(i, status) => CollectKeeps(w, i, status, false);
    case CollectorThrows(i, recordFails) => CollectKeeps(w, i, CollectionError, recordFails);
    case RunEnds(i) => EndRunKeeps(w, i);
    case RunCatches(i) => CatchRunKeeps(w, i);
    case Maintain(scheduled, authRequired) => MaintenanceKeeps(w, scheduled, authRequired);
    case RenewalReturns(m, busy) => RenewalKeeps(w, m, busy);
    case MaintenanceEnds(m) => EndMaintenanceKeeps(w, m);
    case Stopped => StopKeeps(w);
    case Closed => CloseKeeps(w);
    case CloseSettles => EndCloseKeeps(w);
    case RecoveryStarts(id, allowed) => StartRecoveryKeeps(w, id, allowed);
    case CodeSubmitted(id, code) => SubmitKeeps(w, id, code);
    case RecoveryCanceledByUser(id) => CancelKeeps(w, id);
    case TimerFires(i) => TimerKeeps(w, i);
    case Restarted => RestartKeeps(w);
    case _ => LoginKeeps(w, e);
  }

  lemma TickKeeps(w: Runtime, elapsed: nat)
    requires Inv(w)
    ensures Inv(w.(now := w.now + elapsed))
  {
    var v := w.(now := w.now + elapsed);
    assert TaskInv(v) && RecoveryInv(v) && StoreInv(v);
    forall k | 0 <= k < |v.starts| ensures Remembered(v, v.starts[k].0, v.starts[k].1) {
      assert Remembered(w, w.starts[k].0, w.starts[k].1);
    }
  }

  lemma TouchKeeps(w: Runtime, i: nat)
    requires Inv(w) && Enabled(w, CollectorUsesStore(i))
    ensures Inv(Touch(w))
  {
    assert InFlight(w.runs[i]) && !w.storeClosed;
  }

  lemma RestartKeeps(w: Runtime)
    requires Inv(w)
    ensures Inv(Restart(w))
  {
    var v := Restart(w);
    assert TaskInv(v) && RecoveryInv(v) && StoreInv(v);
    forall k | 0 <= k < |v.starts| ensures Remembered(v, v.starts[k].0, v.starts[k].1) {
      assert Remembered(w, w.starts[k].0, w.starts[k].1);
    }
  }
}
