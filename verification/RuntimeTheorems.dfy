/** Safety of the runtime over every run, from its first start through any number of crashes. */
module RuntimeTheorems {
  import opened Common
  import opened RecoverySteps
  import opened RuntimeSteps
  import opened RuntimeRuns

  ghost function Execute(w: Runtime, events: seq<RuntimeEvent>): (v: Runtime)
    requires Inv(w)
    ensures Inv(v)
    decreases |events|
  {
    if events == [] then w
    else
      NextKeeps(w, events[0]);
      Execute(Next(w, events[0]), events[1..])
  }

  lemma InitialHolds(w: Runtime)
    requires Initial(w) && w.tombstones == map[]
    ensures Inv(w)
  {
  }

  // ---------------------------------------------------------------- one browser at a time

  /** At most one collector call or renewal is in flight. */
  ghost predicate OneInFlight(w: Runtime) {
    && (forall i, j :: 0 <= i < j < |w.runs| ==> !(w.runs[i].phase.Collecting? && w.runs[j].phase.Collecting?))
    && (forall m, n :: 0 <= m < n < |w.maintenances| ==> !(w.maintenances[m].phase.Renewing? && w.maintenances[n].phase.Renewing?))
    && (forall i, m :: 0 <= i < |w.runs| && 0 <= m < |w.maintenances| && w.runs[i].phase.Collecting? ==> !w.maintenances[m].phase.Renewing?)
  }

  lemma OneAtATime(w: Runtime, events: seq<RuntimeEvent>)
    requires Initial(w) && w.tombstones == map[]
    ensures (InitialHolds(w); OneInFlight(Execute(w, events)))
  {
    InitialHolds(w);
    var v := Execute(w, events);
    assert TaskInv(v);
  }

  predicate NoRestart(events: seq<RuntimeEvent>) {
    Restarted !in events
  }

  /** Steps other than a restart keep every task's identity; finished runs stay finished. */
  ghost predicate TasksGrow(w: Runtime, v: Runtime) {
    && |w.runs| <= |v.runs| && |w.maintenances| <= |v.maintenances|
    && (forall i :: 0 <= i < |w.runs| ==> RunGrows(w.runs[i], v.runs[i]))
    && (w.running.Some? ==> |v.maintenances| == |w.maintenances|)
    && w.starts <= v.starts && w.now <= v.now
  }

  /** Nothing ends an abort or a finished run, and an aborted run never begins to collect. */
  predicate RunGrows(r: Run, s: Run) {
    && (!InFlight(r) ==> !InFlight(s)) && (r.aborted ==> s.aborted)
    && (r.aborted && !r.phase.Collecting? ==> !s.phase.Collecting?)
  }

  lemma SameTasksGrow(w: Runtime, v: Runtime)
    requires Inv(w) && SameTasks(w, v)
    ensures TasksGrow(w, v)
  {
  }

  lemma StopSameTasks(w: Runtime)
    requires WellIndexed(w)
    ensures SameTasks(w, Stop(w))
  {
    hide RecoveryTo, AbortRun, AbortCurrent, CancelManual, AbortMaintenance;
    var w2 := AbortMaintenance(w.(generation := w.generation + 1));
    SameTasksChain(w, w2, AbortCurrent(w2));
    SameTasksChain(w, AbortCurrent(w2), CancelManual(AbortCurrent(w2)));
  }

  lemma SameTasksChain(a: Runtime, b: Runtime, c: Runtime)
    requires SameTasks(a, b) && SameTasks(b, c)
    ensures SameTasks(a, c)
  {
  }

  lemma CloseGrows(w: Runtime)
    requires Inv(w)
    ensures TasksGrow(w, Close(w))
  {
    StopSameTasks(w.(closed := true));
    hide Stop, RunSettled;
  }

  /** Answering a control request or a timer starts and ends no task. */
  lemma AnswerSameTasks(w: Runtime, e: RuntimeEvent)
    requires Inv(w) && (e.CodeSubmitted? || e.RecoveryCanceledByUser? || e.TimerFires?)
    ensures SameTasks(w, Next(w, e))
  {
    if e.CodeSubmitted? && !RecoveryUnavailable(w) && IsManual(w, e.id) {
      var s := Submit(w.runs[w.manual.value].recovery.value, e.code, w.now).0;
      SameTasksChain(w, RecoveryTo(w, w.manual.value, s), AbortCurrent(RecoveryTo(w, w.manual.value, s)));
    }
    if e.TimerFires? && Enabled(w, e) {
      var s := TimerFired(w.runs[e.run].recovery.value);
      SameTasksChain(w, RecoveryTo(w, e.run, s), AbortCurrent(RecoveryTo(w, e.run, s)));
    }
    hide SameTask, RecoveryTo, AbortRun, AbortCurrent, CancelManual, TaskInv, RecoveryInv, StoreInv, DurableInv, Submit, Cancel, TimerFired;
  }

  lemma LoginSameTasks(w: Runtime, e: RuntimeEvent)
    requires Inv(w) && (e.LoginPrepares? || e.LoginReads? || e.LoginCleansUp? || e.LoginSignalAborts?)
    ensures SameTasks(w, Next(w, e))
  {
    hide RecoveryTo, AbortRun, AbortCurrent, CancelManual, RecoveryInv, StoreInv, DurableInv;
  }

  /** The steps of one run. */
  lemma RunGrowing(w: Runtime, e: RuntimeEvent)
    requires Inv(w) && Enabled(w, e)
    requires e.RunResumes? || e.CollectorReturns? || e.CollectorThrows? || e.RunEnds? || e.RunCatches?
    ensures TasksGrow(w, Next(w, e))
  {
    hide RecoveryTo, RecoveryInv, StoreInv, DurableInv;
    assert TaskInv(w);
  }

  lemma StartGrows(w: Runtime, e: RuntimeEvent)
    requires Inv(w) && Enabled(w, e)
    requires e.RunNow? || e.Maintain? || e.RecoveryStarts? || e.RenewalReturns? || e.MaintenanceEnds?
    ensures TasksGrow(w, Next(w, e))
  {
    hide RecoveryInv, StoreInv, DurableInv;
  }

  lemma NextGrows(w: Runtime, e: RuntimeEvent)
    requires Inv(w) && !e.Restarted?
    ensures TasksGrow(w, Next(w, e))
  {
    if e.CodeSubmitted? || e.RecoveryCanceledByUser? || e.TimerFires? {
      AnswerSameTasks(w, e);
      SameTasksGrow(w, Next(w, e));
    } else if e.LoginPrepares? || e.LoginReads? || e.LoginCleansUp? || e.LoginSignalAborts? {
      LoginSameTasks(w, e);
      SameTasksGrow(w, Next(w, e));
    } else if e.Stopped? {
      StopSameTasks(w);
      SameTasksGrow(w, Stop(w));
    } else if e.Closed? {
      CloseGrows(w);
    } else if Enabled(w, e) {
      if e.RunNow? || e.Maintain? || e.RecoveryStarts? || e.RenewalReturns? || e.MaintenanceEnds? {
        StartGrows(w, e);
      } else if e.RunResumes? || e.CollectorReturns? || e.CollectorThrows? || e.RunEnds? || e.RunCatches? {
        RunGrowing(w, e);
      } else {
        assert Next(w, e).runs == w.runs;
      }
    }
  }

  lemma {:induction false} FinishedStays(w: Runtime, events: seq<RuntimeEvent>, i: nat)
    requires Inv(w) && NoRestart(events) && i < |w.runs| && !InFlight(w.runs[i])
    ensures i < |Execute(w, events).runs| && !InFlight(Execute(w, events).runs[i])
    decreases |events|
  {
    if events != [] {
      assert events[0] in events;
      NextKeeps(w, events[0]);
      NextGrows(w, events[0]);
      assert RunGrows(w.runs[i], Next(w, events[0]).runs[i]);
      FinishedStays(Next(w, events[0]), events[1..], i);
    }
  }

  /** While a reserved collection has not finished, no renewal begins, so none can overtake it. */
  lemma {:induction false} ReservationBlocksRenewals(w: Runtime, events: seq<RuntimeEvent>, i: nat)
    requires Inv(w) && NoRestart(events) && w.running == Some(i)
    ensures var v := Execute(w, events);
      i < |v.runs| && (InFlight(v.runs[i]) ==> v.running == Some(i) && |v.maintenances| == |w.maintenances|)
    decreases |events|
  {
    if events != [] {
      assert events[0] in events;
      NextKeeps(w, events[0]);
      NextGrows(w, events[0]);
      var n := Next(w, events[0]);
      if InFlight(n.runs[i]) {
        ReservationBlocksRenewals(n, events[1..], i);
      } else {
        FinishedStays(n, events[1..], i);
      }
    }
  }

  lemma {:induction false} AbortedNeverCollects(w: Runtime, events: seq<RuntimeEvent>, i: nat)
    requires Inv(w) && NoRestart(events) && i < |w.runs| && w.runs[i].aborted && !w.runs[i].phase.Collecting?
    ensures var v := Execute(w, events); i < |v.runs| && !v.runs[i].phase.Collecting?
    decreases |events|
  {
    if events != [] {
      assert events[0] in events;
      NextKeeps(w, events[0]);
      NextGrows(w, events[0]);
      assert RunGrows(w.runs[i], Next(w, events[0]).runs[i]);
      AbortedNeverCollects(Next(w, events[0]), events[1..], i);
    }
  }

  /** A collection still waiting for a renewal when the runtime stops is never made. */
  lemma StopDropsReservation(w: Runtime, events: seq<RuntimeEvent>, i: nat)
    requires Inv(w) && NoRestart(events) && w.running == Some(i) && w.runs[i].phase.Waiting?
    ensures var v := Execute(w, [Stopped] + events); i < |v.runs| && !v.runs[i].phase.Collecting?
  {
    NextKeeps(w, Stopped);
    StopKeeps(w);
    var s := Next(w, Stopped);
    assert ([Stopped] + events)[1..] == events;
    NextGrows(w, Stopped);
    StopPhases(w, i);
    AbortedNeverCollects(s, events, i);
  }

  lemma StopPhases(w: Runtime, i: nat)
    requires Inv(w) && w.running == Some(i)
    ensures Stop(w).runs[i].phase == w.runs[i].phase && Stop(w).running == w.running
  {
    hide RecoveryTo, AbortRun, AbortCurrent, CancelManual;
  }

  // ---------------------------------------------------------------- the store

  /** Nothing a collection, renewal or recovery does reaches the store after `close` closed it. */
  lemma NothingAfterClose(w: Runtime, events: seq<RuntimeEvent>)
    requires Initial(w) && w.tombstones == map[]
    ensures (InitialHolds(w); Execute(w, events).lateTouches == 0)
    ensures (InitialHolds(w); var v := Execute(w, events);
             v.storeClosed ==> v.running.None? && v.maintaining.None? && !v.lease)
  {
    InitialHolds(w);
    assert StoreInv(Execute(w, events));
  }

  // ---------------------------------------------------------------- one recovery at a time

  predicate OpenRecovery(w: Runtime, i: nat)
    requires i < |w.runs|
  {
    w.runs[i].recovery.Some? && !Terminal(w.runs[i].recovery.value)
  }

  /** The lease is held exactly while a recovery is open; it is the only one, and no foreign collection runs beside it. */
  lemma LeaseExactly(w: Runtime, events: seq<RuntimeEvent>)
    requires Initial(w) && w.tombstones == map[]
    ensures (InitialHolds(w); var v := Execute(w, events);
             && (v.lease <==> exists i :: 0 <= i < |v.runs| && OpenRecovery(v, i))
             && (forall i, j :: 0 <= i < |v.runs| && 0 <= j < |v.runs| && OpenRecovery(v, i) && OpenRecovery(v, j) ==> i == j)
             && (forall i, j :: 0 <= i < |v.runs| && 0 <= j < |v.runs| && OpenRecovery(v, i) && InFlight(v.runs[j]) ==> i == j))
  {
    InitialHolds(w);
    var v := Execute(w, events);
    assert TaskInv(v) && RecoveryInv(v);
    if v.lease {
      assert OpenRecovery(v, v.manual.value);
    }
  }

  /** A request id starts a second collection, in this process or a later one, only after its retention is over. */
  lemma RequestsSpaced(w: Runtime, events: seq<RuntimeEvent>)
    requires Initial(w) && w.tombstones == map[]
    ensures (InitialHolds(w); Spaced(Execute(w, events).starts))
  {
    InitialHolds(w);
    assert DurableInv(Execute(w, events));
  }

  /** The stored status of the latest recovery is its outcome, or "interrupted" while it has none. */
  lemma OutcomeDurable(w: Runtime, events: seq<RuntimeEvent>)
    requires Initial(w) && w.tombstones == map[]
    ensures (InitialHolds(w); var v := Execute(w, events);
             v.manual.Some? ==> ManualSaved(v, v.runs[v.manual.value].recovery.value))
  {
    InitialHolds(w);
    assert DurableInv(Execute(w, events));
  }

  /** When its collection ends, an open recovery is complete exactly when data was collected, and the store says the same. */
  lemma CollectionEndsRecovery(w: Runtime, i: nat)
    requires Inv(w) && i < |w.runs| && w.runs[i].phase.Settled? && w.runs[i].phase.outcome.Fulfilled? && OpenRecovery(w, i)
    ensures var status := w.runs[i].phase.outcome.status;
      var v := Next(w, RunEnds(i));
      && v.runs[i].phase.Finished? && v.running.None? && !v.lease && v.runs[i].recovery.Some?
      && var now := v.runs[i].recovery.value.current;
      && Terminal(v.runs[i].recovery.value)
      && (now.state.Complete? <==> status == Some(Collected) || status == Some(Partial))
      && (now.errorCode == Some(OtpRequired) <==> status == Some(AuthRequired))
      && (now.state.Complete? || now.state.Failed?)
      && now.challengeId in v.tombstones && v.tombstones[now.challengeId].status == now
  {
    var r := w.runs[i].recovery.value;
    FinishProgresses(r, w.runs[i].phase.outcome.status);
    assert w.manual == Some(i) && ManualSaved(w, r);
  }

  // ---------------------------------------------------------------- a lost process

  /** How a step may treat the tombstone of a request that is not the latest: keep it, or drop it once its retention is over. */
  ghost predicate Frame(w: Runtime, v: Runtime, id: string) {
    && WellIndexed(v)
    && (id in w.tombstones ==>
          if id in v.tombstones then v.tombstones[id] == w.tombstones[id] else w.now > w.tombstones[id].createdAt + REQUEST_RETENTION)
    && (IsManual(v, id) ==> v.starts == w.starts + [(id, w.now)])
  }

  ghost predicate Untouched(w: Runtime, v: Runtime, id: string) {
    && WellIndexed(v) && !IsManual(v, id)
    && (id in w.tombstones <==> id in v.tombstones) && (id in w.tombstones ==> v.tombstones[id] == w.tombstones[id])
  }

  lemma RecoveryFrame(w: Runtime, i: nat, s: Recovery, id: string)
    requires Core(w) && i < |w.runs| && w.runs[i].recovery.Some? && !IsManual(w, id)
    requires Valid(s) && Progresses(w.runs[i].recovery.value, s)
    ensures Core(RecoveryTo(w, i, s)) && Untouched(w, RecoveryTo(w, i, s), id)
  {
    RecoveryToKeeps(w, i, s);
  }

  lemma AbortFrame(w: Runtime, id: string)
    requires Core(w) && !IsManual(w, id)
    ensures Core(AbortCurrent(w)) && Untouched(w, AbortCurrent(w), id)
  {
    AbortCurrentKeeps(w);
    if w.running.Some? && w.runs[w.running.value].recovery.Some? {
      StepProgresses(w.runs[w.running.value].recovery.value, AbortEvent);
    }
  }

  /** A recovery moves on and the current collection is aborted with it. */
  lemma AnswerFrame(w: Runtime, i: nat, s: Recovery, id: string)
    requires Core(w) && i < |w.runs| && w.runs[i].recovery.Some? && !IsManual(w, id)
    requires Valid(s) && Progresses(w.runs[i].recovery.value, s)
    ensures Untouched(w, RecoveryTo(w, i, s), id) && Untouched(w, AbortCurrent(RecoveryTo(w, i, s)), id)
  {
    RecoveryFrame(w, i, s, id);
    AbortFrame(RecoveryTo(w, i, s), id);
    hide RecoveryTo, AbortRun, AbortCurrent, Core;
  }

  lemma CancelFrame(w: Runtime, id: string)
    requires Core(w) && !IsManual(w, id)
    ensures Untouched(w, CancelManual(w), id)
  {
    if w.manual.Some? {
      var r := w.runs[w.manual.value].recovery.value;
      StepProgresses(r, CancelEvent);
      AnswerFrame(w, w.manual.value, Cancel(r).0, id);
    }
  }

  lemma UntouchedChain(a: Runtime, b: Runtime, c: Runtime, id: string)
    requires Untouched(a, b, id) && Untouched(b, c, id)
    ensures Untouched(a, c, id)
  {
  }

  lemma QuietStepFrame(w: Runtime, id: string)
    requires Core(w) && !IsManual(w, id)
    ensures var v := AbortMaintenance(w.(generation := w.generation + 1)); Core(v) && Untouched(w, v, id)
  {
    NewGenerationKeeps(w);
    AbortMaintenanceKeeps(w.(generation := w.generation + 1));
  }

  lemma StopFrame(w: Runtime, id: string)
    requires Core(w) && !IsManual(w, id)
    ensures Untouched(w, Stop(w), id)
  {
    hide Core, TaskInv, RecoveryInv, StoreInv, DurableInv, AbortMaintenance, AbortRun, AbortCurrent, CancelManual, RecoveryTo, SameTasks,
      WellIndexed, Untouched, IsManual;
    CoreIndexed(w);
    QuietStepFrame(w, id);
    var w1 := w.(generation := w.generation + 1);
    SameIndex(w, w1);
    var w2 := AbortMaintenance(w1);
    UntouchedStays(w, w2, id);
    AbortFrame(w2, id);
    var w3 := AbortCurrent(w2);
    UntouchedStays(w2, w3, id);
    CancelFrame(w3, id);
    UntouchedChain(w, w2, w3, id);
    UntouchedChain(w, w3, CancelManual(w3), id);
  }

  lemma SameIndex(w: Runtime, v: Runtime)
    requires WellIndexed(w) && v == w.(generation := v.generation)
    ensures WellIndexed(v)
  {
  }

  lemma UntouchedStays(w: Runtime, v: Runtime, id: string)
    requires Untouched(w, v, id)
    ensures WellIndexed(v) && !IsManual(v, id)
  {
  }

  lemma CloseFrame(w: Runtime, id: string)
    requires Inv(w) && !IsManual(w, id)
    ensures Untouched(w, Close(w), id)
  {
    if !w.closed {
      ClosingKeeps(w);
      hide Core, Stop;
      StopFrame(w.(closed := true), id);
    }
  }

  lemma EndFrame(w: Runtime, i: nat, id: string)
    requires Inv(w) && i < |w.runs| && w.runs[i].phase.Settled? && !IsManual(w, id)
    ensures Untouched(w, EndRun(w, i), id)
  {
    var run := w.runs[i];
    if run.recovery.Some? && run.phase.outcome.Fulfilled? {
      var s := FinishedRecovery(run.recovery.value, run.phase.outcome.status);
      FinishProgresses(run.recovery.value, run.phase.outcome.status);
      RecoveryFrame(w, i, s, id);
      hide RecoveryTo, Core;
      EndedFrame(w, RecoveryTo(w, i, s), i, Finished, None, id);
    } else {
      EndedFrame(w, w, i, if run.recovery.Some? then Failing else Finished, None, id);
    }
  }

  lemma CatchFrame(w: Runtime, i: nat, id: string)
    requires Inv(w) && Enabled(w, RunCatches(i)) && !IsManual(w, id)
    ensures Untouched(w, CatchRun(w, i), id)
  {
    var s := Finish(w.runs[i].recovery.value, false, CollectionFailed);
    StepProgresses(w.runs[i].recovery.value, FinishEvent(false, CollectionFailed));
    RecoveryFrame(w, i, s, id);
    EndedFrame(w, RecoveryTo(w, i, s), i, Finished, w.running, id);
    hide RecoveryTo, Core;
  }

  lemma EndedFrame(w: Runtime, v: Runtime, i: nat, phase: RunPhase, running: Option<nat>, id: string)
    requires Untouched(w, v, id) && i < |v.runs| && (running.Some? ==> running.value < |v.runs|)
    ensures Untouched(w, v.(runs := v.runs[i := v.runs[i].(phase := phase)], running := running), id)
  {
  }

  lemma SubmitFrame(w: Runtime, other: string, code: string, id: string)
    requires Inv(w) && !IsManual(w, id)
    ensures Untouched(w, SubmitRecovery(w, other, code).0, id)
  {
    if !RecoveryUnavailable(w) && IsManual(w, other) {
      var r := w.runs[w.manual.value].recovery.value;
      StepProgresses(r, SubmitEvent(code, w.now));
      AnswerFrame(w, w.manual.value, Submit(r, code, w.now).0, id);
    }
    hide RecoveryTo, AbortRun, AbortCurrent, Submit;
  }

  lemma LoginFrame(w: Runtime, e: RuntimeEvent, id: string)
    requires Inv(w) && Enabled(w, e) && !IsManual(w, id)
    requires e.LoginPrepares? || e.LoginReads? || e.LoginCleansUp? || e.LoginSignalAborts?
    ensures Untouched(w, LoginStep(w, e), id)
  {
    var call := LoginCall(e, w.runs[e.run].aborted);
    StepProgresses(w.runs[e.run].recovery.value, call);
    LoginStepIs(w, e);
    AnswerFrame(w, e.run, After(w.runs[e.run].recovery.value, call), id);
  }

  /** Steps that move tasks only. */
  predicate TaskStep(e: RuntimeEvent) {
    e.Tick? || e.RunNow? || e.RunResumes? || e.CollectorUsesStore? || e.CollectorReturns? || e.CollectorThrows? || e.Maintain?
    || e.RenewalReturns? || e.MaintenanceEnds? || e.CloseSettles?
  }

  /** Such a step leaves the store's tombstones and every run's recovery alone. */
  ghost predicate RecoveriesAlone(w: Runtime, v: Runtime) {
    && v.tombstones == w.tombstones && v.manual == w.manual && |v.runs| >= |w.runs|
    && forall i :: 0 <= i < |w.runs| ==> v.runs[i].recovery == w.runs[i].recovery
  }

  lemma CollectIsAlone(w: Runtime, i: nat, status: CollectionStatus, recordFails: bool)
    requires i < |w.runs|
    ensures RecoveriesAlone(w, CollectReturns(w, i, status)) && RecoveriesAlone(w, CollectThrows(w, i, recordFails))
    ensures RecoveriesAlone(w, ResumeRun(w, i))
  {
  }

  lemma TaskStepIs(w: Runtime, e: RuntimeEvent)
    requires WellIndexed(w) && Enabled(w, e) && TaskStep(e)
    ensures RecoveriesAlone(w, Next(w, e))
  {
    match e
    case RunResumes(i) => CollectIsAlone(w, i, Skipped, false);
    case CollectorReturns(i, status) => CollectIsAlone(w, i, status, false);
    case CollectorThrows(i, recordFails) => CollectIsAlone(w, i, Skipped, recordFails);
    case _ =>
      hide CollectReturns, CollectThrows, ResumeRun, Stop, Close, EndRun, CatchRun, StartRecovery, SubmitRecovery, CancelRecovery,
        TimerExpires, LoginStep, Restart;
  }

  lemma TaskFrame(w: Runtime, e: RuntimeEvent, id: string)
    requires Inv(w) && Enabled(w, e) && !IsManual(w, id) && TaskStep(e)
    ensures Untouched(w, Next(w, e), id)
  {
    TaskStepIs(w, e);
    NextKeeps(w, e);
    CoreIndexed(Next(w, e));
    hide Inv, Next, Enabled;
  }

  lemma NextFrame(w: Runtime, e: RuntimeEvent, id: string)
    requires Inv(w) && !IsManual(w, id)
    ensures Frame(w, Next(w, e), id)
  {
    if Enabled(w, e) {
      hide Inv, Stop, Close, EndRun, CatchRun, SubmitRecovery, CancelManual, TimerExpires, LoginStep;
      match e
      case Stopped => StopFrame(w, id);
      case Closed => CloseFrame(w, id);
      case RunEnds(i) => EndFrame(w, i, id);
      case RunCatches(i) => CatchFrame(w, i, id);
      case CodeSubmitted(other, code) => SubmitFrame(w, other, code, id);
      case RecoveryCanceledByUser(other) => CancelFrame(w, id);
      case TimerFires(i) => TimerFrame(w, i, id);
      case LoginPrepares(_) => LoginFrame(w, e, id);
      case LoginReads(_, _) => LoginFrame(w, e, id);
      case LoginCleansUp(_) => LoginFrame(w, e, id);
      case LoginSignalAborts(_) => LoginFrame(w, e, id);
      case RecoveryStarts(other, allowed) => StartFrame(w, other, allowed, id);
      case Restarted =>
      case _ => TaskFrame(w, e, id);
    }
  }

  lemma TimerFrame(w: Runtime, i: nat, id: string)
    requires Inv(w) && !IsManual(w, id) && Enabled(w, TimerFires(i))
    ensures Untouched(w, TimerExpires(w, i), id)
  {
    StepProgresses(w.runs[i].recovery.value, TimerEvent);
    AnswerFrame(w, i, TimerFired(w.runs[i].recovery.value), id);
    hide RecoveryTo, AbortRun, AbortCurrent;
  }

  lemma StartFrame(w: Runtime, other: string, allowed: bool, id: string)
    requires Inv(w) && !IsManual(w, id)
    ensures Frame(w, StartRecovery(w, other, allowed).0, id)
  {
  }

  lemma NextStarts(w: Runtime, e: RuntimeEvent)
    requires Inv(w)
    ensures w.starts <= Next(w, e).starts
  {
    if !e.Restarted? {
      NextGrows(w, e);
    }
  }

  lemma {:induction false} StartsGrow(w: Runtime, events: seq<RuntimeEvent>)
    requires Inv(w)
    ensures w.starts <= Execute(w, events).starts
    decreases |events|
  {
    if events != [] {
      NextKeeps(w, events[0]);
      NextStarts(w, events[0]);
      StartsGrow(Next(w, events[0]), events[1..]);
    }
  }

  ghost predicate StartedAgain(before: Runtime, after: Runtime, id: string) {
    exists k :: |before.starts| <= k < |after.starts| && after.starts[k].0 == id
  }

  /** The stored status `saved` of a request no recovery answers for stays until its retention is over or it is started anew. */
  lemma {:induction false} TombstoneStays(w: Runtime, events: seq<RuntimeEvent>, id: string)
    requires Inv(w) && !IsManual(w, id) && id in w.tombstones
    ensures var v := Execute(w, events);
      StartedAgain(w, v, id) || v.now > w.tombstones[id].createdAt + REQUEST_RETENTION
      || (id in v.tombstones && v.tombstones[id] == w.tombstones[id])
    decreases |events|
  {
    if events != [] {
      var e := events[0];
      var n := Next(w, e);
      NextKeeps(w, e);
      NextFrame(w, e, id);
      NextStarts(w, e);
      StartsGrow(n, events[1..]);
      ClockGrows(w, e);
      TimeGrows(n, events[1..]);
      hide Inv, Next, TerminalPhase, Spaced;
      if IsManual(n, id) {
        assert Execute(w, events).starts[|w.starts|].0 == id;
      } else if id in n.tombstones {
        TombstoneStays(n, events[1..], id);
      }
    }
  }

  lemma ClockGrows(w: Runtime, e: RuntimeEvent)
    requires Inv(w)
    ensures w.now <= Next(w, e).now
  {
    if !e.Restarted? {
      NextGrows(w, e);
    }
  }

  lemma {:induction false} TimeGrows(w: Runtime, events: seq<RuntimeEvent>)
    requires Inv(w)
    ensures w.now <= Execute(w, events).now
    decreases |events|
  {
    if events != [] {
      NextKeeps(w, events[0]);
      ClockGrows(w, events[0]);
      TimeGrows(Next(w, events[0]), events[1..]);
    }
  }

  /** A process lost during a recovery leaves it interrupted for good, for the whole retention, unless the id is started anew. */
  lemma CrashLeavesInterrupted(w: Runtime, events: seq<RuntimeEvent>)
    requires Inv(w) && w.lease
    ensures var id := w.runs[w.manual.value].recovery.value.current.challengeId;
      var v := Execute(w, [Restarted] + events);
      && id in w.tombstones
      && (StartedAgain(w, v, id) || v.now > w.tombstones[id].createdAt + REQUEST_RETENTION
          || (id in v.tombstones && v.tombstones[id].status == Interrupted(id)))
  {
    var id := w.runs[w.manual.value].recovery.value.current.challengeId;
    assert ManualSaved(w, w.runs[w.manual.value].recovery.value);
    NextKeeps(w, Restarted);
    assert ([Restarted] + events)[1..] == events;
    TombstoneStays(Next(w, Restarted), events, id);
  }

  // ---------------------------------------------------------------- whose collection a recovery aborts

  predicate RecoveryAction(e: RuntimeEvent) {
    e.TimerFires? || e.CodeSubmitted? || e.RecoveryCanceledByUser?
  }

  /** Canceling a recovery that was already canceled. */
  predicate CancelsAgain(w: Runtime, e: RuntimeEvent)
    requires WellIndexed(w)
  {
    && e.RecoveryCanceledByUser? && !RecoveryUnavailable(w) && IsManual(w, e.id)
    && w.runs[w.manual.value].recovery.value.current.state.Canceled?
  }

  /** Whether run `j` of another recovery, or of none, stays as it is. */
  predicate AbortedBy(w: Runtime, v: Runtime, j: nat)
    requires j < |w.runs|
  {
    !w.runs[j].aborted && j < |v.runs| && v.runs[j].aborted
  }

  lemma AnswerAborts(w: Runtime, i: nat, s: Recovery, j: nat)
    requires Core(w) && i < |w.runs| && w.runs[i].recovery.Some? && j < |w.runs| && i != j
    ensures !AbortedBy(w, RecoveryTo(w, i, s), j)
    ensures AbortedBy(w, AbortCurrent(RecoveryTo(w, i, s)), j) <==> w.running == Some(j) && !w.runs[j].aborted
  {
  }

  /** While its recovery is open, the run in flight is the recovery's own. */
  lemma OpenMeansOwn(w: Runtime, j: nat)
    requires Inv(w) && w.manual.Some? && OpenRecovery(w, w.manual.value) && j != w.manual.value
    ensures w.running != Some(j)
  {
  }

  lemma CancelAborts(w: Runtime, e: RuntimeEvent, j: nat)
    requires Inv(w) && e.RecoveryCanceledByUser? && j < |w.runs| && w.manual != Some(j)
    ensures AbortedBy(w, Next(w, e), j) <==> CancelsAgain(w, e) && w.running == Some(j) && !w.runs[j].aborted
  {
    if !RecoveryUnavailable(w) && IsManual(w, e.id) {
      var i := w.manual.value;
      var r := w.runs[i].recovery.value;
      AnswerAborts(w, i, Cancel(r).0, j);
      CancelExactly(r);
      if !Terminal(r) { OpenMeansOwn(w, j); }
      hide Inv, RecoveryTo, AbortCurrent, AbortRun;
    }
  }

  lemma SubmitAborts(w: Runtime, e: RuntimeEvent, j: nat)
    requires Inv(w) && e.CodeSubmitted? && j < |w.runs| && w.manual != Some(j)
    ensures !AbortedBy(w, Next(w, e), j)
  {
    if !RecoveryUnavailable(w) && IsManual(w, e.id) {
      var i := w.manual.value;
      var r := w.runs[i].recovery.value;
      AnswerAborts(w, i, Submit(r, e.code, w.now).0, j);
      SubmitExactly(r, e.code, w.now);
      if !Terminal(r) { OpenMeansOwn(w, j); }
      hide Inv, RecoveryTo, AbortCurrent, AbortRun, Submit;
    }
  }

  lemma TimerAborts(w: Runtime, e: RuntimeEvent, j: nat)
    requires Inv(w) && e.TimerFires? && j < |w.runs| && w.manual != Some(j)
    ensures !AbortedBy(w, Next(w, e), j)
  {
    if Enabled(w, e) {
      AnswerAborts(w, e.run, TimerFired(w.runs[e.run].recovery.value), j);
      OpenMeansOwn(w, j);
      hide Inv, RecoveryTo, AbortCurrent, AbortRun;
    }
  }

  /** A recovery's timer or control request aborts a collection other than its own exactly when it cancels a second time. */
  lemma AbortsForeignExactly(w: Runtime, e: RuntimeEvent, j: nat)
    requires Inv(w) && RecoveryAction(e) && j < |w.runs| && w.manual != Some(j)
    ensures AbortedBy(w, Next(w, e), j) <==> CancelsAgain(w, e) && w.running == Some(j) && !w.runs[j].aborted
  {
    match e
    case TimerFires(_) => TimerAborts(w, e, j);
    case CodeSubmitted(_, _) => SubmitAborts(w, e, j);
    case RecoveryCanceledByUser(_) => CancelAborts(w, e, j);
  }

  /** A recovery is started, canceled, its collection ends, and a scheduled collection begins. */
  ghost function ScheduledAfterCancel(w: Runtime): (v: Runtime)
    requires Inv(w)
    ensures Inv(v)
  {
    NextKeeps(w, RecoveryStarts("a", true));
    var started := Next(w, RecoveryStarts("a", true));
    NextKeeps(started, RecoveryCanceledByUser("a"));
    var canceled := Next(started, RecoveryCanceledByUser("a"));
    Execute(canceled, [CollectorReturns(0, CollectionError), RunEnds(0), RunNow])
  }

  /** The state of the example: a canceled recovery whose collection is in phase `phase`. */
  predicate Example(w: Runtime, phase: RunPhase, running: Option<nat>, generation: nat) {
    && w.config == Config(true, false, true) && !w.closed && !w.lease && w.generation == generation
    && w.running == running && w.manual == Some(0) && w.maintaining.None?
    && |w.runs| == 1 && w.runs[0].phase == phase && w.runs[0].recovery.Some?
    && w.runs[0].recovery.value.current == Status("a", Canceled, None, Some(RecoveryCanceled))
  }

  lemma ExampleStart(w: Runtime)
    requires Initial(w) && w.tombstones == map[] && w.config == Config(true, false, true)
    ensures WellIndexed(w) && WellIndexed(Next(w, RecoveryStarts("a", true)))
    ensures var v := Next(Next(w, RecoveryStarts("a", true)), RecoveryCanceledByUser("a"));
      Example(v, Collecting, Some(0), v.generation)
  {
  }

  lemma ExampleReturns(w: Runtime)
    requires Example(w, Collecting, Some(0), w.generation) && WellIndexed(w)
    ensures Example(Next(w, CollectorReturns(0, CollectionError)), Settled(Fulfilled(Some(CollectionError))), Some(0), w.generation)
  {
  }

  lemma ExampleFrees(w: Runtime)
    requires Example(w, Settled(Fulfilled(Some(CollectionError))), Some(0), w.generation) && WellIndexed(w)
    ensures Example(Next(w, RunEnds(0)), Finished, None, w.generation)
  {
    var r := w.runs[0].recovery.value;
    assert FinishedRecovery(r, Some(CollectionError)) == r;
  }

  lemma ExampleRuns(w: Runtime)
    requires Example(w, Finished, None, w.generation) && WellIndexed(w)
    ensures var v := Next(w, RunNow);
      && v.config == w.config && !v.closed && v.running == Some(1) && v.manual == Some(0)
      && |v.runs| == 2 && v.runs[0].recovery == w.runs[0].recovery && v.runs[1] == Run(Collecting, w.generation, false, false, None)
  {
  }

  lemma ThreeSteps(w: Runtime, a: RuntimeEvent, b: RuntimeEvent, c: RuntimeEvent)
    requires Inv(w)
    ensures Inv(Next(w, a)) && Inv(Next(Next(w, a), b)) && Execute(w, [a, b, c]) == Next(Next(Next(w, a), b), c)
  {
    NextKeeps(w, a);
    NextKeeps(Next(w, a), b);
    NextKeeps(Next(Next(w, a), b), c);
    hide Inv, Next;
    assert [a, b, c][1..] == [b, c] && [b, c][1..] == [c] && [c][1..] == [];
    assert Execute(Next(Next(w, a), b), [c]) == Next(Next(Next(w, a), b), c);
    assert Execute(Next(w, a), [b, c]) == Execute(Next(Next(w, a), b), [c]);
  }

  lemma ExampleEnd(w: Runtime)
    requires Inv(w) && Example(w, Collecting, Some(0), w.generation)
    ensures var v := Execute(w, [CollectorReturns(0, CollectionError), RunEnds(0), RunNow]);
      && v.config == w.config && !v.closed && v.running == Some(1) && v.manual == Some(0)
      && |v.runs| == 2 && v.runs[0].recovery.Some? && v.runs[1] == Run(Collecting, w.generation, false, false, None)
      && v.runs[0].recovery.value.current == Status("a", Canceled, None, Some(RecoveryCanceled))
  {
    ThreeSteps(w, CollectorReturns(0, CollectionError), RunEnds(0), RunNow);
    hide Inv, Next, Execute;
    ExampleReturns(w);
    var w1 := Next(w, CollectorReturns(0, CollectionError));
    ExampleFrees(w1);
    ExampleRuns(Next(w1, RunEnds(0)));
  }

  /** Such a run exists: a repeated cancel aborts a scheduled collection. */
  lemma CancelAgainAbortsScheduledRun(w: Runtime)
    requires Initial(w) && w.tombstones == map[] && w.config == Config(true, false, true)
    ensures (InitialHolds(w);
             var v := ScheduledAfterCancel(w);
             v.running == Some(1) && v.runs[1].recovery.None? && AbortedBy(v, Next(v, RecoveryCanceledByUser("a")), 1))
  {
    InitialHolds(w);
    ExampleStart(w);
    NextKeeps(w, RecoveryStarts("a", true));
    NextKeeps(Next(w, RecoveryStarts("a", true)), RecoveryCanceledByUser("a"));
    ExampleEnd(Next(Next(w, RecoveryStarts("a", true)), RecoveryCanceledByUser("a")));
    hide Inv, Next, Execute;
    AbortsForeignExactly(ScheduledAfterCancel(w), RecoveryCanceledByUser("a"), 1);
  }
}
