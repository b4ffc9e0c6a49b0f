/** The runtime object: its closure variables, updated between awaits. */
module InvestmentRuntime {
  import opened Common
  import opened RecoverySteps
  import S = RuntimeSteps

  class InvestmentRuntime {
    const config: S.Config
    var now: int
    var runs: seq<S.Run>
    var maintenances: seq<S.Maintenance>
    var running: Option<nat>
    var maintaining: Option<nat>
    var closed: bool
    var generation: nat
    var closing: Option<S.Closing>
    var manual: Option<nat>
    var lease: bool
    var storeClosed: bool
    var tombstones: map<string, S.Tombstone>
    var lateTouches: nat
    var starts: seq<(string, int)>

    ghost function State(): S.Runtime
      reads this
    {
      S.Runtime(config, now, runs, maintenances, running, maintaining, closed, generation, closing, manual, lease,
                storeClosed, tombstones, lateTouches, starts)
    }

    /** A new process opens the store its predecessor left. */
    constructor (config: S.Config, now: int, tombstones: map<string, S.Tombstone>)
      ensures S.Initial(State()) && State().tombstones == tombstones && State().config == config && State().now == now
    {
      this.config, this.now, this.tombstones := config, now, tombstones;
      runs, maintenances, running, maintaining := [], [], None, None;
      closed, generation, closing, manual, lease, storeClosed := false, 0, None, None, false, false;
      lateTouches, starts := 0, [];
    }

    method Touch()
      modifies this`lateTouches
      ensures State() == S.Touch(old(State()))
    {
      if storeClosed {
        lateTouches := lateTouches + 1;
      }
    }

    method Persist(status: Status)
      modifies this`lateTouches, this`tombstones
      ensures State() == S.Persist(old(State()), status)
    {
      Touch();
      if status.challengeId in tombstones {
        tombstones := tombstones[status.challengeId := S.Tombstone(tombstones[status.challengeId].createdAt, status)];
      }
    }

    method UpdateRecovery(i: nat, s: Recovery)
      requires i < |runs| && runs[i].recovery.Some?
      modifies this
      ensures State() == S.RecoveryTo(old(State()), i, s)
    {
      var ended := !Terminal(runs[i].recovery.value) && Terminal(s);
      runs := runs[i := runs[i].(recovery := Some(s))];
      if ended {
        lease := false;
        Persist(s.current);
      }
    }

    method AbortCurrent()
      requires S.WellIndexed(State())
      modifies this
      ensures State() == S.AbortCurrent(old(State()))
    {
      if running.None? || runs[running.value].aborted {
        return;
      }
      var i := running.value;
      runs := runs[i := runs[i].(aborted := true)];
      if runs[i].recovery.Some? {
        UpdateRecovery(i, AbortFired(runs[i].recovery.value));
      }
    }

    method CancelManual()
      requires S.WellIndexed(State())
      modifies this
      ensures State() == S.CancelManual(old(State()))
    {
      if manual.Some? {
        var answer := Cancel(runs[manual.value].recovery.value);
        UpdateRecovery(manual.value, answer.0);
        if answer.2 {
          AbortCurrent();
        }
      }
    }

    /** `runNow` up to its first await; without a result when it refuses. */
    method RunNow(recovery: Option<Recovery>) returns (started: bool)
      requires S.WellIndexed(State())
      modifies this
      ensures State() == S.StartRun(old(State()), recovery)
      ensures started <==> State() != old(State())
      ensures started ==> old(running).None? && running == Some(|old(runs)|)
    {
      if closed || running.Some? || !config.collector || (recovery.None? && lease) {
        return false;
      }
      running := Some(|runs|);
      var phase := if maintaining.Some? then S.Waiting(maintaining.value) else S.Collecting;
      runs := runs + [S.Run(phase, generation, false, false, recovery)];
      started := true;
    }

    method ResumeRun(i: nat)
      requires i < |runs| && S.Enabled(State(), S.RunResumes(i))
      modifies this
      ensures State() == S.ResumeRun(old(State()), i)
    {
      if closed || runs[i].aborted || generation != runs[i].generation {
        runs := runs[i := runs[i].(phase := S.Settled(S.Fulfilled(None)))];
      } else {
        runs := runs[i := runs[i].(phase := S.Collecting)];
      }
    }

    method CollectionReturns(i: nat, status: S.CollectionStatus)
      requires i < |runs| && runs[i].phase.Collecting?
      modifies this`runs
      ensures State() == S.CollectReturns(old(State()), i, status)
    {
      runs := runs[i := runs[i].(phase := S.Settled(S.Fulfilled(Some(status))))];
    }

    /** The collector threw. */
    method CollectionThrows(i: nat, recordFails: bool)
      requires i < |runs| && S.Enabled(State(), S.CollectorThrows(i, recordFails))
      modifies this
      ensures State() == S.CollectThrows(old(State()), i, recordFails)
    {
      var outcome := S.Fulfilled(Some(S.CollectionError));
      var rejected := runs[i].rejected;
      if !runs[i].aborted {
        Touch();
        if recordFails {
          outcome := S.Rejected;
          rejected := true;
        }
      }
      runs := runs[i := runs[i].(phase := S.Settled(outcome), rejected := rejected)];
    }

    /** The rest of `runNow`: report to the recovery, then free the slot. */
    method EndRun(i: nat)
      requires S.WellIndexed(State()) && i < |runs| && runs[i].phase.Settled?
      modifies this
      ensures State() == S.EndRun(old(State()), i)
    {
      var phase := S.Finished;
      if runs[i].recovery.Some? {
        match runs[i].phase.outcome {
          case Fulfilled(status) =>
            UpdateRecovery(i, Finish(runs[i].recovery.value, status == Some(S.Collected) || status == Some(S.Partial),
                                     if status == Some(S.AuthRequired) then OtpRequired else CollectionFailed));
          case Rejected =>
            phase := S.Failing;
        }
      }
      running := None;
      runs := runs[i := runs[i].(phase := phase)];
    }

    /** The rejection handler of a manual run. */
    method CatchRun(i: nat)
      requires i < |runs| && S.Enabled(State(), S.RunCatches(i))
      modifies this
      ensures State() == S.CatchRun(old(State()), i)
    {
      UpdateRecovery(i, Finish(runs[i].recovery.value, false, CollectionFailed));
      runs := runs[i := runs[i].(phase := S.Finished)];
    }

    method MaintainSession(scheduled: bool, authRequired: bool) returns (started: bool)
      requires S.WellIndexed(State())
      modifies this
      ensures State() == S.StartMaintenance(old(State()), scheduled, authRequired)
      ensures started <==> |maintenances| == |old(maintenances)| + 1
    {
      if closed || running.Some? || maintaining.Some? || !config.renewer {
        return false;
      }
      Touch();
      maintaining := Some(|maintenances|);
      maintenances := maintenances + [S.Maintenance(if scheduled && authRequired then S.Renewed else S.Renewing, false)];
      started := true;
    }

    method RenewalEnds(m: nat, busy: bool)
      requires m < |maintenances| && maintenances[m].phase.Renewing?
      modifies this
      ensures State() == S.RenewalEnds(old(State()), m, busy)
    {
      if !maintenances[m].aborted && !closed && !busy {
        Touch();
      }
      maintenances := maintenances[m := maintenances[m].(phase := S.Renewed)];
    }

    method EndMaintenance(m: nat)
      requires m < |maintenances| && maintenances[m].phase.Renewed?
      modifies this`maintenances, this`maintaining
      ensures State() == S.EndMaintenance(old(State()), m)
    {
      maintaining := None;
      maintenances := maintenances[m := maintenances[m].(phase := S.Done)];
    }

    method AbortMaintenance()
      requires S.WellIndexed(State())
      modifies this`maintenances
      ensures State() == S.AbortMaintenance(old(State()))
    {
      if maintaining.Some? {
        maintenances := maintenances[maintaining.value := maintenances[maintaining.value].(aborted := true)];
      }
    }

    method Stop()
      requires S.WellIndexed(State())
      modifies this
      ensures State() == S.Stop(old(State()))
    {
      hide S.AbortMaintenance, S.AbortCurrent, S.CancelManual, S.AbortRun, S.RecoveryTo, S.SameTasks, S.SameTask;
      generation := generation + 1;
      ghost var w1 := State();
      AbortMaintenance();
      S.StillIndexed(w1, State());
      ghost var w2 := State();
      AbortCurrent();
      S.StillIndexed(w2, State());
      CancelManual();
    }

    method Close()
      requires S.WellIndexed(State())
      modifies this
      ensures State() == S.Close(old(State()))
    {
      if closed {
        return;
      }
      closed := true;
      Stop();
      closing := Some(S.Closing(running, maintaining));
    }

    /** What `close` waited for has settled. */
    method EndClose()
      requires S.Enabled(State(), S.CloseSettles)
      modifies this`closing, this`storeClosed
      ensures State() == S.EndClose(old(State()))
    {
      var run := closing.value.run;
      if run.None? || !runs[run.value].rejected {
        storeClosed := true;
      }
      closing := None;
    }

    /** The challenge of run `i` timed out. */
    method TimerFires(i: nat)
      requires S.WellIndexed(State()) && S.Enabled(State(), S.TimerFires(i))
      modifies this
      ensures State() == S.TimerExpires(old(State()), i)
    {
      UpdateRecovery(i, TimerFired(runs[i].recovery.value));
      AbortCurrent();
    }

    method StartRecovery(id: string, allowed: bool) returns (reply: S.StartReply)
      requires S.WellIndexed(State())
      modifies this
      ensures (State(), reply) == S.StartRecovery(old(State()), id, allowed)
    {
      if closed || !config.collector || !config.manualVerification {
        return S.StartUnavailable;
      }
      if manual.Some? && runs[manual.value].recovery.value.current.challengeId == id {
        return S.StartShown(runs[manual.value].recovery.value.current);
      }
      Touch();
      if id in tombstones {
        return S.StartShown(tombstones[id].status);
      }
      if running.Some? || lease {
        return S.InProgress;
      }
      if !allowed {
        return S.RateLimited;
      }
      Reserve(id);
      reply := S.Started(Created(id, now).current);
    }

    /** The tombstone is durable before the recovery's collection starts. */
    method Reserve(id: string)
      requires S.WellIndexed(State()) && !closed && running.None? && config.collector
      modifies this`tombstones, this`starts, this`lease, this`manual, this`runs, this`running
      ensures tombstones == S.Retained(old(tombstones), now)[id := S.Tombstone(now, S.Interrupted(id))]
      ensures starts == old(starts) + [(id, now)] && lease && manual == running == Some(|old(runs)|)
      ensures runs == old(runs) + [S.Run(if maintaining.Some? then S.Waiting(maintaining.value) else S.Collecting, generation, false, false,
                                         Some(Created(id, now)))]
    {
      tombstones := S.Retained(tombstones, now)[id := S.Tombstone(now, S.Interrupted(id))];
      starts := starts + [(id, now)];
      lease := true;
      manual := Some(|runs|);
      running := manual;
      runs := runs + [S.Run(if maintaining.Some? then S.Waiting(maintaining.value) else S.Collecting, generation, false, false,
                            Some(Created(id, now)))];
    }

    method SubmitCode(id: string, code: string) returns (reply: S.ActionReply)
      requires S.WellIndexed(State())
      modifies this
      ensures (State(), reply) == S.SubmitRecovery(old(State()), id, code)
    {
      if closed || !config.collector || !config.manualVerification {
        return S.ActionUnavailable;
      }
      if manual.None? || runs[manual.value].recovery.value.current.challengeId != id {
        Touch();
        return S.StoredAnswer(tombstones, id, false);
      }
      var answer := Submit(runs[manual.value].recovery.value, code, now);
      UpdateRecovery(manual.value, answer.0);
      if answer.2 {
        AbortCurrent();
      }
      reply := S.Answer(answer.1);
    }

    method CancelRecovery(id: string) returns (reply: S.ActionReply)
      requires S.WellIndexed(State())
      modifies this
      ensures (State(), reply) == S.CancelRecovery(old(State()), id)
    {
      if closed || !config.collector || !config.manualVerification {
        return S.ActionUnavailable;
      }
      if manual.None? || runs[manual.value].recovery.value.current.challengeId != id {
        Touch();
        return S.StoredAnswer(tombstones, id, true);
      }
      reply := S.Answer(Cancel(runs[manual.value].recovery.value).1);
      CancelManual();
    }
  }
}
