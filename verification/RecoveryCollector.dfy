/** The collector that may log in once, and the scheduled occurrence that retries it. */
module RecoveryCollector {
  import opened Common
  import opened Limiter
  import opened RuntimeSteps
  import opened ScheduledRecovery
  import RateLimiters

  class RecoveryCollector {
    const store: RateLimiters.RateLimiters

    constructor (store: RateLimiters.RateLimiters)
      ensures this.store == store
    {
      this.store := store;
    }

    /** The automatic login; the SMS is reserved in the store before it is requested. */
    method AutomaticLogin(l: Login) returns (end: LoginEnd, smsReserved: bool)
      requires store.Valid()
      modifies store`sms
      ensures store.Valid() && (end, store.sms, smsReserved) == LogIn(old(store.sms), l)
    {
      smsReserved := false;
      if l.asksSms {
        if l.signalAborted {
          return LoginFailed, false;
        }
        var allowed := store.ConsumeAutomaticSmsAttempt(l.smsAt);
        if !allowed {
          return LoginFailed, false;
        }
        smsReserved := true;
      }
      end := l.end;
    }

    method Collect(e: Encounter) returns (outcome: Collection, smsReserved: bool)
      requires store.Valid()
      modifies store`sms
      ensures store.Valid() && CollectorResult(outcome, store.sms, smsReserved) == ScheduledRecovery.Collect(old(store.sms), e)
    {
      smsReserved := false;
      if e.first != Returns(AuthRequired) || !e.recoverable {
        return e.first, false;
      }
      if e.abortedBeforeLogin {
        return Returns(CollectionError), false;
      }
      var end;
      end, smsReserved := AutomaticLogin(e.login);
      var busy := end.ProfileBusy?;
      if end.LoggedIn? {
        if e.abortedAfterLogin {
          return Returns(CollectionError), smsReserved;
        }
        if e.retry.Returns? {
          var status := if e.retry.status.Skipped? then CollectionError else e.retry.status;
          return Returns(status), smsReserved;
        }
        busy := e.retry.ThrowsBusy?;
      }
      if e.abortedInHandler {
        return Returns(CollectionError), smsReserved;
      }
      outcome := Returns(if busy && !smsReserved then Skipped else AuthRequired);
    }

    /** What other runs did to the allowance since the attempt before. */
    method OthersAsk(times: seq<int>)
      requires store.Valid()
      modifies store`sms
      ensures store.Valid() && store.sms == ConsumeAll(old(store.sms), times)
    {
      hide Consume;
      for i := 0 to |times|
        invariant store.Valid() && store.sms == ConsumeAll(old(store.sms), times[..i])
      {
        assert times[..i + 1][..i] == times[..i];
        var _ := store.ConsumeAutomaticSmsAttempt(times[i]);
      }
      assert times[..|times|] == times;
    }

    /** One attempt at time `at`: nothing when other work overlaps. */
    method MakeAttempt(a: Attempt, at: int) returns (m: Made)
      requires store.Valid()
      modifies store`sms
      ensures store.Valid() && (m, store.sms) == Make(old(store.sms), a, at)
    {
      if a.overlapping {
        return Made(at, None, false, false);
      }
      var outcome, smsReserved := Collect(a.encounter);
      m := if outcome.Returns? then Made(at, Some(outcome.status), false, smsReserved)
           else Made(at, Some(CollectionError), a.recordFails, smsReserved);
    }

    /** One scheduled occurrence: attempts until one is not deferred, a stop, or the end of the window. */
    method RunScheduledCollection(attempts: nat -> Attempt, start: int) returns (made: seq<Made>)
      requires store.Valid()
      modifies store`sms
      ensures store.Valid() && (made, store.sms) == Occurrence(attempts, 0, start, start + RETRY_WINDOW, old(store.sms))
      ensures |made| <= 21
    {
      var deadline := start + RETRY_WINDOW;
      var n: nat, at := 0, start;
      ghost var whole := Occurrence(attempts, 0, start, deadline, store.sms);
      AtMostTwentyOne(attempts, start, store.sms);
      hide Make, Consume, ConsumeAll;
      made := [];
      assert made + whole.0 == whole.0;
      while !attempts(n).stoppedBefore && at <= deadline
        invariant store.Valid()
        invariant var rest := Occurrence(attempts, n, at, deadline, store.sms); whole == (made + rest.0, rest.1)
        decreases deadline - at
      {
        var a := attempts(n);
        AttemptStep(attempts, n, at, deadline, store.sms, made);
        OthersAsk(a.elsewhere);
        var m := MakeAttempt(a, at);
        made := made + [m];
        if m.rejected || a.stoppedDuring || (m.status.Some? && !m.status.value.Skipped?) || m.at + a.took + RETRY_DELAY > deadline {
          return;
        }
        n, at := n + 1, at + a.took + RETRY_DELAY + a.late;
      }
      assert made + [] == made;
    }
  }

  /** The attempts from `n` on, after the ones made before. */
  lemma AttemptStep(attempts: nat -> Attempt, n: nat, at: int, deadline: int, sms: seq<int>, before: seq<Made>)
    requires !attempts(n).stoppedBefore && at <= deadline
    ensures var m := Make(ConsumeAll(sms, attempts(n).elsewhere), attempts(n), at);
      var o := Occurrence(attempts, n, at, deadline, sms);
      && m.0.at == at
      && if Deferred(m.0, attempts(n), deadline) then
           var rest := Occurrence(attempts, n + 1, RetryAt(m.0, attempts(n)), deadline, m.1);
           before + o.0 == before + [m.0] + rest.0 && o.1 == rest.1
         else before + o.0 == before + [m.0] && o.1 == m.1
  {
    MakeReserves(ConsumeAll(sms, attempts(n).elsewhere), attempts(n), at);
    hide Make, ConsumeAll;
  }
}
