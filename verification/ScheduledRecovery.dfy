/** One scheduled occurrence: a collection, at most one login with one SMS, and retries while the profile is busy.
    What the portal, the other processes and the user do is given as input. */
module ScheduledRecovery {
  import opened Common
  import opened Limiter
  import opened RuntimeSteps

  const RETRY_WINDOW := 600_000
  const RETRY_DELAY := 30_000

  /** A call of the portal collector. */
  datatype Collection = Returns(status: CollectionStatus) | ThrowsBusy | ThrowsOther

  datatype LoginEnd = LoggedIn | ProfileBusy | LoginFailed

  /** A login: whether it gets as far as asking for an SMS, its signal at that point, and how it ends if the SMS is allowed. */
  datatype Login = Login(asksSms: bool, signalAborted: bool, smsAt: int, end: LoginEnd)

  /** Everything one collector call meets; `recoverable` says an SMS source is configured. */
  datatype Encounter = Encounter(
    first: Collection, recoverable: bool, abortedBeforeLogin: bool, login: Login,
    abortedAfterLogin: bool, retry: Collection, abortedInHandler: bool)

  /** How the login ends, the SMS allowance after it, and whether it reserved an SMS. */
  function LogIn(sms: seq<int>, l: Login): (LoginEnd, seq<int>, bool) {
    if !l.asksSms then (l.end, sms, false)
    else if l.signalAborted || !Allows(sms, l.smsAt, SMS_WINDOW) then (LoginFailed, sms, false)
    else (l.end, Consume(sms, l.smsAt, SMS_WINDOW), true)
  }

  /** The handler of an error thrown by the login or the second collection. */
  function Handled(busy: bool, reserved: bool, aborted: bool): CollectionStatus {
    if aborted then CollectionError else if busy && !reserved then Skipped else AuthRequired
  }

  datatype CollectorResult = CollectorResult(outcome: Collection, sms: seq<int>, reserved: bool)

  function Collect(sms: seq<int>, e: Encounter): CollectorResult {
    if e.first != Returns(AuthRequired) || !e.recoverable then CollectorResult(e.first, sms, false)
    else if e.abortedBeforeLogin then CollectorResult(Returns(CollectionError), sms, false)
    else
      var login := LogIn(sms, e.login);
      var status :=
        if login.0 != LoggedIn then Handled(login.0.ProfileBusy?, login.2, e.abortedInHandler)
        else if e.abortedAfterLogin then CollectionError
        else match e.retry
             case Returns(status) => if status.Skipped? then CollectionError else status
             case ThrowsBusy => Handled(true, login.2, e.abortedInHandler)
             case ThrowsOther => Handled(false, login.2, e.abortedInHandler);
      CollectorResult(Returns(status), login.1, login.2)
  }

  /** A call that reserved an SMS never asks to be repeated. */
  lemma ReservedIsNeverSkipped(sms: seq<int>, e: Encounter)
    ensures Collect(sms, e).reserved ==> Collect(sms, e).outcome.Returns? && !Collect(sms, e).outcome.status.Skipped?
    ensures Collect(sms, e).sms == if Collect(sms, e).reserved then Consume(sms, e.login.smsAt, SMS_WINDOW) else sms
  {
  }

  /** The profile was busy, and no SMS was asked for. */
  predicate BusyUnasked(e: Encounter) {
    || e.first == Returns(Skipped)
    || (&& e.first == Returns(AuthRequired) && e.recoverable && !e.abortedBeforeLogin && !e.abortedInHandler && !e.login.asksSms
        && (e.login.end.ProfileBusy? || (e.login.end.LoggedIn? && !e.abortedAfterLogin && e.retry.ThrowsBusy?)))
  }

  /** Whether a call is skipped does not depend on the SMS allowance. */
  lemma SkippedExactly(sms: seq<int>, e: Encounter)
    ensures Collect(sms, e).outcome == Returns(Skipped) <==> BusyUnasked(e)
  {
  }

  // ---------------------------------------------------------------- the retries

  /** What an attempt meets: the times at which other runs asked for an SMS since the attempt before; a stop, other work in the way, or
      a collector call; how long it takes; a stop during it; a failure that could not be recorded; and how late the retry timer fires. */
  datatype Attempt = Attempt(
    elsewhere: seq<int>, stoppedBefore: bool, overlapping: bool, encounter: Encounter, recordFails: bool, took: nat, stoppedDuring: bool, late: nat)

  datatype Made = Made(at: int, status: Option<CollectionStatus>, rejected: bool, reserved: bool)

  /** The SMS allowance after other runs asked for SMSs at these times. */
  function ConsumeAll(sms: seq<int>, times: seq<int>): seq<int> {
    if times == [] then sms else Consume(ConsumeAll(sms, times[..|times| - 1]), times[|times| - 1], SMS_WINDOW)
  }

  /** The collection an attempt makes at time `at`. */
  function Make(sms: seq<int>, a: Attempt, at: int): (Made, seq<int>) {
    if a.overlapping then (Made(at, None, false, false), sms)
    else
      var c := Collect(sms, a.encounter);
      match c.outcome
      case Returns(status) => (Made(at, Some(status), false, c.reserved), c.sms)
      case _ => (Made(at, Some(CollectionError), a.recordFails, c.reserved), c.sms)
  }

  /** Whether the occurrence goes on after an attempt. */
  predicate Deferred(m: Made, a: Attempt, deadline: int) {
    && !m.rejected && !a.stoppedDuring && (m.status.None? || m.status.value.Skipped?)
    && m.at + a.took + RETRY_DELAY <= deadline
  }

  function RetryAt(m: Made, a: Attempt): int {
    m.at + a.took + RETRY_DELAY + a.late
  }

  /** The attempts made from number `n` on, and the SMS allowance after them. */
  function Occurrence(attempts: nat -> Attempt, n: nat, at: int, deadline: int, sms: seq<int>): (seq<Made>, seq<int>)
    decreases deadline - at + RETRY_DELAY
  {
    if attempts(n).stoppedBefore || at > deadline then ([], sms)
    else
      var made := Make(ConsumeAll(sms, attempts(n).elsewhere), attempts(n), at);
      if Deferred(made.0, attempts(n), deadline) then
        var rest := Occurrence(attempts, n + 1, RetryAt(made.0, attempts(n)), deadline, made.1);
        ([made.0] + rest.0, rest.1)
      else ([made.0], made.1)
  }

  ghost predicate WellMade(made: seq<Made>, start: int, deadline: int) {
    // Attempts lie in the window, at least the retry delay apart.
    && (forall i :: 0 <= i < |made| ==> start + RETRY_DELAY * i <= made[i].at <= deadline)
    // Only a skipped or overlapping attempt is retried, and only the last one may have reserved an SMS.
    && (forall i :: 0 <= i < |made| - 1 ==> !made[i].reserved && !made[i].rejected && (made[i].status.None? || made[i].status.value.Skipped?))
  }

  lemma MakeReserves(sms: seq<int>, a: Attempt, at: int)
    ensures var made := Make(sms, a, at);
      && made.0.at == at
      && (made.0.reserved ==> made.0.status.Some? && !made.0.status.value.Skipped?)
      && made.1 == (if made.0.reserved then Consume(sms, a.encounter.login.smsAt, SMS_WINDOW) else sms)
  {
    ReservedIsNeverSkipped(sms, a.encounter);
  }

  /** The times at which other runs ask for an SMS before the next `count` attempts. */
  function Elsewhere(attempts: nat -> Attempt, n: nat, count: nat): seq<int>
    decreases count
  {
    if count == 0 then [] else attempts(n).elsewhere + Elsewhere(attempts, n + 1, count - 1)
  }

  lemma {:induction false} ConsumeInTurn(sms: seq<int>, a: seq<int>, b: seq<int>)
    ensures ConsumeAll(sms, a + b) == ConsumeAll(ConsumeAll(sms, a), b)
  {
    hide Consume;
    if b == [] {
      assert a + b == a;
    } else {
      ConsumeInTurn(sms, a, b[..|b| - 1]);
      assert (a + b)[..|a + b| - 1] == a + b[..|b| - 1];
    }
  }

  /** What the attempts leave of the allowance: other runs' requests, and after them at most one of its own. */
  ghost predicate AtMostOneSms(made: seq<Made>, before: seq<int>, times: seq<int>, after: seq<int>) {
    if made != [] && made[|made| - 1].reserved then exists t :: after == Consume(ConsumeAll(before, times), t, SMS_WINDOW)
    else after == ConsumeAll(before, times)
  }

  lemma {:induction false} OccurrenceWellMade(attempts: nat -> Attempt, n: nat, at: int, deadline: int, sms: seq<int>)
    ensures WellMade(Occurrence(attempts, n, at, deadline, sms).0, at, deadline)
    decreases deadline - at + RETRY_DELAY
  {
    if !attempts(n).stoppedBefore && at <= deadline {
      var a := attempts(n);
      var found := ConsumeAll(sms, a.elsewhere);
      var made := Make(found, a, at);
      MakeReserves(found, a, at);
      hide Make, Consume, ConsumeAll;
      if Deferred(made.0, a, deadline) {
        OccurrenceWellMade(attempts, n + 1, RetryAt(made.0, a), deadline, made.1);
        PrependHolds(made.0, a, Occurrence(attempts, n + 1, RetryAt(made.0, a), deadline, made.1).0, at, deadline);
      }
    }
  }

  lemma {:induction false} OccurrenceSms(attempts: nat -> Attempt, n: nat, at: int, deadline: int, sms: seq<int>)
    ensures var o := Occurrence(attempts, n, at, deadline, sms); AtMostOneSms(o.0, sms, Elsewhere(attempts, n, |o.0|), o.1)
    decreases deadline - at + RETRY_DELAY
  {
    if !attempts(n).stoppedBefore && at <= deadline {
      var a := attempts(n);
      var found := ConsumeAll(sms, a.elsewhere);
      var made := Make(found, a, at);
      MakeReserves(found, a, at);
      hide Make, Consume, ConsumeAll;
      if Deferred(made.0, a, deadline) {
        OccurrenceSms(attempts, n + 1, RetryAt(made.0, a), deadline, made.1);
        var rest := Occurrence(attempts, n + 1, RetryAt(made.0, a), deadline, made.1);
        var later := Elsewhere(attempts, n + 1, |rest.0|);
        ConsumeInTurn(sms, a.elsewhere, later);
        SmsPrepended(made.0, rest.0, found, later, rest.1);
      } else {
        OneElsewhere(attempts, n);
      }
    } else {
      assert ConsumeAll(sms, []) == sms;
    }
  }

  lemma OneElsewhere(attempts: nat -> Attempt, n: nat)
    ensures Elsewhere(attempts, n, 1) == attempts(n).elsewhere
  {
    assert Elsewhere(attempts, n + 1, 0) == [];
    assert attempts(n).elsewhere + [] == attempts(n).elsewhere;
  }

  /** However busy the profile, however late the timers and whatever other runs do in between, one occurrence makes at most
      one attempt per retry delay in its window and reserves at most one SMS, in its last attempt. */
  lemma OccurrenceHolds(attempts: nat -> Attempt, n: nat, at: int, deadline: int, sms: seq<int>)
    ensures var o := Occurrence(attempts, n, at, deadline, sms);
      && WellMade(o.0, at, deadline)
      && AtMostOneSms(o.0, sms, Elsewhere(attempts, n, |o.0|), o.1)
  {
    OccurrenceWellMade(attempts, n, at, deadline, sms);
    OccurrenceSms(attempts, n, at, deadline, sms);
  }

  lemma SmsPrepended(m: Made, rest: seq<Made>, found: seq<int>, times: seq<int>, after: seq<int>)
    requires !m.reserved && AtMostOneSms(rest, found, times, after)
    ensures ([m] + rest)[|rest|].reserved ==> exists t :: after == Consume(ConsumeAll(found, times), t, SMS_WINDOW)
    ensures !([m] + rest)[|rest|].reserved ==> after == ConsumeAll(found, times)
  {
    hide Consume, ConsumeAll;
    assert rest != [] ==> ([m] + rest)[|rest|] == rest[|rest| - 1];
  }

  /** The attempts of an occurrence and their times do not depend on the SMS allowance. */
  lemma {:induction false} TimesIgnoreAllowance(attempts: nat -> Attempt, n: nat, at: int, deadline: int, a: seq<int>, b: seq<int>)
    ensures var x, y := Occurrence(attempts, n, at, deadline, a).0, Occurrence(attempts, n, at, deadline, b).0;
            |x| == |y| && forall i :: 0 <= i < |x| ==> x[i].at == y[i].at && x[i].rejected == y[i].rejected
    decreases deadline - at + RETRY_DELAY
  {
    if !attempts(n).stoppedBefore && at <= deadline {
      var found, other := ConsumeAll(a, attempts(n).elsewhere), ConsumeAll(b, attempts(n).elsewhere);
      var x, y := Make(found, attempts(n), at), Make(other, attempts(n), at);
      MakeAlike(found, other, attempts(n), at);
      hide Make, ConsumeAll;
      if Deferred(x.0, attempts(n), deadline) {
        TimesIgnoreAllowance(attempts, n + 1, RetryAt(x.0, attempts(n)), deadline, x.1, y.1);
      }
    }
  }

  lemma MakeAlike(sms: seq<int>, other: seq<int>, a: Attempt, at: int)
    ensures var x, y := Make(sms, a, at).0, Make(other, a, at).0;
            && x.at == y.at == at && x.rejected == y.rejected && (x.status.None? <==> y.status.None?)
            && (x.status == Some(Skipped) <==> y.status == Some(Skipped))
  {
    SkippedExactly(sms, a.encounter);
    SkippedExactly(other, a.encounter);
    ThrowsExactly(sms, a.encounter);
    ThrowsExactly(other, a.encounter);
    hide Collect;
  }

  lemma ThrowsExactly(sms: seq<int>, e: Encounter)
    ensures !Collect(sms, e).outcome.Returns? <==> !e.first.Returns?
  {
  }

  /** An occurrence repeats an attempt only when other work was in the way, or the profile was busy and no SMS was asked for. */
  lemma {:induction false} RepeatedOnlyWhenBusy(attempts: nat -> Attempt, n: nat, at: int, deadline: int, sms: seq<int>, i: nat)
    requires i + 1 < |Occurrence(attempts, n, at, deadline, sms).0|
    ensures attempts(n + i).overlapping || BusyUnasked(attempts(n + i).encounter)
    decreases i
  {
    var a := attempts(n);
    var found := ConsumeAll(sms, a.elsewhere);
    var m := Make(found, a, at);
    SkippedExactly(found, a.encounter);
    MakeReserves(found, a, at);
    assert Deferred(m.0, a, deadline) ==> a.overlapping || BusyUnasked(a.encounter);
    hide Make, ConsumeAll, BusyUnasked, Collect;
    if i > 0 {
      RepeatedOnlyWhenBusy(attempts, n + 1, RetryAt(m.0, a), deadline, m.1, i - 1);
    }
  }

  lemma PrependHolds(m: Made, a: Attempt, rest: seq<Made>, at: int, deadline: int)
    requires m.at == at <= deadline && Deferred(m, a, deadline) && !m.reserved && WellMade(rest, RetryAt(m, a), deadline)
    ensures WellMade([m] + rest, at, deadline)
  {
    var made := [m] + rest;
    forall i | 0 <= i < |made| ensures at + RETRY_DELAY * i <= made[i].at <= deadline {
      if i > 0 {
        assert made[i] == rest[i - 1];
      }
    }
    forall i | 0 <= i < |made| - 1
      ensures !made[i].reserved && !made[i].rejected && (made[i].status.None? || made[i].status.value.Skipped?)
    {
      if i > 0 {
        assert made[i] == rest[i - 1];
      }
    }
  }

  /** One occurrence is at most 21 attempts. */
  lemma AtMostTwentyOne(attempts: nat -> Attempt, start: int, sms: seq<int>)
    ensures |Occurrence(attempts, 0, start, start + RETRY_WINDOW, sms).0| <= 21
  {
    OccurrenceHolds(attempts, 0, start, start + RETRY_WINDOW, sms);
    var made := Occurrence(attempts, 0, start, start + RETRY_WINDOW, sms).0;
    if made != [] {
      assert start + RETRY_DELAY * (|made| - 1) <= made[|made| - 1].at <= start + RETRY_WINDOW;
    }
  }

  function BusyAttempt(): Attempt {
    Attempt([], false, true, Encounter(ThrowsOther, false, false, Login(false, false, 0, LoginFailed), false, ThrowsOther, false), false, 0, false, 0)
  }

  /** The bound is reached: 21 attempts are made when every one meets other work and takes no time. */
  lemma {:induction false} BusyReachesBound(at: int, deadline: int, sms: seq<int>)
    requires at <= deadline
    ensures |Occurrence(_ => BusyAttempt(), 0, at, deadline, sms).0| == (deadline - at) / RETRY_DELAY + 1
  {
    BusyFrom(_ => BusyAttempt(), 0, at, deadline, sms);
  }

  lemma {:induction false} BusyFrom(attempts: nat -> Attempt, n: nat, at: int, deadline: int, sms: seq<int>)
    requires at <= deadline && forall i :: attempts(i) == BusyAttempt()
    ensures |Occurrence(attempts, n, at, deadline, sms).0| == (deadline - at) / RETRY_DELAY + 1
    decreases deadline - at
  {
    if at + RETRY_DELAY <= deadline {
      BusyFrom(attempts, n + 1, at + RETRY_DELAY, deadline, sms);
    }
  }
}
