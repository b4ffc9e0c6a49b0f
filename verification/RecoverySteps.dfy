/** One manual recovery: a single waiting login, one code, one outcome. Each function is one synchronous call. */
module RecoverySteps {
  import opened Common

  /** Milliseconds a challenge stays open. */
  const CHALLENGE_LIFETIME := 180_000

  datatype Phase = Starting | AwaitingCode | Verifying | Complete | Failed | Canceled | Expired

  datatype RecoveryCode = OtpRequired | CollectionFailed | RecoveryCanceled | OtpExpired | RecoveryInterrupted

  datatype Status = Status(challengeId: string, state: Phase, expiresAt: Option<int>, errorCode: Option<RecoveryCode>)

  /** `pending` is the unresolved promise of the waiting login, `listening` its abort listeners. */
  datatype Recovery = Recovery(
    current: Status, prepared: bool, pending: bool, timer: bool, listening: bool,
    /** Codes handed to the login, and outcomes saved, in order. */
    resolved: seq<string>, persisted: seq<Status>)

  predicate TerminalPhase(p: Phase) {
    p.Complete? || p.Failed? || p.Canceled? || p.Expired?
  }

  predicate Terminal(r: Recovery) {
    TerminalPhase(r.current.state)
  }

  function Created(id: string, now: int): Recovery {
    Recovery(Status(id, Starting, Some(now + CHALLENGE_LIFETIME), None), false, false, true, false, [], [])
  }

  /** Close the recovery with an outcome, once. */
  function End(r: Recovery, state: Phase, errorCode: Option<RecoveryCode>): Recovery {
    if Terminal(r) then r
    else
      var status := r.current.(state := state, expiresAt := None, errorCode := errorCode);
      r.(current := status, timer := false, listening := false, pending := false, persisted := r.persisted + [status])
  }

  datatype ControlReply = Shown(status: Status) | NotWaiting | ExpiredReply

  /** The timer callback; the caller then aborts the collection. */
  function TimerFired(r: Recovery): Recovery {
    End(r, Expired, Some(OtpExpired))
  }

  /** The login asks for its one code request; `aborted` says its signal already fired. */
  function Prepare(r: Recovery, aborted: bool): (Recovery, bool) {
    if r.prepared || Terminal(r) || aborted then (r, false) else (r.(prepared := true), true)
  }

  /** The prepared login starts waiting. */
  function Read(r: Recovery, aborted: bool): (Recovery, bool) {
    if r.current.state != Starting || aborted then (r, false)
    else (r.(current := r.current.(state := AwaitingCode), pending := true, listening := true), true)
  }

  /** A signal the waiting login listens to fires. */
  function AbortFired(r: Recovery): Recovery {
    if r.listening then End(r, Canceled, Some(RecoveryCanceled)) else r
  }

  /** Login cleanup. */
  function RequestCanceled(r: Recovery): Recovery {
    if r.current.state.Starting? || r.current.state.AwaitingCode? then End(r, Failed, Some(OtpRequired)) else r
  }

  predicate SixDigits(code: string) {
    |code| == 6 && forall i :: 0 <= i < 6 ==> '0' <= code[i] <= '9'
  }

  predicate Overdue(r: Recovery, now: int) {
    r.current.expiresAt.Some? && now >= r.current.expiresAt.value
  }

  /** The new state, the answer, and whether the collection is aborted. */
  function Submit(r: Recovery, code: string, now: int): (Recovery, ControlReply, bool) {
    var s := if Overdue(r, now) then End(r, Expired, Some(OtpExpired)) else r;
    if s.current.state.Expired? then (s, ExpiredReply, Overdue(r, now))
    else if !s.current.state.AwaitingCode? || !s.pending || !SixDigits(code) then (s, NotWaiting, Overdue(r, now))
    else
      var status := s.current.(state := Verifying, expiresAt := None);
      (s.(current := status, pending := false, timer := false, listening := false, resolved := s.resolved + [code]),
       Shown(status), Overdue(r, now))
  }

  function Cancel(r: Recovery): (Recovery, ControlReply, bool) {
    if r.current.state.Expired? then (r, ExpiredReply, false)
    else if Terminal(r) && !r.current.state.Canceled? then (r, NotWaiting, false)
    else
      var s := End(r, Canceled, Some(RecoveryCanceled));
      (s, Shown(s.current), true)
  }

  function Finish(r: Recovery, success: bool, errorCode: RecoveryCode): Recovery {
    End(r, if success then Complete else Failed, if success then None else Some(errorCode))
  }

  // ---------------------------------------------------------------- what every call keeps

  ghost predicate Valid(r: Recovery) {
    var open := r.current.state.Starting? || r.current.state.AwaitingCode?;
    && (r.current.expiresAt.Some? <==> open) && (r.timer <==> open)
    && (r.pending <==> r.current.state.AwaitingCode?) && (r.listening <==> r.current.state.AwaitingCode?)
    && (r.current.errorCode.Some? ==> Terminal(r))
    // The outcome is saved exactly once, when the recovery ends.
    && r.persisted == (if Terminal(r) then [r.current] else [])
    // At most one code is handed over, and never to a recovery that expired or is still open.
    && |r.resolved| <= 1 && (r.resolved != [] ==> !open && !r.current.state.Expired?)
    && (r.current.state.Verifying? ==> |r.resolved| == 1 && SixDigits(r.resolved[0]))
  }

  datatype Event =
    | TimerEvent
    | PrepareEvent(aborted: bool)
    | ReadEvent(aborted: bool)
    | AbortEvent
    | RequestCancelEvent
    | SubmitEvent(code: string, now: int)
    | CancelEvent
    | FinishEvent(success: bool, errorCode: RecoveryCode)

  function After(r: Recovery, e: Event): Recovery {
    match e
    // A cleared timer never fires, and only a prepared login can read.
    case TimerEvent => if r.timer then TimerFired(r) else r
    case PrepareEvent(aborted) => Prepare(r, aborted).0
    case ReadEvent(aborted) => if r.prepared then Read(r, aborted).0 else r
    case AbortEvent => AbortFired(r)
    case RequestCancelEvent => RequestCanceled(r)
    case SubmitEvent(code, now) => Submit(r, code, now).0
    case CancelEvent => Cancel(r).0
    case FinishEvent(success, errorCode) => Finish(r, success, errorCode)
  }

  function AfterAll(r: Recovery, events: seq<Event>): Recovery
    decreases |events|
  {
    if events == [] then r else AfterAll(After(r, events[0]), events[1..])
  }

  /** How a call may change a recovery. */
  ghost predicate Progresses(r: Recovery, s: Recovery) {
    && s.current.challengeId == r.current.challengeId
    && (Terminal(r) ==> s == r.(prepared := s.prepared))
    && r.resolved <= s.resolved && r.persisted <= s.persisted
    && (r.prepared ==> s.prepared)
    // An open challenge keeps its deadline, and a deadline once gone stays gone.
    && (s.current.expiresAt.Some? ==> s.current.expiresAt == r.current.expiresAt)
  }

  lemma StepProgresses(r: Recovery, e: Event)
    requires Valid(r)
    ensures Valid(After(r, e)) && Progresses(r, After(r, e))
    // A code is handed over only while one is awaited, before the deadline, by a six-digit submission.
    ensures After(r, e).resolved != r.resolved ==>
              && e.SubmitEvent? && r.current.state.AwaitingCode? && After(r, e).current.state.Verifying?
              && After(r, e).resolved == [e.code] && SixDigits(e.code) && e.now < r.current.expiresAt.value
  {
  }

  /** In every run a recovery hands over at most one code and saves exactly one outcome, its last; ended recoveries never change. */
  lemma {:induction false} RunsProgress(r: Recovery, events: seq<Event>)
    requires Valid(r)
    ensures Valid(AfterAll(r, events)) && Progresses(r, AfterAll(r, events))
    decreases |events|
  {
    if events != [] {
      StepProgresses(r, events[0]);
      RunsProgress(After(r, events[0]), events[1..]);
      ProgressesTransitive(r, After(r, events[0]), AfterAll(r, events));
    }
  }

  lemma ProgressesTransitive(a: Recovery, b: Recovery, c: Recovery)
    requires Progresses(a, b) && Progresses(b, c)
    ensures Progresses(a, c)
  {
  }

  /** A submission is accepted exactly when it is six digits, in time, for a login that waits. */
  lemma SubmitExactly(r: Recovery, code: string, now: int)
    requires Valid(r)
    ensures Submit(r, code, now).1.Shown? <==> r.current.state.AwaitingCode? && now < r.current.expiresAt.value && SixDigits(code)
    ensures Submit(r, code, now).1.ExpiredReply? <==>
              r.current.state.Expired? || ((r.current.state.Starting? || r.current.state.AwaitingCode?) && now >= r.current.expiresAt.value)
    ensures Submit(r, code, now).2 ==> !Terminal(r) && Submit(r, code, now).0.current.state.Expired?
  {
  }

  /** Canceling answers an error exactly for recoveries that ended otherwise, and else leaves a canceled recovery. */
  lemma CancelExactly(r: Recovery)
    requires Valid(r)
    ensures Cancel(r).1.Shown? <==> !Terminal(r) || r.current.state.Canceled?
    ensures Cancel(r).1.Shown? ==> Cancel(r).0.current.state.Canceled? && Cancel(r).1.status == Cancel(r).0.current
    ensures Cancel(r).2 <==> Cancel(r).1.Shown?
  {
  }

  /** How an event ends an open recovery. */
  function EndingOf(e: Event): (Phase, Option<RecoveryCode>) {
    match e
    case TimerEvent => (Expired, Some(OtpExpired))
    case SubmitEvent(_, _) => (Expired, Some(OtpExpired))
    case AbortEvent => (Canceled, Some(RecoveryCanceled))
    case CancelEvent => (Canceled, Some(RecoveryCanceled))
    case RequestCancelEvent => (Failed, Some(OtpRequired))
    case FinishEvent(success, errorCode) => if success then (Complete, None) else (Failed, Some(errorCode))
    case _ => (Starting, None)
  }

  /** A recovery ends only in the way of the event that ends it, and a code on its way to the login is never overtaken by a timer,
      an abort or the login's own cleanup. */
  lemma EndsAs(r: Recovery, e: Event)
    requires Valid(r) && !Terminal(r) && Terminal(After(r, e))
    ensures (After(r, e).current.state, After(r, e).current.errorCode) == EndingOf(e)
    ensures r.current.state.Verifying? ==> e.CancelEvent? || e.FinishEvent?
  {
  }
}
