/** What one lease delivers while health reports, messages, other waiters, arming and canceling go on around it. */
module OtpDelivery {
  import opened Common
  import opened OtpLease

  /** Room for one more entry among those still remembered. */
  predicate HasRoom(s: BrokerState, now: int) {
    |Kept(s.consumed, now)| < MAX_CONSUMED
  }

  /** The lease is in force: nothing was delivered, and at most one message reached it. */
  predicate Open(s: BrokerState, r: LeaseView) {
    && s.online && s.request == Some(r) && !r.delivered && !r.ambiguous
    && (r.messageHash == "" <==> r.code == "")
  }

  /** The lease is no longer there, was delivered, or is ambiguous. */
  predicate Lost(s: BrokerState, id: string) {
    s.request.None? || s.request.value.id != id || s.request.value.delivered || s.request.value.ambiguous
  }

  /** No lease of this id is armed again. */
  predicate Unrepeated(op: Op, id: string) {
    op.ArmOp? ==> op.random != Some(id)
  }

  /** The message that reached the lease, should it come again, is read as the same code. */
  ghost predicate ReadAlike(c: Config, r: LeaseView, op: Op) {
    op.AcceptOp? && c.hash(op.id) == r.messageHash ==> op.code == r.code
  }

  /** What ends an open lease, or changes what it holds. */
  predicate Disturbs(c: Config, s: BrokerState, r: LeaseView, op: Op) {
    match op
    case HealthOp(online, state) => !online && !(s.terminal && state != "stopping")
    case AcceptOp(now, provider, id, sender, code, timestamp) =>
      || (Reaches(c, s, now, provider, id, sender, code, timestamp) && c.hash(id) != r.messageHash)
      || (Admissible(c, s, provider, id, sender, code) && |Recent(s.seen, now)| >= MAX_CONSUMED)
    case ArmOp(now, _, random) => now >= r.expiresAt && random.Some?
    case CancelOp(provider, id) => provider == r.provider && id == r.id
    case WaitOp(now, provider, id, _) => provider == r.provider && id == r.id && now < r.expiresAt && r.code != "" && HasRoom(s, now)
  }

  lemma AcceptDisturbs(c: Config, s: BrokerState, r: LeaseView, file: seq<Entry>, op: Op)
    requires ValidConfig(c) && Open(s, r) && op.AcceptOp? && ReadAlike(c, r, op)
    ensures var t := Perform(c, s, file, op).0; if Disturbs(c, s, r, op) then t.request != s.request else Open(t, r)
  {
    assert |c.hash(op.id)| == 64;
    hide Recent, IsConsumed;
  }

  /** An operation leaves an open lease as it is exactly when it does not disturb it. */
  lemma DisturbsExactly(c: Config, s: BrokerState, r: LeaseView, file: seq<Entry>, op: Op)
    requires ValidConfig(c) && Open(s, r) && Unrepeated(op, r.id) && ReadAlike(c, r, op)
    ensures var t := Perform(c, s, file, op).0; if Disturbs(c, s, r, op) then t.request != s.request else Open(t, r)
  {
    if op.AcceptOp? {
      AcceptDisturbs(c, s, r, file, op);
    } else {
      hide Kept, Accept, Reaches, Admissible;
    }
  }

  /** A lease that holds a code is lost to whatever disturbs it. */
  lemma DisturbedIsLost(c: Config, s: BrokerState, r: LeaseView, file: seq<Entry>, op: Op)
    requires ValidConfig(c) && Open(s, r) && r.code != "" && Unrepeated(op, r.id) && Disturbs(c, s, r, op)
    ensures Lost(Perform(c, s, file, op).0, r.id)
  {
    hide Kept, Recent, IsConsumed;
  }

  lemma LostStep(c: Config, s: BrokerState, id: string, file: seq<Entry>, op: Op)
    requires Lost(s, id) && Unrepeated(op, id)
    ensures Lost(Perform(c, s, file, op).0, id)
  {
    hide Kept, Recent, IsConsumed;
  }

  /** A lost lease never yields a code again, whatever happens. */
  lemma {:induction false} LostForGood(c: Config, s: BrokerState, id: string, file: seq<Entry>, ops: seq<Op>,
                                       now: int, provider: string, persist: PersistOutcome)
    requires Lost(s, id) && forall i :: 0 <= i < |ops| ==> Unrepeated(ops[i], id)
    ensures var (t, file') := PerformAll(c, s, file, ops); Lost(t, id) && !WaitRound(t, file', now, provider, id, persist).2.WaitCode?
    decreases |ops|
  {
    if ops == [] {
      hide Kept;
    } else {
      LostStep(c, s, id, file, ops[0]);
      var (t, file') := Perform(c, s, file, ops[0]);
      hide Perform, WaitRound, Unrepeated, Lost;
      LostForGood(c, t, id, file', ops[1..], now, provider, persist);
    }
  }

  /** None of the operations disturbs the lease, each met in the state the ones before it left. */
  predicate Undisturbed(c: Config, s: BrokerState, r: LeaseView, file: seq<Entry>, ops: seq<Op>)
    decreases |ops|
  {
    ops == [] || (!Disturbs(c, s, r, ops[0]) && var (t, file') := Perform(c, s, file, ops[0]); Undisturbed(c, t, r, file', ops[1..]))
  }

  ghost predicate Harmless(c: Config, r: LeaseView, ops: seq<Op>) {
    forall i :: 0 <= i < |ops| ==> Unrepeated(ops[i], r.id) && ReadAlike(c, r, ops[i])
  }

  lemma HarmlessTail(c: Config, r: LeaseView, ops: seq<Op>)
    requires Harmless(c, r, ops) && ops != []
    ensures Unrepeated(ops[0], r.id) && ReadAlike(c, r, ops[0]) && Harmless(c, r, ops[1..])
    ensures forall i :: 0 <= i < |ops[1..]| ==> Unrepeated(ops[1..][i], r.id)
  {
  }

  /** Undisturbed, an open lease stays what it is. */
  lemma {:induction false} OpenThroughout(c: Config, s: BrokerState, r: LeaseView, file: seq<Entry>, ops: seq<Op>)
    requires ValidConfig(c) && Open(s, r) && Harmless(c, r, ops) && Undisturbed(c, s, r, file, ops)
    ensures Open(PerformAll(c, s, file, ops).0, r)
    decreases |ops|
  {
    if ops != [] {
      HarmlessTail(c, r, ops);
      DisturbsExactly(c, s, r, file, ops[0]);
      var (t, file') := Perform(c, s, file, ops[0]);
      hide Perform, Disturbs, Harmless, Open, ReadAlike, Unrepeated;
      OpenThroughout(c, t, r, file', ops[1..]);
    }
  }

  /** The answer carries the code; the message is on file, and the lease is spent. */
  ghost predicate Delivers(s: BrokerState, r: LeaseView, file: seq<Entry>, now: int, persist: PersistOutcome) {
    var (t, file', answer) := WaitRound(s, file, now, r.provider, r.id, persist);
    && answer == WaitCode(r.id, r.code, r.expiresAt)
    && file' == t.consumed == Kept(s.consumed, now) + [Entry(r.messageHash, now)] && Lost(t, r.id)
  }

  lemma AnswerOf(s: BrokerState, r: LeaseView, file: seq<Entry>, now: int, persist: PersistOutcome)
    requires Open(s, r)
    ensures var answer := WaitRound(s, file, now, r.provider, r.id, persist).2;
            && (answer.WaitCode? <==> r.code != "" && now < r.expiresAt && HasRoom(s, now) && persist.Written?)
            && (answer.WaitCode? ==> Delivers(s, r, file, now, persist))
  {
    hide Kept;
  }

  /**
   * Whatever goes on after a message reached a lease, its waiter is answered with a code exactly when nothing
   * disturbed the lease, it has not expired, there is room to remember the message, and the file is written.
   */
  lemma {:induction false} DeliveredExactly(c: Config, s: BrokerState, r: LeaseView, file: seq<Entry>, ops: seq<Op>, now: int, persist: PersistOutcome)
    requires ValidConfig(c) && Open(s, r) && r.code != "" && Harmless(c, r, ops)
    ensures var (t, file') := PerformAll(c, s, file, ops);
            var answer := WaitRound(t, file', now, r.provider, r.id, persist).2;
            && (answer.WaitCode? <==> Undisturbed(c, s, r, file, ops) && now < r.expiresAt && HasRoom(t, now) && persist.Written?)
            && (answer.WaitCode? ==> Delivers(t, r, file', now, persist))
    decreases |ops|
  {
    if ops == [] {
      AnswerOf(s, r, file, now, persist);
    } else {
      HarmlessTail(c, r, ops);
      var (t, file') := Perform(c, s, file, ops[0]);
      if Disturbs(c, s, r, ops[0]) {
        DisturbedIsLost(c, s, r, file, ops[0]);
        hide Perform, WaitRound, Disturbs, Harmless, Open, ReadAlike, Unrepeated, HasRoom, Lost, Delivers;
        LostForGood(c, t, r.id, file', ops[1..], now, r.provider, persist);
      } else {
        DisturbsExactly(c, s, r, file, ops[0]);
        hide Perform, WaitRound, Disturbs, Harmless, Open, ReadAlike, Unrepeated, HasRoom, Lost, Delivers;
        DeliveredExactly(c, t, r, file', ops[1..], now, persist);
      }
    }
  }

  /** The lease that arming makes, and what its first message makes of it. */
  function NewLease(armedAt: int, provider: string, lease: string): LeaseView {
    LeaseView(lease, provider, armedAt, armedAt + LEASE_DURATION, "", "", false, false)
  }

  lemma FirstReach(c: Config, s: BrokerState, r: LeaseView, now: int, id: string, sender: string, code: string, timestamp: int)
    requires ValidConfig(c) && Open(s, r) && r.code == "" && Reaches(c, s, now, r.provider, id, sender, code, timestamp)
    ensures var held := r.(code := code, messageHash := c.hash(id));
            code != "" && Open(Accept(c, s, now, r.provider, id, sender, code, timestamp), held)
  {
    assert code != "" && |c.hash(id)| == 64;
    hide Recent, IsConsumed;
  }

  /**
   * Arm a lease, let others work without disturbing it, let the first message reach it, let others work again: the
   * waiter gets exactly that message's code, before expiry and only if nothing disturbed the lease since, and only once.
   */
  lemma FirstMessageDelivered(c: Config, s: BrokerState, file: seq<Entry>, armedAt: int, provider: string, lease: string, earlier: seq<Op>,
                              acceptedAt: int, id: string, sender: string, code: string, timestamp: int,
                              later: seq<Op>, now: int, persist: PersistOutcome)
    requires ValidConfig(c) && Arm(s, armedAt, provider, Some(lease)).1.Armed?
    requires var armed, r := Arm(s, armedAt, provider, Some(lease)).0, NewLease(armedAt, provider, lease);
             && Harmless(c, r, earlier) && Undisturbed(c, armed, r, file, earlier)
             && Reaches(c, PerformAll(c, armed, file, earlier).0, acceptedAt, provider, id, sender, code, timestamp)
    requires Harmless(c, NewLease(armedAt, provider, lease).(code := code, messageHash := c.hash(id)), later)
    ensures var (waiting, file1) := PerformAll(c, Arm(s, armedAt, provider, Some(lease)).0, file, earlier);
            var accepted := Accept(c, waiting, acceptedAt, provider, id, sender, code, timestamp);
            var held := NewLease(armedAt, provider, lease).(code := code, messageHash := c.hash(id));
            var (t, file2) := PerformAll(c, accepted, file1, later);
            var answer := WaitRound(t, file2, now, provider, lease, persist).2;
            && accepted.epoch > waiting.epoch
            && (answer.WaitCode? <==> Undisturbed(c, accepted, held, file1, later) && now < armedAt + LEASE_DURATION && HasRoom(t, now) && persist.Written?)
            && (answer.WaitCode? ==> Delivers(t, held, file2, now, persist))
  {
    var armed, r := Arm(s, armedAt, provider, Some(lease)).0, NewLease(armedAt, provider, lease);
    assert Open(armed, r);
    OpenThroughout(c, armed, r, file, earlier);
    var (waiting, file1) := PerformAll(c, armed, file, earlier);
    FirstReach(c, waiting, r, acceptedAt, id, sender, code, timestamp);
    var accepted := Accept(c, waiting, acceptedAt, provider, id, sender, code, timestamp);
    Announced(c, waiting, acceptedAt, provider, id, sender, code, timestamp);
    DeliveredExactly(c, accepted, r.(code := code, messageHash := c.hash(id)), file1, later, now, persist);
    hide Perform, WaitRound, Disturbs, Harmless, Accept, Reaches, HasRoom, Delivers;
  }

  lemma Announced(c: Config, s: BrokerState, now: int, provider: string, id: string, sender: string, code: string, timestamp: int)
    requires Reaches(c, s, now, provider, id, sender, code, timestamp)
    ensures Accept(c, s, now, provider, id, sender, code, timestamp).epoch > s.epoch
  {
    hide Recent, IsConsumed;
  }

  /** After a second, different message no wait ever gets a code of that lease, whatever happens. */
  lemma SecondMessageWithdraws(c: Config, s: BrokerState, r: LeaseView, now: int, id: string, sender: string, code: string, timestamp: int,
                               file: seq<Entry>, ops: seq<Op>, later: int, provider: string, persist: PersistOutcome)
    requires ValidConfig(c) && Open(s, r) && r.code != "" && c.hash(id) != r.messageHash
    requires Reaches(c, s, now, r.provider, id, sender, code, timestamp)
    requires forall i :: 0 <= i < |ops| ==> Unrepeated(ops[i], r.id)
    ensures var t := Accept(c, s, now, r.provider, id, sender, code, timestamp);
            && (later < r.expiresAt ==> WaitRound(t, file, later, r.provider, r.id, persist) == (t, file, WaitAmbiguous))
            && var (u, file') := PerformAll(c, t, file, ops);
            Lost(u, r.id) && !WaitRound(u, file', later, provider, r.id, persist).2.WaitCode?
  {
    var op := AcceptOp(now, r.provider, id, sender, code, timestamp);
    assert Disturbs(c, s, r, op);
    DisturbedIsLost(c, s, r, file, op);
    var t := Accept(c, s, now, r.provider, id, sender, code, timestamp);
    assert later < r.expiresAt ==> WaitRound(t, file, later, r.provider, r.id, persist) == (t, file, WaitAmbiguous) by {
      hide Recent, IsConsumed, Kept;
    }
    hide Accept, WaitRound, Unrepeated, Reaches;
    LostForGood(c, t, r.id, file, ops, later, provider, persist);
  }
}
