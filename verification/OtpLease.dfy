/**
 * The one-time-password lease broker: a mutex-guarded monitor holding at most one lease.
 *
 * Every critical section of the program is one function on `BrokerState`; the class in module `OtpBroker`
 * carries out the same sections by updating its fields. What runs of interleaved sections do is the
 * subject of module `OtpRuns`.
 */
module OtpLease {
  import opened Common

  /** Durations count nanoseconds. */
  const SECOND := 1_000_000_000
  const LEASE_DURATION := 180 * SECOND
  const SEEN_RETENTION := 600 * SECOND
  const CONSUMED_RETENTION := 7 * 24 * 3600 * SECOND
  const MAX_CONSUMED := 2048
  /** The zero time instant (year 1) relative to the epoch. */
  const ZERO_TIME := -62_135_596_800 * SECOND

  /** Exact sender addresses and the template parser of one provider ("" when a text has no code). */
  datatype Rule = Rule(senders: set<string>, code: Option<string -> string>)

  datatype Config = Config(rules: map<string, Rule>, hash: string -> string)

  /** Message hashes are 64 hexadecimal characters. */
  ghost predicate ValidConfig(c: Config) {
    forall id :: |c.hash(id)| == 64
  }

  datatype Entry = Entry(hash: string, at: int)

  datatype LeaseView = LeaseView(
    id: string, provider: string, armedAt: int, expiresAt: int,
    code: string, messageHash: string, delivered: bool, ambiguous: bool)

  /** `epoch` counts the times the `changed` channel was closed and replaced. */
  datatype BrokerState = BrokerState(
    online: bool, health: string, terminal: bool, request: Option<LeaseView>, epoch: nat,
    seen: map<string, int>, consumed: seq<Entry>)

  // ---------------------------------------------------------------- critical sections

  function Signal(s: BrokerState): BrokerState {
    s.(epoch := s.epoch + 1)
  }

  predicate TerminalHealth(state: string) {
    state == "state_write_failed" || state == "capacity_exceeded" || state == "candidate_overflow"
  }

  function SetHealth(s: BrokerState, online: bool, state: string): BrokerState {
    if s.terminal && state != "stopping" then s
    else Signal(s.(terminal := s.terminal || TerminalHealth(state), online := online, health := state,
                   request := if online then s.request else None))
  }

  /** The broker gives up: no lease survives, and health can only become "stopping". */
  function GiveUp(s: BrokerState, state: string): BrokerState {
    Signal(s.(terminal := true, online := false, health := state, request := None))
  }

  predicate HasParser(c: Config, provider: string) {
    provider in c.rules && c.rules[provider].code.Some?
  }

  predicate SixDigits(code: string) {
    |code| == 6 && forall i :: 0 <= i < 6 ==> '0' <= code[i] <= '9'
  }

  /** Candidate hashes noted at most ten minutes ago. */
  function Recent(seen: map<string, int>, now: int): map<string, int> {
    map h | h in seen && now - seen[h] <= SEEN_RETENTION :: seen[h]
  }

  predicate IsConsumed(consumed: seq<Entry>, hash: string) {
    exists i :: 0 <= i < |consumed| && consumed[i].hash == hash
  }

  /** A candidate with this timestamp may still decide the current lease. */
  predicate Decidable(s: BrokerState, now: int, timestamp: int) {
    && s.online && s.request.Some? && !s.request.value.delivered && !s.request.value.ambiguous
    && now < s.request.value.expiresAt
    && timestamp != ZERO_TIME && s.request.value.armedAt <= timestamp <= now + SECOND
  }

  /** A decidable lease takes its first message's code; a second, different message makes it ambiguous. */
  function Offer(s: BrokerState, hash: string, code: string): BrokerState
    requires s.request.Some?
  {
    var r := s.request.value;
    Signal(s.(request := Some(
      if r.messageHash != "" && r.messageHash != hash then r.(code := "", ambiguous := true)
      else r.(code := code, messageHash := hash))))
  }

  /** The candidate passes every check made before it is noted as seen. */
  predicate Admissible(c: Config, s: BrokerState, provider: string, id: string, sender: string, code: string) {
    && HasParser(c, provider) && s.request.Some? && s.request.value.provider == provider
    && id != "" && sender in c.rules[provider].senders && SixDigits(code)
    && c.hash(id) !in s.seen
  }

  predicate Reaches(c: Config, s: BrokerState, now: int, provider: string, id: string, sender: string, code: string, timestamp: int) {
    && Admissible(c, s, provider, id, sender, code)
    && |Recent(s.seen, now)| < MAX_CONSUMED
    && !IsConsumed(s.consumed, c.hash(id))
    && Decidable(s, now, timestamp)
  }

  function Accept(c: Config, s: BrokerState, now: int, provider: string, id: string, sender: string, code: string, timestamp: int): BrokerState {
    if !Admissible(c, s, provider, id, sender, code) then s
    else
      var recent := Recent(s.seen, now);
      if |recent| >= MAX_CONSUMED then GiveUp(s.(seen := recent), "capacity_exceeded")
      else
        var noted := s.(seen := recent[c.hash(id) := now]);
        if IsConsumed(s.consumed, c.hash(id)) || !Decidable(s, now, timestamp) then noted
        else Offer(noted, c.hash(id), code)
  }

  /** Which provider's parser, if any, may look at an incoming message now. */
  function CandidateRule(c: Config, s: BrokerState, now: int): Option<(string, string -> string)> {
    if !s.online || s.request.None? || s.request.value.delivered || s.request.value.ambiguous || now >= s.request.value.expiresAt
    then None
    else if !HasParser(c, s.request.value.provider) then None
    else Some((s.request.value.provider, c.rules[s.request.value.provider].code.value))
  }

  predicate Eligible(s: BrokerState, now: int, provider: string, id: string, timestamp: int) {
    && s.online && s.request.Some? && s.request.value.provider == provider
    && !s.request.value.delivered && !s.request.value.ambiguous && now < s.request.value.expiresAt
    && s.request.value.armedAt <= timestamp <= now + SECOND && id != ""
  }

  datatype ArmReply = Armed(lease: LeaseView) | ArmUnavailable | ArmActive

  /** The deciding section of `arm`; `random` is the fresh lease id, or none when the generator fails. */
  function Arm(s: BrokerState, now: int, provider: string, random: Option<string>): (BrokerState, ArmReply) {
    if !s.online then (s, ArmUnavailable)
    else if s.request.Some? && now < s.request.value.expiresAt then (s, ArmActive)
    else if random.None? then (s, ArmUnavailable)
    else
      var lease := LeaseView(random.value, provider, now, now + LEASE_DURATION, "", "", false, false);
      (Signal(s.(request := Some(lease))), Armed(lease))
  }

  /** The DELETE branch. */
  function Cancel(s: BrokerState, provider: string, id: string): BrokerState {
    if s.request.Some? && s.request.value.provider == provider && s.request.value.id == id
    then Signal(s.(request := None)) else s
  }

  datatype WaitOutcome =
    | WaitUnavailable
    | WaitGone
    | WaitAmbiguous
    | WaitCode(id: string, code: string, expiresAt: int)
    | WaitPending

  /** Replacing the file may fail before or after the new contents are in place. */
  datatype PersistOutcome = Written | FailedBefore | FailedAfter

  function Kept(consumed: seq<Entry>, now: int): (kept: seq<Entry>)
    ensures |kept| <= |consumed|
  {
    if consumed == [] then []
    else if now - consumed[0].at < CONSUMED_RETENTION then [consumed[0]] + Kept(consumed[1..], now)
    else Kept(consumed[1..], now)
  }

  /** One locked round of `wait`: the new state, the new file contents and what the round decided. */
  function WaitRound(s: BrokerState, file: seq<Entry>, now: int, provider: string, id: string, persist: PersistOutcome)
    : (BrokerState, seq<Entry>, WaitOutcome)
  {
    if !s.online then (s, file, WaitUnavailable)
    else if s.request.None? || s.request.value.provider != provider || s.request.value.id != id
            || now >= s.request.value.expiresAt || s.request.value.delivered then (s, file, WaitGone)
    else
      var r := s.request.value;
      if r.ambiguous then (s, file, WaitAmbiguous)
      else if r.code == "" then (s, file, WaitPending)
      else if |Kept(s.consumed, now)| >= MAX_CONSUMED then (s, file, WaitUnavailable)
      else
        var kept := Kept(s.consumed, now) + [Entry(r.messageHash, now)];
        match persist
        case Written =>
          (s.(consumed := kept, request := Some(r.(code := "", delivered := true))), kept, WaitCode(r.id, r.code, r.expiresAt))
        case FailedBefore => (GiveUp(s, "state_write_failed"), file, WaitUnavailable)
        case FailedAfter => (GiveUp(s, "state_write_failed"), kept, WaitUnavailable)
  }

  predicate ValidFile(entries: seq<Entry>) {
    && |entries| <= MAX_CONSUMED
    && forall i :: 0 <= i < |entries| ==> |entries[i].hash| == 64 && entries[i].at != ZERO_TIME
  }

  function InitialState(consumed: seq<Entry>): BrokerState {
    BrokerState(false, "connecting", false, None, 0, map[], consumed)
  }

  datatype FileRead = Missing | Unreadable | Contents(entries: seq<Entry>)

  /** What other goroutines do while `wait` sleeps outside the lock. */
  datatype Op =
    | HealthOp(online: bool, state: string)
    | AcceptOp(now: int, provider: string, id: string, sender: string, code: string, timestamp: int)
    | ArmOp(now: int, provider: string, random: Option<string>)
    | CancelOp(provider: string, id: string)
    | WaitOp(now: int, provider: string, id: string, persist: PersistOutcome)

  function Perform(c: Config, s: BrokerState, file: seq<Entry>, op: Op): (BrokerState, seq<Entry>) {
    match op
    case HealthOp(online, state) => (SetHealth(s, online, state), file)
    case AcceptOp(now, provider, id, sender, code, timestamp) => (Accept(c, s, now, provider, id, sender, code, timestamp), file)
    case ArmOp(now, provider, random) => (Arm(s, now, provider, random).0, file)
    case CancelOp(provider, id) => (Cancel(s, provider, id), file)
    case WaitOp(now, provider, id, persist) => var (s', file', _) := WaitRound(s, file, now, provider, id, persist); (s', file')
  }

  function PerformAll(c: Config, s: BrokerState, file: seq<Entry>, ops: seq<Op>): (BrokerState, seq<Entry>)
    decreases |ops|
  {
    if ops == [] then (s, file)
    else var (s', file') := Perform(c, s, file, ops[0]); PerformAll(c, s', file', ops[1..])
  }

  /** How a sleeping `wait` continues: the client left, its timer fired, or the channel closed after other work. */
  datatype Wake = Disconnected | TimedOut | Changed(others: seq<Op>)

  datatype Round = Round(now: int, persist: PersistOutcome, wake: Wake)

  datatype WaitReply = Answered(outcome: WaitOutcome) | NoReply | StillPending

  /** `wait` over a script of rounds; a script that ends too early leaves it pending. */
  function WaitLoop(c: Config, s: BrokerState, file: seq<Entry>, provider: string, id: string, rounds: seq<Round>)
    : (BrokerState, seq<Entry>, WaitReply)
    decreases |rounds|
  {
    if rounds == [] then (s, file, StillPending)
    else
      var (s1, file1, outcome) := WaitRound(s, file, rounds[0].now, provider, id, rounds[0].persist);
      if !outcome.WaitPending? then (s1, file1, Answered(outcome))
      else match rounds[0].wake
        case Disconnected => (s1, file1, NoReply)
        case TimedOut => (s1, file1, Answered(WaitPending))
        case Changed(others) =>
          var (s2, file2) := PerformAll(c, s1, file1, others);
          WaitLoop(c, s2, file2, provider, id, rounds[1..])
  }
}
