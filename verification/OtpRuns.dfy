/**
 * Every interleaving of the broker's critical sections: any number of waiters, any number of message
 * goroutines in the unlocked gap between finding a parser and offering a code, health changes,
 * crashes and restarts. Each step below is one locked section (or the reply that follows it).
 */
module OtpRuns {
  import opened Common
  import opened OtpLease

  /** Who sent a message, as far as the event itself tells. */
  datatype Origin = Direct(sender: string) | OwnOrForeign | Unresolved

  /** `plain` stands for the event being new, incoming, text-only, complete and of the right type. */
  datatype Message = Message(id: string, text: string, at: int, origin: Origin, plain: bool)

  /** A message between being parsed and being offered; `looking` holds one of the lookup slots. */
  datatype Task = Task(m: Message, provider: string, code: string, looking: bool)

  datatype WaiterAt = Ready | Blocked(epoch: nat) | Replying(delivery: nat)

  datatype Waiter = Waiter(provider: string, id: string, at: WaiterAt)

  // History: what was armed, what reached a lease, and what was decided for delivery.
  datatype ArmedLease = ArmedLease(provider: string, armedAt: int)
  datatype Reach = Reach(lease: string, m: Message, provider: string, sender: string, code: string, at: int)
  datatype Delivery = Delivery(lease: string, hash: string, code: string, at: int)

  datatype World = World(
    up: bool, b: BrokerState, file: seq<Entry>, clock: int,
    tasks: map<nat, Task>, waiters: map<nat, Waiter>,
    leases: map<string, ArmedLease>, reached: seq<Reach>, delivered: seq<Delivery>,
    /** Indices into `delivered` whose code was written to a client. */
    handed: seq<nat>)

  datatype Step =
    | Tick(elapsed: nat)
    | Health(online: bool, state: string)
    | Receive(task: nat, m: Message)
    | Forward(task: nat)
    | Lookup(task: nat)
    | Resolve(task: nat, sender: Option<string>)
    | ArmStep(provider: string, random: Option<string>)
    | CancelStep(provider: string, id: string)
    | WaitBegin(waiter: nat, provider: string, id: string)
    | WaitRun(waiter: nat, persist: PersistOutcome)
    | WaitWake(waiter: nat)
    | WaitEnd(waiter: nat)
    | WaitReply(waiter: nat)
    | Crash
    | Restart

  const LOOKUP_SLOTS := 4

  function LookingTasks(tasks: map<nat, Task>): set<nat> {
    set t | t in tasks && tasks[t].looking
  }

  /** `accept` for a parsed message, remembering whether it reached the lease. */
  ghost function AcceptTask(c: Config, w: World, task: nat, sender: string): World
    requires task in w.tasks
  {
    var t := w.tasks[task];
    var w' := w.(tasks := w.tasks - {task}, b := Accept(c, w.b, w.clock, t.provider, t.m.id, sender, t.code, t.m.at));
    if Reaches(c, w.b, w.clock, t.provider, t.m.id, sender, t.code, t.m.at)
    then w'.(reached := w.reached + [Reach(w.b.request.value.id, t.m, t.provider, sender, t.code, w.clock)])
    else w'
  }

  /** Health is only ever reported as online when ready. */
  predicate ReportedHealth(online: bool, state: string) {
    online ==> state == "ready"
  }

  ghost function WaitRunStep(w: World, waiter: nat, persist: PersistOutcome): World
    requires waiter in w.waiters
  {
    var x := w.waiters[waiter];
    var (b', file', outcome) := WaitRound(w.b, w.file, w.clock, x.provider, x.id, persist);
    var w' := w.(b := b', file := file');
    match outcome
    case WaitPending => w'.(waiters := w.waiters[waiter := x.(at := Blocked(w.b.epoch))])
    case WaitCode(id, code, _) =>
      w'.(delivered := w.delivered + [Delivery(id, w.b.request.value.messageHash, code, w.clock)],
          waiters := w.waiters[waiter := x.(at := Replying(|w.delivered|))])
    case _ => w'.(waiters := w.waiters - {waiter})
  }

  ghost predicate Enabled(c: Config, w: World, s: Step) {
    match s
    case Tick(_) => true
    case Crash => true
    case Restart => !w.up && ValidFile(w.file)
    case Health(online, state) => w.up && ReportedHealth(online, state)
    case Receive(task, m) => w.up && task !in w.tasks
    case Forward(task) => w.up && task in w.tasks && w.tasks[task].m.origin.Direct?
    case Lookup(task) => w.up && task in w.tasks && w.tasks[task].m.origin.Unresolved? && !w.tasks[task].looking
    case Resolve(task, _) => w.up && task in w.tasks && w.tasks[task].looking
    // Lease ids are drawn at random; a repeated one is excluded.
    case ArmStep(_, random) => w.up && (random.Some? ==> random.value !in w.leases)
    case CancelStep(_, _) => w.up
    case WaitBegin(waiter, _, _) => w.up && waiter !in w.waiters
    case WaitRun(waiter, _) => w.up && waiter in w.waiters && w.waiters[waiter].at.Ready?
    case WaitWake(waiter) => w.up && waiter in w.waiters && w.waiters[waiter].at.Blocked? && w.waiters[waiter].at.epoch < w.b.epoch
    case WaitEnd(waiter) => w.up && waiter in w.waiters && w.waiters[waiter].at.Blocked?
    case WaitReply(waiter) => w.up && waiter in w.waiters && w.waiters[waiter].at.Replying?
  }

  ghost function Effect(c: Config, w: World, s: Step): World
    requires Enabled(c, w, s)
  {
    match s
    case Tick(elapsed) => w.(clock := w.clock + elapsed)
    case Crash => w.(up := false, tasks := map[], waiters := map[])
    case Restart => w.(up := true, b := InitialState(w.file))
    case Health(online, state) => w.(b := SetHealth(w.b, online, state))
    case Receive(task, m) =>
      var rule := CandidateRule(c, w.b, w.clock);
      if rule.None? || !m.plain || m.at <= 0 || m.id == "" || rule.value.1(m.text) == "" then w
      else w.(tasks := w.tasks[task := Task(m, rule.value.0, rule.value.1(m.text), false)])
    case Forward(task) => AcceptTask(c, w, task, w.tasks[task].m.origin.sender)
    case Lookup(task) =>
      var t := w.tasks[task];
      if !Eligible(w.b, w.clock, t.provider, t.m.id, t.m.at) then w.(tasks := w.tasks - {task})
      else if |LookingTasks(w.tasks)| >= LOOKUP_SLOTS
      then w.(tasks := w.tasks - {task}, b := SetHealth(w.b, false, "candidate_overflow"))
      else w.(tasks := w.tasks[task := t.(looking := true)])
    case Resolve(task, sender) => if sender.Some? then AcceptTask(c, w, task, sender.value) else w.(tasks := w.tasks - {task})
    case ArmStep(provider, random) =>
      var (b', reply) := Arm(w.b, w.clock, provider, random);
      if reply.Armed? then w.(b := b', leases := w.leases[reply.lease.id := ArmedLease(provider, w.clock)])
      else w.(b := b')
    case CancelStep(provider, id) => w.(b := Cancel(w.b, provider, id))
    case WaitBegin(waiter, provider, id) => w.(waiters := w.waiters[waiter := Waiter(provider, id, Ready)])
    case WaitRun(waiter, persist) => WaitRunStep(w, waiter, persist)
    case WaitWake(waiter) => w.(waiters := w.waiters[waiter := w.waiters[waiter].(at := Ready)])
    case WaitEnd(waiter) => w.(waiters := w.waiters - {waiter})
    case WaitReply(waiter) => w.(handed := w.handed + [w.waiters[waiter].at.delivery], waiters := w.waiters - {waiter})
  }

  ghost function Do(c: Config, w: World, s: Step): World {
    if Enabled(c, w, s) then Effect(c, w, s) else w
  }

  ghost function Run(c: Config, w: World, steps: seq<Step>): World
    decreases |steps|
  {
    if steps == [] then w else Run(c, Do(c, w, steps[0]), steps[1..])
  }

  /** A process that has just started from a file written no later than now. */
  ghost predicate Initial(c: Config, w: World) {
    && ValidConfig(c) && w.up && w.clock >= 0 && ValidFile(w.file) && w.b == InitialState(w.file)
    && w.tasks == map[] && w.waiters == map[]
    && w.leases == map[] && w.reached == [] && w.delivered == [] && w.handed == []
  }

  // ================================================================ the broker by itself

  ghost predicate LeaseOk(c: Config, b: BrokerState, clock: int, r: LeaseView) {
    && r.armedAt <= clock && r.expiresAt == r.armedAt + LEASE_DURATION
    && !(r.delivered && r.ambiguous)
    && (r.delivered || r.ambiguous ==> r.messageHash != "")
    && (r.code != "" <==> r.messageHash != "" && !r.delivered && !r.ambiguous)
    && (r.messageHash != "" ==> |r.messageHash| == 64)
    // An undelivered lease never holds a message that was already consumed.
    && (!r.delivered && r.messageHash != "" ==> !IsConsumed(b.consumed, r.messageHash))
  }

  ghost predicate BrokerOk(c: Config, b: BrokerState, clock: int) {
    && (b.terminal ==> !b.online)
    && |b.seen| <= MAX_CONSUMED && ValidFile(b.consumed)
    && (b.request.Some? ==> b.online && LeaseOk(c, b, clock, b.request.value))
  }

  lemma KeptMembers(consumed: seq<Entry>, now: int)
    ensures forall e :: e in Kept(consumed, now) <==> e in consumed && now - e.at < CONSUMED_RETENTION
  {
    if consumed != [] {
      KeptMembers(consumed[1..], now);
      assert consumed == [consumed[0]] + consumed[1..];
    }
  }

  lemma KeptValid(consumed: seq<Entry>, now: int, hash: string)
    requires ValidFile(consumed) && |Kept(consumed, now)| < MAX_CONSUMED
    requires |hash| == 64 && now >= 0
    ensures ValidFile(Kept(consumed, now) + [Entry(hash, now)])
  {
    KeptMembers(consumed, now);
    var kept := Kept(consumed, now);
    forall i | 0 <= i < |kept| + 1
      ensures |(kept + [Entry(hash, now)])[i].hash| == 64 && (kept + [Entry(hash, now)])[i].at != ZERO_TIME
    {
      if i < |kept| {
        assert kept[i] in kept;
      }
    }
  }

  lemma RecentSize(seen: map<string, int>, now: int)
    ensures |Recent(seen, now)| <= |seen|
  {
    var kept := Recent(seen, now).Keys;
    assert kept <= seen.Keys;
    SubsetSize(kept, seen.Keys);
  }

  lemma SubsetSize<T>(a: set<T>, b: set<T>)
    requires a <= b
    ensures |a| <= |b|
  {
    assert b == a + (b - a);
  }

  lemma AddedSize(m: map<string, int>, k: string, v: int)
    ensures |m[k := v]| <= |m| + 1
  {
    assert m[k := v].Keys == m.Keys + {k};
  }

  lemma AcceptKeepsBroker(c: Config, b: BrokerState, clock: int, provider: string, id: string, sender: string, code: string, at: int)
    requires ValidConfig(c) && BrokerOk(c, b, clock)
    ensures BrokerOk(c, Accept(c, b, clock, provider, id, sender, code, at), clock)
  {
    RecentSize(b.seen, clock);
    AddedSize(Recent(b.seen, clock), c.hash(id), clock);
  }

  lemma WaitKeepsBroker(c: Config, b: BrokerState, file: seq<Entry>, clock: int, provider: string, id: string, persist: PersistOutcome)
    requires BrokerOk(c, b, clock) && clock >= 0 && ValidFile(file)
    ensures BrokerOk(c, WaitRound(b, file, clock, provider, id, persist).0, clock)
    ensures ValidFile(WaitRound(b, file, clock, provider, id, persist).1)
  {
    if b.request.Some? && b.request.value.code != "" && |Kept(b.consumed, clock)| < MAX_CONSUMED {
      KeptValid(b.consumed, clock, b.request.value.messageHash);
    }
  }

  ghost predicate BrokerInv(c: Config, w: World) {
    ValidConfig(c) && w.clock >= 0 && ValidFile(w.file) && (w.up ==> BrokerOk(c, w.b, w.clock))
  }

  lemma StepKeepsBroker(c: Config, w: World, s: Step)
    requires BrokerInv(c, w)
    ensures BrokerInv(c, Do(c, w, s))
  {
    if Enabled(c, w, s) {
      match s
      case Forward(task) =>
        var t := w.tasks[task];
        AcceptKeepsBroker(c, w.b, w.clock, t.provider, t.m.id, t.m.origin.sender, t.code, t.m.at);
      case Resolve(task, sender) =>
        if sender.Some? {
          var t := w.tasks[task];
          AcceptKeepsBroker(c, w.b, w.clock, t.provider, t.m.id, sender.value, t.code, t.m.at);
        }
      case WaitRun(waiter, persist) =>
        var x := w.waiters[waiter];
        WaitKeepsBroker(c, w.b, w.file, w.clock, x.provider, x.id, persist);
      case _ =>
    }
  }

  // ================================================================ deliveries and the file

  /** Entries of deliveries younger than the retention are on file, and known to a running broker. */
  ghost predicate OnRecord(w: World, d: Delivery) {
    && d.at <= w.clock
    && (w.clock - d.at < CONSUMED_RETENTION ==>
          Entry(d.hash, d.at) in w.file && (w.up ==> Entry(d.hash, d.at) in w.b.consumed))
  }

  ghost predicate DurableInv(w: World) {
    && (forall k :: 0 <= k < |w.delivered| ==> OnRecord(w, w.delivered[k]))
    && (forall i, j :: 0 <= i < j < |w.delivered| && w.delivered[i].hash == w.delivered[j].hash ==>
          w.delivered[j].at - w.delivered[i].at >= CONSUMED_RETENTION)
  }

  lemma WaitKeepsDurable(c: Config, w: World, waiter: nat, persist: PersistOutcome)
    requires BrokerInv(c, w) && DurableInv(w) && w.up && waiter in w.waiters
    ensures DurableInv(WaitRunStep(w, waiter, persist))
  {
    KeptMembers(w.b.consumed, w.clock);
    var x := w.waiters[waiter];
    var (b', file', outcome) := WaitRound(w.b, w.file, w.clock, x.provider, x.id, persist);
    var w' := WaitRunStep(w, waiter, persist);
    forall k | 0 <= k < |w'.delivered|
      ensures OnRecord(w', w'.delivered[k])
    {
      if k < |w.delivered| {
        assert OnRecord(w, w.delivered[k]);
      }
    }
    if outcome.WaitCode? {
      var hash := w.b.request.value.messageHash;
      forall i | 0 <= i < |w.delivered| && w.delivered[i].hash == hash
        ensures w.clock - w.delivered[i].at >= CONSUMED_RETENTION
      {
        assert OnRecord(w, w.delivered[i]);
      }
    }
  }

  lemma AcceptKeepsRecords(c: Config, w: World, task: nat, sender: string)
    requires task in w.tasks
    ensures var w' := AcceptTask(c, w, task, sender);
            w'.delivered == w.delivered && w'.file == w.file && w'.clock == w.clock && w'.up == w.up && w'.b.consumed == w.b.consumed
  {
  }

  /** Only a round of `wait` decides deliveries or touches the consumed list. */
  lemma OtherStepsKeepRecords(c: Config, w: World, s: Step)
    requires Enabled(c, w, s) && !s.WaitRun?
    ensures Do(c, w, s).delivered == w.delivered && Do(c, w, s).file == w.file && Do(c, w, s).clock >= w.clock
    ensures Do(c, w, s).up ==> Do(c, w, s).b.consumed == if w.up then w.b.consumed else w.file
  {
    if s.Forward? {
      AcceptKeepsRecords(c, w, s.task, w.tasks[s.task].m.origin.sender);
    } else if s.Resolve? && s.sender.Some? {
      AcceptKeepsRecords(c, w, s.task, s.sender.value);
    }
    hide AcceptTask, WaitRunStep, CandidateRule, Eligible, LookingTasks;
  }

  lemma StepKeepsDurable(c: Config, w: World, s: Step)
    requires BrokerInv(c, w) && DurableInv(w)
    ensures DurableInv(Do(c, w, s))
  {
    if Enabled(c, w, s) {
      if s.WaitRun? {
        WaitKeepsDurable(c, w, s.waiter, s.persist);
      } else {
        OtherStepsKeepRecords(c, w, s);
        RecordsKept(w, Do(c, w, s));
      }
    }
  }

  lemma RecordsKept(w: World, w': World)
    requires DurableInv(w) && w'.delivered == w.delivered && w'.file == w.file && w'.clock >= w.clock
    requires w'.up ==> w'.b.consumed == if w.up then w.b.consumed else w.file
    ensures DurableInv(w')
  {
    forall k | 0 <= k < |w'.delivered|
      ensures OnRecord(w', w'.delivered[k])
    {
      assert OnRecord(w, w.delivered[k]);
    }
  }

  // ================================================================ what reaches a lease

  /** Message `i` is the only one that reached `lease`. */
  ghost predicate OnlyReach(reached: seq<Reach>, lease: string, i: nat) {
    && i < |reached| && reached[i].lease == lease
    && forall j :: 0 <= j < |reached| && reached[j].lease == lease ==> j == i
  }

  ghost predicate NoReach(reached: seq<Reach>, lease: string) {
    forall j :: 0 <= j < |reached| ==> reached[j].lease != lease
  }

  ghost predicate TwoMessages(c: Config, reached: seq<Reach>, lease: string) {
    exists i, j :: 0 <= i < j < |reached| && reached[i].lease == lease && reached[j].lease == lease
      && c.hash(reached[i].m.id) != c.hash(reached[j].m.id)
  }

  /** The message passed every check the lease's provider prescribes, in time. */
  ghost predicate ProperReach(c: Config, w: World, x: Reach) {
    && x.lease in w.leases && w.leases[x.lease].provider == x.provider
    && HasParser(c, x.provider) && x.sender in c.rules[x.provider].senders
    && x.code == c.rules[x.provider].code.value(x.m.text) && SixDigits(x.code)
    && w.leases[x.lease].armedAt <= x.m.at <= x.at + SECOND
    && w.leases[x.lease].armedAt <= x.at < w.leases[x.lease].armedAt + LEASE_DURATION
    && x.at <= w.clock
  }

  ghost predicate ProperTask(c: Config, t: Task) {
    HasParser(c, t.provider) && t.code == c.rules[t.provider].code.value(t.m.text)
  }

  /** The current lease's fields say exactly what reached it. */
  ghost predicate LeaseTellsReaches(c: Config, w: World, r: LeaseView) {
    && r.id in w.leases && w.leases[r.id] == ArmedLease(r.provider, r.armedAt)
    && (r.messageHash == "" ==> NoReach(w.reached, r.id))
    && (r.ambiguous ==> TwoMessages(c, w.reached, r.id))
    && (r.messageHash != "" && !r.ambiguous ==>
          exists i: nat :: OnlyReach(w.reached, r.id, i) && c.hash(w.reached[i].m.id) == r.messageHash
            && (!r.delivered ==> w.reached[i].code == r.code))
    // What reached a live lease is still noted as seen, so it cannot reach it again.
    && (forall k :: 0 <= k < |w.reached| && w.reached[k].lease == r.id && w.clock < r.expiresAt ==>
          c.hash(w.reached[k].m.id) in w.b.seen && w.b.seen[c.hash(w.reached[k].m.id)] >= r.armedAt)
  }

  ghost predicate ProperDelivery(c: Config, w: World, d: Delivery) {
    && d.lease in w.leases
    && (w.b.request.Some? && w.b.request.value.id == d.lease ==> w.b.request.value.delivered)
    && exists i: nat :: OnlyReach(w.reached, d.lease, i) && c.hash(w.reached[i].m.id) == d.hash && w.reached[i].code == d.code
         && w.reached[i].at <= d.at < w.leases[d.lease].armedAt + LEASE_DURATION
  }

  ghost predicate ReachInv(c: Config, w: World) {
    && (forall t :: t in w.tasks ==> ProperTask(c, w.tasks[t]))
    && (forall k :: 0 <= k < |w.reached| ==> ProperReach(c, w, w.reached[k]))
    && (forall k :: 0 <= k < |w.delivered| ==> ProperDelivery(c, w, w.delivered[k]))
    && (forall i, j :: 0 <= i < j < |w.delivered| ==> w.delivered[i].lease != w.delivered[j].lease)
    && (w.up && w.b.request.Some? ==> LeaseTellsReaches(c, w, w.b.request.value))
  }

  /** Steps that neither let a message through nor decide a delivery keep the account of the lease. */
  lemma QuietKeepsReach(c: Config, w: World, w': World)
    requires ReachInv(c, w)
    requires w'.reached == w.reached && w'.delivered == w.delivered && w'.leases == w.leases && w'.clock >= w.clock
    requires forall t :: t in w'.tasks ==> ProperTask(c, w'.tasks[t])
    requires w'.up && w'.b.request.Some? ==> w.up
    requires w'.b.request.Some? ==> w'.b.request == w.b.request
    requires w'.up && w'.b.request.Some? ==> SeenKept(w.b, w'.b, w'.clock, w'.b.request.value)
    ensures ReachInv(c, w')
  {
    forall k | 0 <= k < |w'.reached|
      ensures ProperReach(c, w', w'.reached[k])
    {
      assert ProperReach(c, w, w.reached[k]);
    }
    forall k | 0 <= k < |w'.delivered|
      ensures ProperDelivery(c, w', w'.delivered[k])
    {
      assert ProperDelivery(c, w, w.delivered[k]);
    }
  }

  /** Notes at least as young as a live lease survive. */
  ghost predicate SeenKept(b: BrokerState, b': BrokerState, clock: int, r: LeaseView) {
    clock < r.expiresAt ==> forall h :: h in b.seen && b.seen[h] >= r.armedAt ==> h in b'.seen && b'.seen[h] >= r.armedAt
  }

  lemma QuietAccept(c: Config, w: World, task: nat, sender: string)
    requires BrokerInv(c, w) && ReachInv(c, w) && w.up && task in w.tasks
    requires var t := w.tasks[task]; !Reaches(c, w.b, w.clock, t.provider, t.m.id, sender, t.code, t.m.at)
    ensures ReachInv(c, AcceptTask(c, w, task, sender))
  {
    QuietKeepsReach(c, w, AcceptTask(c, w, task, sender));
  }

  /** A message that reaches the lease is new to it. */
  lemma ReachIsNew(c: Config, w: World, t: Task, sender: string)
    requires BrokerInv(c, w) && ReachInv(c, w) && w.up
    requires Reaches(c, w.b, w.clock, t.provider, t.m.id, sender, t.code, t.m.at)
    ensures forall k :: 0 <= k < |w.reached| && w.reached[k].lease == w.b.request.value.id ==> c.hash(w.reached[k].m.id) != c.hash(t.m.id)
  {
  }

  lemma ReachKeepsLease(c: Config, w: World, task: nat, sender: string)
    requires BrokerInv(c, w) && ReachInv(c, w) && w.up && task in w.tasks
    requires var t := w.tasks[task]; Reaches(c, w.b, w.clock, t.provider, t.m.id, sender, t.code, t.m.at)
    ensures LeaseTellsReaches(c, AcceptTask(c, w, task, sender), AcceptTask(c, w, task, sender).b.request.value)
  {
    var t, r := w.tasks[task], w.b.request.value;
    var w' := AcceptTask(c, w, task, sender);
    var r', n := w'.b.request.value, |w.reached|;
    ReachIsNew(c, w, t, sender);
    assert w'.reached[n].lease == r.id && w'.reached[n].code == t.code && w'.reached[n].m == t.m;
    if r.messageHash == "" {
      assert OnlyReach(w'.reached, r.id, n);
    } else {
      var i: nat :| OnlyReach(w.reached, r.id, i) && c.hash(w.reached[i].m.id) == r.messageHash;
      assert c.hash(w.reached[i].m.id) != c.hash(t.m.id);
      assert w'.reached[i] == w.reached[i];
      assert TwoMessages(c, w'.reached, r.id);
    }
    forall k | 0 <= k < |w'.reached| && w'.reached[k].lease == r.id && w'.clock < r'.expiresAt
      ensures c.hash(w'.reached[k].m.id) in w'.b.seen && w'.b.seen[c.hash(w'.reached[k].m.id)] >= r'.armedAt
    {
      if k < n {
        assert w'.reached[k] == w.reached[k];
      }
    }
  }

  lemma ReachKeepsInv(c: Config, w: World, task: nat, sender: string)
    requires BrokerInv(c, w) && ReachInv(c, w) && w.up && task in w.tasks
    requires var t := w.tasks[task]; Reaches(c, w.b, w.clock, t.provider, t.m.id, sender, t.code, t.m.at)
    ensures ReachInv(c, AcceptTask(c, w, task, sender))
  {
    var w' := AcceptTask(c, w, task, sender);
    ReachKeepsLease(c, w, task, sender);
    forall k | 0 <= k < |w'.reached|
      ensures ProperReach(c, w', w'.reached[k])
    {
      if k < |w.reached| {
        assert ProperReach(c, w, w.reached[k]);
      } else {
        assert ProperTask(c, w.tasks[task]);
      }
    }
    ReachKeepsDeliveries(c, w, task, sender);
  }

  /** Deliveries are of earlier leases, which the new message does not reach. */
  lemma ReachKeepsDeliveries(c: Config, w: World, task: nat, sender: string)
    requires BrokerInv(c, w) && ReachInv(c, w) && w.up && task in w.tasks
    requires var t := w.tasks[task]; Reaches(c, w.b, w.clock, t.provider, t.m.id, sender, t.code, t.m.at)
    ensures var w' := AcceptTask(c, w, task, sender); forall k :: 0 <= k < |w'.delivered| ==> ProperDelivery(c, w', w'.delivered[k])
  {
    var w' := AcceptTask(c, w, task, sender);
    forall k | 0 <= k < |w'.delivered|
      ensures ProperDelivery(c, w', w'.delivered[k])
    {
      var d := w.delivered[k];
      assert ProperDelivery(c, w, d);
      var i: nat :| OnlyReach(w.reached, d.lease, i) && c.hash(w.reached[i].m.id) == d.hash && w.reached[i].code == d.code
        && w.reached[i].at <= d.at < w.leases[d.lease].armedAt + LEASE_DURATION;
      assert d.lease != w.b.request.value.id;
      assert OnlyReach(w'.reached, d.lease, i);
    }
  }

  lemma AcceptKeepsReach(c: Config, w: World, task: nat, sender: string)
    requires BrokerInv(c, w) && ReachInv(c, w) && w.up && task in w.tasks
    ensures ReachInv(c, AcceptTask(c, w, task, sender))
  {
    var t := w.tasks[task];
    if Reaches(c, w.b, w.clock, t.provider, t.m.id, sender, t.code, t.m.at) {
      ReachKeepsInv(c, w, task, sender);
    } else {
      QuietAccept(c, w, task, sender);
    }
  }

  lemma DeliveryKeepsReach(c: Config, w: World, waiter: nat)
    requires BrokerInv(c, w) && ReachInv(c, w) && w.up && waiter in w.waiters
    requires var x := w.waiters[waiter]; WaitRound(w.b, w.file, w.clock, x.provider, x.id, Written).2.WaitCode?
    ensures ReachInv(c, WaitRunStep(w, waiter, Written))
  {
    var r, w' := w.b.request.value, WaitRunStep(w, waiter, Written);
    var d := Delivery(r.id, r.messageHash, r.code, w.clock);
    assert w'.delivered == w.delivered + [d];
    var i: nat :| OnlyReach(w.reached, r.id, i) && c.hash(w.reached[i].m.id) == r.messageHash && w.reached[i].code == r.code;
    assert ProperReach(c, w, w.reached[i]);
    forall k | 0 <= k < |w'.reached|
      ensures ProperReach(c, w', w'.reached[k])
    {
      assert ProperReach(c, w, w.reached[k]);
    }
    forall k | 0 <= k < |w'.delivered|
      ensures ProperDelivery(c, w', w'.delivered[k])
      ensures k < |w.delivered| ==> w.delivered[k].lease != r.id
    {
      if k < |w.delivered| {
        assert ProperDelivery(c, w, w.delivered[k]);
      }
    }
  }

  lemma WaitKeepsReach(c: Config, w: World, waiter: nat, persist: PersistOutcome)
    requires BrokerInv(c, w) && ReachInv(c, w) && w.up && waiter in w.waiters
    ensures ReachInv(c, WaitRunStep(w, waiter, persist))
  {
    var x := w.waiters[waiter];
    var outcome := WaitRound(w.b, w.file, w.clock, x.provider, x.id, persist).2;
    if outcome.WaitCode? {
      DeliveryKeepsReach(c, w, waiter);
    } else {
      QuietKeepsReach(c, w, WaitRunStep(w, waiter, persist));
    }
  }

  lemma ArmKeepsReach(c: Config, w: World, provider: string, random: Option<string>)
    requires BrokerInv(c, w) && ReachInv(c, w) && Enabled(c, w, ArmStep(provider, random))
    ensures ReachInv(c, Effect(c, w, ArmStep(provider, random)))
  {
    var w' := Effect(c, w, ArmStep(provider, random));
    if w'.b == w.b {
      QuietKeepsReach(c, w, w');
    } else {
      forall k | 0 <= k < |w'.reached|
        ensures ProperReach(c, w', w'.reached[k]) && w'.reached[k].lease != random.value
      {
        assert ProperReach(c, w, w.reached[k]);
      }
      forall k | 0 <= k < |w'.delivered|
        ensures ProperDelivery(c, w', w'.delivered[k])
      {
        assert ProperDelivery(c, w, w.delivered[k]);
      }
    }
  }

  lemma ReceiveKeepsReach(c: Config, w: World, s: Step)
    requires ReachInv(c, w) && Enabled(c, w, s) && s.Receive?
    ensures ReachInv(c, Effect(c, w, s))
  {
    QuietKeepsReach(c, w, Effect(c, w, s));
  }

  lemma LookupKeepsReach(c: Config, w: World, s: Step)
    requires ReachInv(c, w) && Enabled(c, w, s) && s.Lookup?
    ensures ReachInv(c, Effect(c, w, s))
  {
    QuietKeepsReach(c, w, Effect(c, w, s));
  }

  /** Time, health, cancellation, waiters' own moves, crashes and restarts. */
  lemma OtherStepsKeepReach(c: Config, w: World, s: Step)
    requires ReachInv(c, w) && Enabled(c, w, s)
    requires !s.Receive? && !s.Forward? && !s.Lookup? && !s.Resolve? && !s.ArmStep? && !s.WaitRun?
    ensures ReachInv(c, Effect(c, w, s))
  {
    QuietKeepsReach(c, w, Effect(c, w, s));
  }

  lemma StepKeepsReach(c: Config, w: World, s: Step)
    requires BrokerInv(c, w) && ReachInv(c, w)
    ensures ReachInv(c, Do(c, w, s))
  {
    if Enabled(c, w, s) {
      match s
      case Receive(_, _) => ReceiveKeepsReach(c, w, s);
      case Forward(task) => AcceptKeepsReach(c, w, task, w.tasks[task].m.origin.sender);
      case Lookup(_) => LookupKeepsReach(c, w, s);
      case Resolve(task, sender) =>
        if sender.Some? {
          AcceptKeepsReach(c, w, task, sender.value);
        } else {
          QuietKeepsReach(c, w, Do(c, w, s));
        }
      case ArmStep(provider, random) => ArmKeepsReach(c, w, provider, random);
      case WaitRun(waiter, persist) => WaitKeepsReach(c, w, waiter, persist);
      case _ => OtherStepsKeepReach(c, w, s);
    }
  }

  // ================================================================ waiters

  /** A waiter asleep on the current channel has missed nothing: its next round could only find an empty lease. */
  ghost predicate MissedNothing(w: World, x: Waiter) {
    x.at.Blocked? ==>
      && x.at.epoch <= w.b.epoch
      && (x.at.epoch == w.b.epoch ==>
            && w.b.online && w.b.request.Some? && w.b.request.value.provider == x.provider && w.b.request.value.id == x.id
            && w.b.request.value.messageHash == "" && w.b.request.value.code == ""
            && !w.b.request.value.delivered && !w.b.request.value.ambiguous)
  }

  ghost predicate WaiterInv(w: World) {
    && (w.up ==> forall x :: x in w.waiters ==> MissedNothing(w, w.waiters[x]))
    // Each decided delivery is replied to by at most one waiter, at most once.
    && (forall x :: x in w.waiters && w.waiters[x].at.Replying? ==>
          w.waiters[x].at.delivery < |w.delivered| && w.waiters[x].at.delivery !in w.handed)
    && (forall x, y :: x in w.waiters && y in w.waiters && x != y && w.waiters[x].at.Replying? && w.waiters[y].at.Replying? ==>
          w.waiters[x].at.delivery != w.waiters[y].at.delivery)
    && (forall i :: 0 <= i < |w.handed| ==> w.handed[i] < |w.delivered|)
    && (forall i, j :: 0 <= i < j < |w.handed| ==> w.handed[i] != w.handed[j])
    && (!w.up ==> w.waiters == map[])
  }

  /** A section either signals the channel or leaves an empty lease and the online flag alone. */
  ghost predicate SignalsOrKeeps(b: BrokerState, b': BrokerState) {
    || b'.epoch > b.epoch
    || (b'.epoch == b.epoch && b'.online == b.online
        && (b'.request == b.request || (b.request.Some? && b.request.value.messageHash != "")))
  }

  lemma AcceptSignals(c: Config, w: World, task: nat, sender: string)
    requires BrokerInv(c, w) && w.up && task in w.tasks
    ensures SignalsOrKeeps(w.b, AcceptTask(c, w, task, sender).b)
  {
  }

  lemma WaitSignals(c: Config, w: World, waiter: nat, persist: PersistOutcome)
    requires BrokerInv(c, w) && w.up && waiter in w.waiters
    ensures SignalsOrKeeps(w.b, WaitRunStep(w, waiter, persist).b)
  {
  }

  /** The remaining sections, which involve neither a candidate nor a round of `wait`. */
  lemma OtherSectionsSignal(c: Config, w: World, s: Step)
    requires Enabled(c, w, s) && w.up && !s.Crash? && !s.Forward? && !s.Resolve? && !s.WaitRun?
    ensures SignalsOrKeeps(w.b, Do(c, w, s).b)
  {
  }

  lemma SectionsSignal(c: Config, w: World, s: Step)
    requires BrokerInv(c, w) && Enabled(c, w, s) && w.up && !s.Crash?
    ensures SignalsOrKeeps(w.b, Do(c, w, s).b)
  {
    match s
    case Forward(task) => AcceptSignals(c, w, task, w.tasks[task].m.origin.sender);
    case Resolve(task, sender) =>
      if sender.Some? {
        AcceptSignals(c, w, task, sender.value);
      }
    case WaitRun(waiter, persist) => WaitSignals(c, w, waiter, persist);
    case _ => OtherSectionsSignal(c, w, s);
  }

  /** Sleepers stay correct when a section signals or keeps, whoever else is added or removed. */
  lemma SleepersKept(w: World, w': World)
    requires forall x :: x in w.waiters ==> MissedNothing(w, w.waiters[x])
    requires SignalsOrKeeps(w.b, w'.b)
    requires forall x :: x in w'.waiters && w'.waiters[x].at.Blocked? ==> x in w.waiters && w'.waiters[x] == w.waiters[x]
    ensures forall x :: x in w'.waiters ==> MissedNothing(w', w'.waiters[x])
  {
    forall x | x in w'.waiters
      ensures MissedNothing(w', w'.waiters[x])
    {
      if w'.waiters[x].at.Blocked? {
        assert MissedNothing(w, w.waiters[x]);
      }
    }
  }

  lemma WaitRunKeepsWaiters(c: Config, w: World, waiter: nat, persist: PersistOutcome)
    requires BrokerInv(c, w) && WaiterInv(w) && w.up && waiter in w.waiters && w.waiters[waiter].at.Ready?
    ensures WaiterInv(WaitRunStep(w, waiter, persist))
  {
    var w' := WaitRunStep(w, waiter, persist);
    WaitSignals(c, w, waiter, persist);
    forall x | x in w'.waiters
      ensures MissedNothing(w', w'.waiters[x])
    {
      assert MissedNothing(w, w.waiters[x]);
    }
  }

  lemma OtherStepsKeepWaiters(c: Config, w: World, s: Step)
    requires BrokerInv(c, w) && WaiterInv(w) && Enabled(c, w, s) && w.up && !s.Crash? && !s.WaitRun?
    requires SignalsOrKeeps(w.b, Effect(c, w, s).b)
    ensures WaiterInv(Effect(c, w, s))
  {
    var w' := Effect(c, w, s);
    MovesOfOthers(c, w, s);
    SleepersKept(w, w');
  }

  /** Outside a round of `wait`, a waiter only wakes, leaves, begins or replies. */
  lemma MovesOfOthers(c: Config, w: World, s: Step)
    requires Enabled(c, w, s) && w.up && !s.Crash? && !s.WaitRun?
    ensures Effect(c, w, s).up && Effect(c, w, s).delivered == w.delivered
    ensures forall x :: x in Effect(c, w, s).waiters && !Effect(c, w, s).waiters[x].at.Ready? ==>
                          x in w.waiters && Effect(c, w, s).waiters[x] == w.waiters[x]
    ensures Effect(c, w, s).handed == w.handed
            || (s.WaitReply? && Effect(c, w, s).handed == w.handed + [w.waiters[s.waiter].at.delivery]
                && Effect(c, w, s).waiters == w.waiters - {s.waiter})
  {
  }

  lemma StepKeepsWaiters(c: Config, w: World, s: Step)
    requires BrokerInv(c, w) && WaiterInv(w)
    ensures WaiterInv(Do(c, w, s))
  {
    if Enabled(c, w, s) && w.up && !s.Crash? {
      SectionsSignal(c, w, s);
      if s.WaitRun? {
        WaitRunKeepsWaiters(c, w, s.waiter, s.persist);
      } else {
        OtherStepsKeepWaiters(c, w, s);
      }
    }
  }

  // ================================================================ whole runs

  ghost predicate Inv(c: Config, w: World) {
    BrokerInv(c, w) && DurableInv(w) && ReachInv(c, w) && WaiterInv(w)
  }

  lemma StepKeepsInv(c: Config, w: World, s: Step)
    requires Inv(c, w)
    ensures Inv(c, Do(c, w, s))
  {
    StepKeepsBroker(c, w, s);
    StepKeepsDurable(c, w, s);
    StepKeepsReach(c, w, s);
    StepKeepsWaiters(c, w, s);
  }

  lemma {:induction false} RunKeepsInv(c: Config, w: World, steps: seq<Step>)
    requires Inv(c, w)
    ensures Inv(c, Run(c, w, steps))
    decreases |steps|
  {
    if steps != [] {
      StepKeepsInv(c, w, steps[0]);
      RunKeepsInv(c, Do(c, w, steps[0]), steps[1..]);
    }
  }

  /**
   * A message hash is handed out at most once in any seven days, whatever the interleaving and however
   * often the process restarts.
   */
  lemma HandedOutAtMostOnce(c: Config, start: World, steps: seq<Step>, i: nat, j: nat)
    requires Initial(c, start)
    requires i < j < |Run(c, start, steps).handed|
    ensures var w := Run(c, start, steps);
            && w.handed[i] < |w.delivered| && w.handed[j] < |w.delivered|
            && var d, e := w.delivered[w.handed[i]], w.delivered[w.handed[j]];
            && d.lease != e.lease
            && (d.hash == e.hash ==> e.at - d.at >= CONSUMED_RETENTION || d.at - e.at >= CONSUMED_RETENTION)
  {
    RunKeepsInv(c, start, steps);
    var w := Run(c, start, steps);
    var k, l := w.handed[i], w.handed[j];
    assert k != l;
    if k < l {
      assert w.delivered[k].lease != w.delivered[l].lease;
    } else {
      assert w.delivered[l].lease != w.delivered[k].lease;
    }
  }

  /**
   * From the moment a code is decided for delivery - so before any reply carries it - its entry is on file
   * until it is seven days old, in every later state of every run. The file stays readable by a restart,
   * and both candidate lists stay within their bound.
   */
  lemma DeliveriesAreDurable(c: Config, start: World, steps: seq<Step>, k: nat)
    requires Initial(c, start)
    requires k < |Run(c, start, steps).delivered|
    ensures var w := Run(c, start, steps);
            w.clock - w.delivered[k].at < CONSUMED_RETENTION ==> Entry(w.delivered[k].hash, w.delivered[k].at) in w.file
  {
    RunKeepsInv(c, start, steps);
    assert OnRecord(Run(c, start, steps), Run(c, start, steps).delivered[k]);
  }

  lemma BoundsHold(c: Config, start: World, steps: seq<Step>)
    requires Initial(c, start)
    ensures var w := Run(c, start, steps);
            && ValidFile(w.file)
            && (w.up ==> |w.b.seen| <= MAX_CONSUMED && |w.b.consumed| <= MAX_CONSUMED)
            && (w.up && w.b.request.Some? ==>
                  w.b.online && !w.b.terminal && !(w.b.request.value.delivered && w.b.request.value.ambiguous))
  {
    RunKeepsInv(c, start, steps);
  }

  /**
   * Every delivered code belongs to the one message that ever reached its lease; that message was parsed by
   * the rule of the lease's provider, came from one of its exact senders, and is dated between arming and
   * one second after its acceptance.
   */
  lemma DeliveredCodeHasOneSource(c: Config, start: World, steps: seq<Step>, k: nat) returns (i: nat)
    requires Initial(c, start)
    requires k < |Run(c, start, steps).delivered|
    ensures var w := Run(c, start, steps);
            var d := w.delivered[k];
            && d.lease in w.leases
            && OnlyReach(w.reached, d.lease, i)
            && var x, armed := w.reached[i], w.leases[d.lease];
            && c.hash(x.m.id) == d.hash && x.code == d.code && SixDigits(d.code)
            && x.provider == armed.provider && HasParser(c, armed.provider)
            && d.code == c.rules[armed.provider].code.value(x.m.text)
            && x.sender in c.rules[armed.provider].senders
            && armed.armedAt <= x.m.at <= x.at + SECOND
            && x.at <= d.at < armed.armedAt + LEASE_DURATION
  {
    RunKeepsInv(c, start, steps);
    var w := Run(c, start, steps);
    var d := w.delivered[k];
    assert ProperDelivery(c, w, d);
    i :| OnlyReach(w.reached, d.lease, i) && c.hash(w.reached[i].m.id) == d.hash && w.reached[i].code == d.code
      && w.reached[i].at <= d.at < w.leases[d.lease].armedAt + LEASE_DURATION;
    assert ProperReach(c, w, w.reached[i]);
  }

  /** A lease that two different messages reach never yields a code, and only such a lease is called ambiguous. */
  lemma AmbiguityMeansTwoMessages(c: Config, start: World, steps: seq<Step>, lease: string)
    requires Initial(c, start)
    ensures var w := Run(c, start, steps);
            && (TwoMessages(c, w.reached, lease) ==> forall k :: 0 <= k < |w.delivered| ==> w.delivered[k].lease != lease)
            && (w.up && w.b.request.Some? && w.b.request.value.id == lease ==>
                  (w.b.request.value.ambiguous <==> TwoMessages(c, w.reached, lease)))
  {
    RunKeepsInv(c, start, steps);
    var w := Run(c, start, steps);
    if TwoMessages(c, w.reached, lease) {
      forall k | 0 <= k < |w.delivered|
        ensures w.delivered[k].lease != lease
      {
        assert ProperDelivery(c, w, w.delivered[k]);
      }
    }
  }

  /** A sleeping waiter whose channel is still open would find its lease pending, unless the lease has expired. */
  lemma NoLostWakeup(c: Config, start: World, steps: seq<Step>, waiter: nat, persist: PersistOutcome)
    requires Initial(c, start)
    requires var w := Run(c, start, steps);
             w.up && waiter in w.waiters && w.waiters[waiter].at.Blocked? && w.waiters[waiter].at.epoch == w.b.epoch
    ensures var w := Run(c, start, steps);
            var x := w.waiters[waiter];
            && w.b.request.Some?
            && WaitRound(w.b, w.file, w.clock, x.provider, x.id, persist)
               == (w.b, w.file, if w.clock < w.b.request.value.expiresAt then WaitPending else WaitGone)
  {
    RunKeepsInv(c, start, steps);
    var w := Run(c, start, steps);
    assert MissedNothing(w, w.waiters[waiter]);
  }

  /** Once the broker has given up, nothing but a new process delivers a code or goes online again. */
  lemma {:induction false} TerminalForever(c: Config, w: World, steps: seq<Step>)
    requires Inv(c, w) && w.up && w.b.terminal
    requires forall i :: 0 <= i < |steps| ==> !steps[i].Crash?
    ensures var w' := Run(c, w, steps);
            w'.up && w'.b.terminal && !w'.b.online && w'.b.request.None? && w'.delivered == w.delivered && w'.leases == w.leases
    decreases |steps|
  {
    if steps != [] {
      StepKeepsInv(c, w, steps[0]);
      TerminalStep(c, w, steps[0]);
      TerminalForever(c, Do(c, w, steps[0]), steps[1..]);
    }
  }

  lemma TerminalSections(c: Config, w: World, task: nat, sender: string, waiter: nat, persist: PersistOutcome)
    requires !w.b.online && w.b.request.None?
    ensures task in w.tasks ==> AcceptTask(c, w, task, sender) == w.(tasks := w.tasks - {task})
    ensures waiter in w.waiters ==> WaitRunStep(w, waiter, persist) == w.(waiters := w.waiters - {waiter})
  {
  }

  lemma TerminalStep(c: Config, w: World, s: Step)
    requires w.up && w.b.terminal && !w.b.online && w.b.request.None? && !s.Crash?
    ensures var w' := Do(c, w, s);
            w'.up && w'.b.terminal && w'.delivered == w.delivered && w'.leases == w.leases
  {
    match s
    case Forward(task) =>
      if Enabled(c, w, s) {
        TerminalSections(c, w, task, w.tasks[task].m.origin.sender, 0, Written);
      }
    case Resolve(task, sender) =>
      if sender.Some? {
        TerminalSections(c, w, task, sender.value, 0, Written);
      }
    case WaitRun(waiter, persist) => TerminalSections(c, w, 0, "", waiter, persist);
    case _ => TerminalOtherStep(c, w, s);
  }

  lemma TerminalOtherStep(c: Config, w: World, s: Step)
    requires w.up && w.b.terminal && !w.b.online && w.b.request.None?
    requires !s.Crash? && !s.Forward? && !s.Resolve? && !s.WaitRun?
    ensures var w' := Do(c, w, s);
            w'.up && w'.b.terminal && w'.delivered == w.delivered && w'.leases == w.leases
  {
  }
}
