/** The broker object: each method carries out one critical section of `OtpLease` on mutable fields. */
module OtpBroker {
  import opened Common
  import opened OtpLease

  class Lease {
    const id: string
    const provider: string
    const armedAt: int
    const expiresAt: int
    var code: string
    var messageHash: string
    var delivered: bool
    var ambiguous: bool

    ghost function View(): LeaseView
      reads this
    {
      LeaseView(id, provider, armedAt, expiresAt, code, messageHash, delivered, ambiguous)
    }

    constructor (id: string, provider: string, armedAt: int, expiresAt: int)
      ensures View() == LeaseView(id, provider, armedAt, expiresAt, "", "", false, false)
    {
      this.id, this.provider, this.armedAt, this.expiresAt := id, provider, armedAt, expiresAt;
      code, messageHash, delivered, ambiguous := "", "", false, false;
    }
  }

  class Broker {
    const config: Config
    var online: bool
    var health: string
    var terminal: bool
    var request: Lease?
    var epoch: nat
    var seen: map<string, int>
    var consumed: seq<Entry>
    /** The private file of consumed hashes. */
    var file: seq<Entry>

    ghost function State(): BrokerState
      reads this, request
    {
      BrokerState(online, health, terminal, if request == null then None else Some(request.View()), epoch, seen, consumed)
    }

    constructor (config: Config, consumed: seq<Entry>)
      ensures State() == InitialState(consumed) && file == consumed && this.config == config
    {
      this.config, this.consumed, file := config, consumed, consumed;
      online, health, terminal, request, epoch, seen := false, "connecting", false, null, 0, map[];
    }

    /** Only a missing file may stand for an empty consumed list; damaged contents refuse to start. */
    static method NewBroker(config: Config, read: FileRead) returns (b: Broker?)
      ensures b == null <==> read.Unreadable? || (read.Contents? && !ValidFile(read.entries))
      ensures b != null ==> fresh(b) && b.config == config
      ensures b != null ==> b.State() == InitialState(if read.Missing? then [] else read.entries) && b.file == b.consumed
    {
      if read.Unreadable? {
        return null;
      }
      var entries := if read.Missing? then [] else read.entries;
      if |entries| > MAX_CONSUMED {
        return null;
      }
      for i := 0 to |entries|
        invariant forall j :: 0 <= j < i ==> |entries[j].hash| == 64 && entries[j].at != ZERO_TIME
      {
        if |entries[i].hash| != 64 || entries[i].at == ZERO_TIME {
          return null;
        }
      }
      b := new Broker(config, entries);
    }

    method SignalLocked()
      modifies this`epoch
      ensures State() == Signal(old(State()))
    {
      epoch := epoch + 1;
    }

    method SetHealth(online: bool, state: string)
      modifies this`online, this`health, this`terminal, this`request, this`epoch
      ensures State() == OtpLease.SetHealth(old(State()), online, state)
      ensures request == old(request) || request == null
    {
      if terminal && state != "stopping" {
        return;
      }
      if TerminalHealth(state) {
        terminal := true;
      }
      this.online, health := online, state;
      if !online {
        request := null;
      }
      SignalLocked();
    }

    method GiveUpLocked(state: string)
      modifies this`online, this`health, this`terminal, this`request, this`epoch
      ensures State() == GiveUp(old(State()), state) && request == null
    {
      terminal, online, health, request := true, false, state, null;
      SignalLocked();
    }

    /** Drop candidate hashes noted more than ten minutes ago. */
    method EvictSeen(now: int)
      modifies this`seen
      ensures seen == Recent(old(seen), now)
    {
      var keys := seen.Keys;
      while keys != {}
        invariant keys <= old(seen).Keys
        invariant forall h :: h in seen <==> h in old(seen) && (h in keys || now - old(seen)[h] <= SEEN_RETENTION)
        invariant forall h :: h in seen ==> seen[h] == old(seen)[h]
        decreases |keys|
      {
        var key :| key in keys;
        if now - seen[key] > SEEN_RETENTION {
          seen := seen - {key};
        }
        keys := keys - {key};
      }
    }

    method AlreadyConsumed(hash: string) returns (found: bool)
      ensures found <==> IsConsumed(consumed, hash)
    {
      for i := 0 to |consumed|
        invariant forall j :: 0 <= j < i ==> consumed[j].hash != hash
      {
        if consumed[i].hash == hash {
          return true;
        }
      }
      return false;
    }

    method Accept(now: int, provider: string, id: string, sender: string, code: string, timestamp: int)
      modifies this, request
      ensures State() == OtpLease.Accept(config, old(State()), now, provider, id, sender, code, timestamp)
      ensures request == old(request) || request == null
      ensures file == old(file)
    {
      var hash := config.hash(id);
      if !HasParser(config, provider) || request == null || request.provider != provider {
        return;
      }
      if id == "" || sender !in config.rules[provider].senders || !SixDigits(code) {
        return;
      }
      if hash in seen {
        return;
      }
      EvictSeen(now);
      if |seen| >= MAX_CONSUMED {
        GiveUpLocked("capacity_exceeded");
        return;
      }
      seen := seen[hash := now];
      var used := AlreadyConsumed(hash);
      if used {
        return;
      }
      var r := request;
      if !online || r.delivered || r.ambiguous || now >= r.expiresAt || timestamp == ZERO_TIME
         || timestamp < r.armedAt || timestamp > now + SECOND {
        return;
      }
      if r.messageHash != "" && r.messageHash != hash {
        r.code := "";
        r.ambiguous := true;
        SignalLocked();
        return;
      }
      r.code, r.messageHash := code, hash;
      SignalLocked();
    }

    method ArmSection(now: int, provider: string, random: Option<string>) returns (reply: ArmReply)
      modifies this`request, this`epoch
      ensures (State(), reply) == Arm(old(State()), now, provider, random)
      ensures request == old(request) || fresh(request)
    {
      if !online {
        return ArmUnavailable;
      }
      if request != null && now < request.expiresAt {
        return ArmActive;
      }
      if random.None? {
        return ArmUnavailable;
      }
      request := new Lease(random.value, provider, now, now + LEASE_DURATION);
      SignalLocked();
      reply := Armed(LeaseView(request.id, provider, request.armedAt, request.expiresAt, "", "", false, false));
    }

    method CancelSection(provider: string, id: string)
      modifies this`request, this`epoch
      ensures State() == Cancel(old(State()), provider, id)
      ensures request == old(request) || request == null
    {
      if request != null && request.provider == provider && request.id == id {
        request := null;
        SignalLocked();
      }
    }

    method Persist(entries: seq<Entry>, outcome: PersistOutcome) returns (ok: bool)
      modifies this`file
      ensures ok <==> outcome.Written?
      ensures file == if outcome.FailedBefore? then old(file) else entries
    {
      if !outcome.FailedBefore? {
        file := entries;
      }
      ok := outcome.Written?;
    }

    method WaitSection(now: int, provider: string, id: string, persist: PersistOutcome) returns (outcome: WaitOutcome)
      modifies this, request
      ensures (State(), file, outcome) == WaitRound(old(State()), old(file), now, provider, id, persist)
      ensures request == old(request) || request == null
    {
      var r := request;
      if !online {
        return WaitUnavailable;
      }
      if r == null || r.provider != provider || r.id != id || now >= r.expiresAt || r.delivered {
        return WaitGone;
      }
      if r.ambiguous {
        return WaitAmbiguous;
      }
      if r.code != "" {
        var kept := [];
        for i := 0 to |consumed|
          invariant Kept(consumed, now) == kept + Kept(consumed[i..], now)
        {
          if now - consumed[i].at < CONSUMED_RETENTION {
            kept := kept + [consumed[i]];
          }
        }
        assert kept == Kept(consumed, now);
        if |kept| >= MAX_CONSUMED {
          return WaitUnavailable;
        }
        kept := kept + [Entry(r.messageHash, now)];
        var ok := Persist(kept, persist);
        if !ok {
          GiveUpLocked("state_write_failed");
          return WaitUnavailable;
        }
        consumed := kept;
        var code := r.code;
        r.code := "";
        r.delivered := true;
        return WaitCode(r.id, code, r.expiresAt);
      }
      return WaitPending;
    }

    method PerformOp(op: Op)
      modifies this, request
      ensures (State(), file) == Perform(config, old(State()), old(file), op)
      ensures request == old(request) || request == null || fresh(request)
    {
      match op
      case HealthOp(online, state) => SetHealth(online, state);
      case AcceptOp(now, provider, id, sender, code, timestamp) => Accept(now, provider, id, sender, code, timestamp);
      case ArmOp(now, provider, random) => var _ := ArmSection(now, provider, random);
      case CancelOp(provider, id) => CancelSection(provider, id);
      case WaitOp(now, provider, id, persist) => var _ := WaitSection(now, provider, id, persist);
    }

    method PerformOps(ops: seq<Op>)
      modifies this, request
      ensures (State(), file) == PerformAll(config, old(State()), old(file), ops)
      ensures request == old(request) || request == null || fresh(request)
    {
      for i := 0 to |ops|
        invariant PerformAll(config, old(State()), old(file), ops) == PerformAll(config, State(), file, ops[i..])
        invariant request == old(request) || request == null || fresh(request)
      {
        assert ops[i..][0] == ops[i] && ops[i..][1..] == ops[i + 1..];
        PerformOp(ops[i]);
      }
    }

    /** The long poll: lock, look, and sleep until the client leaves, the timer fires or something changed. */
    method Wait(provider: string, id: string, rounds: seq<Round>) returns (reply: WaitReply)
      modifies this, request
      ensures (State(), file, reply) == WaitLoop(config, old(State()), old(file), provider, id, rounds)
    {
      ghost var result := WaitLoop(config, State(), file, provider, id, rounds);
      for i := 0 to |rounds|
        invariant WaitLoop(config, State(), file, provider, id, rounds[i..]) == result
        invariant request == old(request) || request == null || fresh(request)
      {
        assert rounds[i..][0] == rounds[i] && rounds[i..][1..] == rounds[i + 1..];
        var outcome := WaitSection(rounds[i].now, provider, id, rounds[i].persist);
        if !outcome.WaitPending? {
          return Answered(outcome);
        }
        match rounds[i].wake
        case Disconnected => return NoReply;
        case TimedOut => return Answered(WaitPending);
        case Changed(others) => PerformOps(others);
      }
      reply := StillPending;
    }
  }
}
