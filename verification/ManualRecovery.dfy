/** The recovery object and the process-wide set of provider leases it shares. */
module ManualRecovery {
  import opened Common
  import opened RecoverySteps

  class ProviderLeases {
    var held: set<string>

    constructor ()
      ensures held == {}
    {
      held := {};
    }
  }

  class ManualRecovery {
    const leases: ProviderLeases
    const provider: string
    var current: Status
    var prepared: bool
    var pending: bool
    var timer: bool
    var listening: bool
    var resolved: seq<string>
    var persisted: seq<Status>
    /** How often the owner was asked to abort its collection. */
    var aborts: nat

    ghost function State(): Recovery
      reads this
    {
      Recovery(current, prepared, pending, timer, listening, resolved, persisted)
    }

    /** Field invariant, and: an open recovery holds its provider's lease. */
    ghost predicate Valid()
      reads this, leases
    {
      RecoverySteps.Valid(State()) && (!Terminal(State()) ==> provider in leases.held)
    }

    constructor (leases: ProviderLeases, provider: string, id: string, now: int)
      ensures this.leases == leases && this.provider == provider && State() == Created(id, now) && aborts == 0
    {
      this.leases, this.provider := leases, provider;
      current := Status(id, Starting, Some(now + CHALLENGE_LIFETIME), None);
      prepared, pending, timer, listening, resolved, persisted, aborts := false, false, true, false, [], [], 0;
    }

    /** One recovery per provider at a time. */
    static method CreateManualRecovery(leases: ProviderLeases, provider: string, id: string, now: int) returns (r: ManualRecovery?)
      modifies leases
      ensures r == null <==> provider in old(leases.held)
      ensures r == null ==> leases.held == old(leases.held)
      ensures r != null ==> fresh(r) && r.leases == leases && r.provider == provider && leases.held == old(leases.held) + {provider}
      ensures r != null ==> r.Valid() && r.State() == Created(id, now)
    {
      if provider in leases.held {
        return null;
      }
      leases.held := leases.held + {provider};
      r := new ManualRecovery(leases, provider, id, now);
    }

    method End(state: Phase, errorCode: Option<RecoveryCode>)
      requires TerminalPhase(state)
      modifies this, leases
      ensures State() == RecoverySteps.End(old(State()), state, errorCode) && aborts == old(aborts)
      ensures leases.held == if Terminal(old(State())) then old(leases.held) else old(leases.held) - {provider}
    {
      if TerminalPhase(current.state) {
        return;
      }
      current := current.(state := state, expiresAt := None, errorCode := errorCode);
      timer := false;
      listening := false;
      pending := false;
      leases.held := leases.held - {provider};
      persisted := persisted + [current];
    }

    method TimerFires()
      requires Valid() && timer
      modifies this, leases
      ensures Valid() && State() == TimerFired(old(State())) && aborts == old(aborts) + 1
      ensures leases.held == old(leases.held) - {provider}
    {
      End(Expired, Some(OtpExpired));
      aborts := aborts + 1;
    }

    method Prepare(aborted: bool) returns (ok: bool)
      requires Valid()
      modifies this`prepared
      ensures Valid() && (State(), ok) == RecoverySteps.Prepare(old(State()), aborted)
    {
      if prepared || TerminalPhase(current.state) || aborted {
        return false;
      }
      prepared := true;
      ok := true;
    }

    method Read(aborted: bool) returns (ok: bool)
      requires Valid() && prepared
      modifies this`current, this`pending, this`listening
      ensures Valid() && (State(), ok) == RecoverySteps.Read(old(State()), aborted)
    {
      if current.state != Starting || aborted {
        return false;
      }
      current := current.(state := AwaitingCode);
      pending := true;
      listening := true;
      ok := true;
    }

    method AbortFires()
      requires Valid()
      modifies this, leases
      ensures Valid() && State() == AbortFired(old(State())) && aborts == old(aborts)
      ensures leases.held == if old(listening) then old(leases.held) - {provider} else old(leases.held)
    {
      if listening {
        End(Canceled, Some(RecoveryCanceled));
      }
    }

    method RequestCancel()
      requires Valid()
      modifies this, leases
      ensures Valid() && State() == RequestCanceled(old(State())) && aborts == old(aborts)
      ensures leases.held == if Terminal(State()) && !Terminal(old(State())) then old(leases.held) - {provider} else old(leases.held)
    {
      if current.state.Starting? || current.state.AwaitingCode? {
        End(Failed, Some(OtpRequired));
      }
    }

    method Submit(code: string, now: int) returns (reply: ControlReply)
      requires Valid()
      modifies this, leases
      ensures Valid()
      ensures (State(), reply, aborts > old(aborts)) == RecoverySteps.Submit(old(State()), code, now) && aborts <= old(aborts) + 1
      ensures leases.held == if Terminal(State()) && !Terminal(old(State())) then old(leases.held) - {provider} else old(leases.held)
    {
      if current.expiresAt.Some? && now >= current.expiresAt.value {
        End(Expired, Some(OtpExpired));
        aborts := aborts + 1;
      }
      if current.state.Expired? {
        return ExpiredReply;
      }
      if !current.state.AwaitingCode? || !pending || !SixDigits(code) {
        return NotWaiting;
      }
      pending := false;
      timer := false;
      listening := false;
      current := current.(state := Verifying, expiresAt := None);
      resolved := resolved + [code];
      reply := Shown(current);
    }

    method Cancel() returns (reply: ControlReply)
      requires Valid()
      modifies this, leases
      ensures Valid()
      ensures (State(), reply, aborts > old(aborts)) == RecoverySteps.Cancel(old(State())) && aborts <= old(aborts) + 1
      ensures leases.held == if Terminal(State()) && !Terminal(old(State())) then old(leases.held) - {provider} else old(leases.held)
    {
      if current.state.Expired? {
        return ExpiredReply;
      }
      if TerminalPhase(current.state) && !current.state.Canceled? {
        return NotWaiting;
      }
      End(Canceled, Some(RecoveryCanceled));
      aborts := aborts + 1;
      reply := Shown(current);
    }

    method Finish(success: bool, errorCode: RecoveryCode)
      requires Valid()
      modifies this, leases
      ensures Valid() && State() == RecoverySteps.Finish(old(State()), success, errorCode) && aborts == old(aborts)
      ensures leases.held == if Terminal(old(State())) then old(leases.held) else old(leases.held) - {provider}
    {
      End(if success then Complete else Failed, if success then None else Some(errorCode));
    }
  }
}
