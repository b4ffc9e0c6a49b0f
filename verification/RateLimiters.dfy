/** The two limiters of the investment store. */
module RateLimiters {
  import opened Common
  import opened Limiter

  lemma RecentStep(grants: seq<int>, i: nat, recent: seq<int>, t: int, window: int)
    requires i < |grants|
    ensures recent + Recent(grants[i..], t, window)
         == (if grants[i] > t - window then recent + [grants[i]] else recent) + Recent(grants[i + 1..], t, window)
  {
    assert grants[i..][0] == grants[i] && grants[i..][1..] == grants[i + 1..];
    var rest := Recent(grants[i + 1..], t, window);
    if grants[i] > t - window {
      assert recent + ([grants[i]] + rest) == recent + [grants[i]] + rest;
    } else {
      assert [] + rest == rest;
    }
  }

  class RateLimiters {
    /** Times of automatic SMS requests and of control refreshes, as stored. */
    var sms: seq<int>
    var refreshes: seq<int>

    ghost predicate Valid()
      reads this
    {
      |sms| <= 2 && |refreshes| <= 2
    }

    constructor ()
      ensures Valid() && sms == [] && refreshes == []
    {
      sms, refreshes := [], [];
    }

    static method FilterRecent(grants: seq<int>, t: int, window: int) returns (recent: seq<int>)
      ensures recent == Recent(grants, t, window)
    {
      recent := [];
      var i := 0;
      while i < |grants|
        invariant 0 <= i <= |grants|
        invariant recent + Recent(grants[i..], t, window) == Recent(grants, t, window)
      {
        RecentStep(grants, i, recent, t, window);
        if grants[i] > t - window {
          recent := recent + [grants[i]];
        }
        i := i + 1;
      }
      assert grants[i..] == [];
    }

    method GetAutomaticSmsNextAllowedAt(at: int) returns (next: Option<int>)
      requires Valid()
      // Empty exactly when a request would be granted now, else the first time it will be.
      ensures next.None? <==> Allows(sms, at, SMS_WINDOW)
      ensures next.Some? ==> forall u :: at <= u ==> (Allows(sms, u, SMS_WINDOW) <==> next.value <= u)
    {
      var recent := FilterRecent(sms, at, SMS_WINDOW);
      NextAllowedIsLeast(sms, at, SMS_WINDOW);
      next := if |recent| >= 2 then Some(Earliest(recent) + SMS_WINDOW) else None;
    }

    method ConsumeAutomaticSmsAttempt(at: int) returns (allowed: bool)
      requires Valid()
      modifies this`sms
      ensures Valid() && allowed == Allows(old(sms), at, SMS_WINDOW) && sms == Consume(old(sms), at, SMS_WINDOW)
    {
      var recent := FilterRecent(sms, at, SMS_WINDOW);
      allowed := |recent| < 2;
      if allowed {
        sms := recent + [at];
      }
    }

    method ConsumeControlRefreshAttempt(at: int) returns (allowed: bool, retryAfterSeconds: int)
      requires Valid()
      modifies this`refreshes
      ensures Valid() && allowed == Allows(old(refreshes), at, REFRESH_WINDOW) && refreshes == Consume(old(refreshes), at, REFRESH_WINDOW)
      ensures allowed ==> retryAfterSeconds == 0
      ensures !allowed ==> forall s: nat :: Allows(refreshes, at + 1000 * s, REFRESH_WINDOW) <==> s >= retryAfterSeconds
    {
      var recent := FilterRecent(refreshes, at, REFRESH_WINDOW);
      allowed := |recent| < 2;
      if allowed {
        refreshes := recent + [at];
        retryAfterSeconds := 0;
      } else {
        retryAfterSeconds := CeilSeconds(Earliest(recent) + REFRESH_WINDOW - at);
        forall s: nat ensures Allows(refreshes, at + 1000 * s, REFRESH_WINDOW) <==> s >= retryAfterSeconds {
          RetryAfterIsLeast(refreshes, at, REFRESH_WINDOW, s);
        }
      }
    }
  }
}
