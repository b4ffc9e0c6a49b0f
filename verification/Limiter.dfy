/** A rolling-window limiter that keeps the times of its last grants: at most two in any window. Times are milliseconds. */
module Limiter {
  import opened Common

  const SMS_WINDOW := 86_400_000
  const REFRESH_WINDOW := 60_000

  /** The grants still inside the window at time `t`; later ones stay, whatever the clock says now. */
  function Recent(grants: seq<int>, t: int, window: int): (r: seq<int>)
    ensures |r| <= |grants|
  {
    if grants == [] then []
    else (if grants[0] > t - window then [grants[0]] else []) + Recent(grants[1..], t, window)
  }

  predicate Allows(grants: seq<int>, t: int, window: int) {
    |Recent(grants, t, window)| < 2
  }

  /** A consumption rewrites the list only when it is allowed. */
  function Consume(grants: seq<int>, t: int, window: int): seq<int> {
    if Allows(grants, t, window) then Recent(grants, t, window) + [t] else grants
  }

  function Earliest(grants: seq<int>): (m: int)
    requires grants != []
    ensures m in grants && forall i :: 0 <= i < |grants| ==> m <= grants[i]
  {
    if |grants| == 1 then grants[0]
    else var rest := Earliest(grants[1..]); if grants[0] <= rest then grants[0] else rest
  }

  /** When the limiter allows again; empty when it allows now. */
  function NextAllowed(grants: seq<int>, t: int, window: int): Option<int> {
    if Allows(grants, t, window) then None else Some(Earliest(Recent(grants, t, window)) + window)
  }

  /** Rounding up to whole seconds. */
  function CeilSeconds(milliseconds: int): int {
    (milliseconds + 999) / 1000
  }

  function RetryAfterSeconds(grants: seq<int>, t: int, window: int): int {
    if Allows(grants, t, window) then 0 else CeilSeconds(Earliest(Recent(grants, t, window)) + window - t)
  }

  // ---------------------------------------------------------------- one list

  lemma {:induction false} RecentOfAll(grants: seq<int>, t: int, window: int)
    requires forall i :: 0 <= i < |grants| ==> grants[i] > t - window
    ensures Recent(grants, t, window) == grants
  {
    if grants != [] {
      RecentOfAll(grants[1..], t, window);
    }
  }

  lemma {:induction false} RecentShrinks(grants: seq<int>, earlier: int, later: int, window: int)
    requires earlier <= later
    ensures |Recent(grants, later, window)| <= |Recent(grants, earlier, window)|
  {
    if grants != [] {
      RecentShrinks(grants[1..], earlier, later, window);
    }
  }

  /** A refusal at one time means a refusal at every earlier clock value: setting the clock back wins nothing. */
  lemma DenialsReachBack(grants: seq<int>, earlier: int, later: int, window: int)
    requires earlier <= later && !Allows(grants, later, window)
    ensures !Allows(grants, earlier, window)
  {
    RecentShrinks(grants, earlier, later, window);
  }

  lemma {:induction false} RecentStrict(grants: seq<int>, t: int, window: int, x: int)
    requires x in grants && x <= t - window
    ensures |Recent(grants, t, window)| < |grants|
  {
    if grants[0] != x {
      assert x in grants[1..];
      RecentStrict(grants[1..], t, window, x);
    }
  }

  /** A list of at most two grants refuses at `t` exactly when it has two and both are inside the window. */
  lemma RefusesExactly(grants: seq<int>, t: int, window: int)
    requires |grants| <= 2
    ensures !Allows(grants, t, window) <==> |grants| == 2 && t < Earliest(grants) + window
  {
    if |grants| == 2 {
      if t < Earliest(grants) + window {
        RecentOfAll(grants, t, window);
      } else {
        RecentStrict(grants, t, window, Earliest(grants));
      }
    }
  }

  /** The predicted time is the least one, from now on, at which the limiter allows. */
  lemma NextAllowedIsLeast(grants: seq<int>, t: int, window: int)
    requires |grants| <= 2
    ensures NextAllowed(grants, t, window).None? <==> Allows(grants, t, window)
    ensures NextAllowed(grants, t, window).Some? ==>
              && t < NextAllowed(grants, t, window).value
              && forall u :: t <= u ==> (Allows(grants, u, window) <==> NextAllowed(grants, t, window).value <= u)
  {
    if !Allows(grants, t, window) {
      RefusesExactly(grants, t, window);
      RecentOfAll(grants, t, window);
      forall u | t <= u ensures Allows(grants, u, window) <==> Earliest(grants) + window <= u {
        RefusesExactly(grants, u, window);
      }
    }
  }

  lemma CeilIsLeast(milliseconds: int, seconds: int)
    ensures seconds >= CeilSeconds(milliseconds) <==> 1000 * seconds >= milliseconds
  {
  }

  /** The advertised number of seconds is the least whole number after which the limiter allows. */
  lemma RetryAfterIsLeast(grants: seq<int>, t: int, window: int, seconds: nat)
    requires |grants| <= 2
    ensures Allows(grants, t + 1000 * seconds, window) <==> seconds >= RetryAfterSeconds(grants, t, window)
  {
    RefusesExactly(grants, t, window);
    RefusesExactly(grants, t + 1000 * seconds, window);
    if !Allows(grants, t, window) {
      RecentOfAll(grants, t, window);
      CeilIsLeast(Earliest(grants) + window - t, seconds);
    } else if |grants| == 2 {
      assert t + 1000 * seconds >= t;
    }
  }

  // ---------------------------------------------------------------- runs

  predicate Ascending(times: seq<int>) {
    forall i, j :: 0 <= i < j < |times| ==> times[i] <= times[j]
  }

  /** One question: what it grants, and the state it leaves. */
  function Granted(grants: seq<int>, t: int, window: int): seq<int> {
    if Allows(grants, t, window) then [t] else []
  }

  /** The list and all grants made after asking at each of the times in turn. */
  function Ask(grants: seq<int>, times: seq<int>, window: int): (seq<int>, seq<int>)
    decreases |times|
  {
    if times == [] then (grants, [])
    else
      var rest := Ask(Consume(grants, times[0], window), times[1..], window);
      (rest.0, Granted(grants, times[0], window) + rest.1)
  }

  /** No three grants fall into one window. */
  ghost predicate AtMostTwo(granted: seq<int>, window: int) {
    forall i :: 0 <= i < |granted| - 2 ==> granted[i + 2] >= granted[i] + window
  }

  /** The list holds the latest grants: all but ones that left the window before `now`. */
  ghost predicate Tracks(grants: seq<int>, granted: seq<int>, now: int, window: int) {
    && Ascending(granted) && AtMostTwo(granted, window) && |grants| <= 2 && |grants| <= |granted|
    && grants == granted[|granted| - |grants|..]
    && (forall i :: 0 <= i < |granted| - |grants| ==> granted[i] <= now - window)
    && (forall i :: 0 <= i < |granted| ==> granted[i] <= now)
  }

  lemma {:induction false} RecentIsSuffix(grants: seq<int>, t: int, window: int)
    requires Ascending(grants)
    ensures var r := Recent(grants, t, window);
      r == grants[|grants| - |r|..] && forall i :: 0 <= i < |grants| - |r| ==> grants[i] <= t - window
  {
    if grants != [] {
      RecentIsSuffix(grants[1..], t, window);
      if grants[0] > t - window {
        RecentOfAll(grants, t, window);
      } else {
        var r := Recent(grants, t, window);
        forall i | 0 <= i < |grants| - |r| ensures grants[i] <= t - window {
          assert i > 0 ==> grants[i] == grants[1..][i - 1];
        }
      }
    }
  }

  lemma SuffixAscends(granted: seq<int>, grants: seq<int>)
    requires Ascending(granted) && |grants| <= |granted| && grants == granted[|granted| - |grants|..]
    ensures Ascending(grants)
  {
  }

  /** After looking at time `t`, what is still recent is a suffix, and everything before it left the window. */
  lemma LookTracks(grants: seq<int>, granted: seq<int>, now: int, t: int, window: int)
    requires Tracks(grants, granted, now, window) && now <= t
    ensures Tracks(Recent(grants, t, window), granted, t, window)
  {
    SuffixAscends(granted, grants);
    RecentIsSuffix(grants, t, window);
    var n := |granted| - |grants|;
    var r := Recent(grants, t, window);
    assert r == granted[|granted| - |r|..];
    forall i | 0 <= i < |granted| - |r| ensures granted[i] <= t - window {
      if i >= n {
        assert granted[i] == grants[i - n];
      }
    }
  }

  lemma GrantTracks(recent: seq<int>, granted: seq<int>, t: int, window: int)
    requires Tracks(recent, granted, t, window) && |recent| < 2
    ensures Tracks(recent + [t], granted + [t], t, window)
  {
    var after := granted + [t];
    assert recent + [t] == after[|after| - |recent| - 1..];
    forall i | 0 <= i < |after| - 2 ensures after[i + 2] >= after[i] + window {
      if i + 2 < |granted| {
        assert granted[i + 2] >= granted[i] + window;
      }
    }
  }

  lemma AskStep(grants: seq<int>, granted: seq<int>, times: seq<int>, window: int)
    requires times != []
    ensures granted + Ask(grants, times, window).1
         == granted + Granted(grants, times[0], window) + Ask(Consume(grants, times[0], window), times[1..], window).1
  {
    hide Allows, Consume;
  }

  lemma ConsumeTracks(grants: seq<int>, granted: seq<int>, now: int, t: int, window: int)
    requires Tracks(grants, granted, now, window) && now <= t
    ensures Tracks(Consume(grants, t, window), granted + Granted(grants, t, window), t, window)
  {
    if Allows(grants, t, window) {
      LookTracks(grants, granted, now, t, window);
      GrantTracks(Recent(grants, t, window), granted, t, window);
    } else {
      DeniedTracks(grants, granted, now, t, window);
      assert granted + [] == granted;
    }
  }

  lemma {:induction false} AskTracks(grants: seq<int>, granted: seq<int>, now: int, times: seq<int>, window: int)
    requires Tracks(grants, granted, now, window)
    requires Ascending(times) && (times != [] ==> now <= times[0])
    ensures AtMostTwo(granted + Ask(grants, times, window).1, window)
    decreases |times|
  {
    if times == [] {
      assert granted + [] == granted;
    } else {
      hide Tracks, AtMostTwo, Granted, Consume, Recent;
      ConsumeTracks(grants, granted, now, times[0], window);
      AskStep(grants, granted, times, window);
      AskTracks(Consume(grants, times[0], window), granted + Granted(grants, times[0], window), times[0], times[1..], window);
    }
  }

  lemma DeniedTracks(grants: seq<int>, granted: seq<int>, now: int, t: int, window: int)
    requires Tracks(grants, granted, now, window) && now <= t && !Allows(grants, t, window)
    ensures Tracks(grants, granted, t, window)
  {
    RefusesExactly(grants, t, window);
    RecentOfAll(grants, t, window);
    LookTracks(grants, granted, now, t, window);
  }

  /** With a clock that never goes back, any window holds at most two grants. */
  lemma WindowHoldsTwo(times: seq<int>, window: int)
    requires Ascending(times)
    ensures AtMostTwo(Ask([], times, window).1, window)
  {
    AskTracks([], [], if times == [] then 0 else times[0], times, window);
    assert [] + Ask([], times, window).1 == Ask([], times, window).1;
  }

  /** Why the clock must not go back: jumping forward forgets old grants, and jumping back then allows a third at the old time. */
  lemma ClockJumpReplenishes(window: int)
    requires window > 0
    ensures Ask([], [0, 0, 2 * window, 0], window).1 == [0, 0, 2 * window, 0]
  {
    var w := 2 * window;
    assert Consume([], 0, window) == [0];
    assert Recent([0], 0, window) == [0];
    assert Consume([0], 0, window) == [0, 0];
    assert Recent([0, 0], w, window) == [] by {
      assert [0, 0][1..] == [0];
      assert Recent([0], w, window) == [];
    }
    assert Consume([0, 0], w, window) == [w];
    assert Recent([w], 0, window) == [w];
    var times := [0, 0, w, 0];
    assert times[1..] == [0, w, 0] && times[1..][1..] == [w, 0] && [w, 0][1..] == [0] && [0][1..] == [];
    assert Ask([w], [0], window).1 == [0];
    assert Ask([0, 0], [w, 0], window).1 == [w, 0];
    assert Ask([0], [0, w, 0], window).1 == [0, w, 0];
  }
}
