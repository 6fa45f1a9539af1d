/** The sliding-window rate limit: a pruned list of timestamps against the full history of grants. */
module RateSpec {
  // The grants that are younger than the window at time now.
  function InWindow(grants: seq<real>, now: real, window: real): seq<real> {
    if grants == [] then []
    else
      var earlier, last := InWindow(grants[..|grants| - 1], now, window), grants[|grants| - 1];
      if now - last < window then earlier + [last] else earlier
  }

  // ---- the machine: prune, then compare, then append -------------------------------------------

  datatype Outcome = Outcome(stamps: seq<real>, granted: bool)

  function Checked(stamps: seq<real>, max: int, window: real, now: real): Outcome {
    var recent := InWindow(stamps, now, window);
    if |recent| >= max then Outcome(recent, false) else Outcome(recent + [now], true)
  }

  // The pruned list after a sequence of requests.
  function Stamps(requests: seq<real>, max: int, window: real): seq<real> {
    if requests == [] then []
    else Checked(Stamps(requests[..|requests| - 1], max, window), max, window, requests[|requests| - 1]).stamps
  }

  // ---- the rule over the full history ----------------------------------------------------------

  predicate Grantable(grants: seq<real>, max: int, window: real, now: real) {
    |InWindow(grants, now, window)| < max
  }

  // Every grant ever given.
  function Grants(requests: seq<real>, max: int, window: real): seq<real> {
    if requests == [] then []
    else
      var earlier, now := Grants(requests[..|requests| - 1], max, window), requests[|requests| - 1];
      if Grantable(earlier, max, window, now) then earlier + [now] else earlier
  }

  predicate Clocked(times: seq<real>) {
    forall i, j :: 0 <= i < j < |times| ==> times[i] <= times[j]
  }

  predicate NotBefore(times: seq<real>, now: real) {
    forall i :: 0 <= i < |times| ==> times[i] <= now
  }

  // ---- refinement ------------------------------------------------------------------------------

  lemma {:induction false} WindowAppend(grants: seq<real>, t: real, now: real, window: real)
    ensures InWindow(grants + [t], now, window)
      == if now - t < window then InWindow(grants, now, window) + [t] else InWindow(grants, now, window)
  {
    assert (grants + [t])[..|grants|] == grants;
  }

  // Pruning early loses nothing that a later window would contain.
  lemma {:induction false} PruneTwice(grants: seq<real>, now: real, later: real, window: real)
    requires now <= later
    ensures InWindow(InWindow(grants, now, window), later, window) == InWindow(grants, later, window)
  {
    if grants == [] {
    } else {
      var front, last := grants[..|grants| - 1], grants[|grants| - 1];
      PruneTwice(front, now, later, window);
      if now - last < window {
        WindowAppend(InWindow(front, now, window), last, later, window);
      }
    }
  }

  lemma {:induction false} StampsMirrorGrants(requests: seq<real>, max: int, window: real, now: real)
    requires Clocked(requests) && NotBefore(requests, now)
    ensures InWindow(Stamps(requests, max, window), now, window) == InWindow(Grants(requests, max, window), now, window)
  {
    if requests == [] {
    } else {
      var earlier, t := requests[..|requests| - 1], requests[|requests| - 1];
      var stamps, grants := Stamps(earlier, max, window), Grants(earlier, max, window);
      StampsMirrorGrants(earlier, max, window, now);
      StampsMirrorGrants(earlier, max, window, t);
      PruneTwice(stamps, t, now, window);
      WindowAppend(InWindow(stamps, t, window), t, now, window);
      WindowAppend(grants, t, now, window);
    }
  }

  // A request is granted exactly when fewer than max grants of the whole history lie in its window.
  lemma {:induction false} CheckRefines(requests: seq<real>, max: int, window: real, now: real)
    requires Clocked(requests) && NotBefore(requests, now)
    ensures Checked(Stamps(requests, max, window), max, window, now).granted
      <==> Grantable(Grants(requests, max, window), max, window, now)
    ensures Stamps(requests + [now], max, window) == Checked(Stamps(requests, max, window), max, window, now).stamps
    ensures Clocked(requests + [now])
  {
    StampsMirrorGrants(requests, max, window, now);
    assert (requests + [now])[..|requests|] == requests;
  }

  // ---- safety ----------------------------------------------------------------------------------

  // The number of grants in the window (end - window, end].
  function CountUpTo(grants: seq<real>, end: real, window: real): nat {
    if grants == [] then 0
    else
      var last := grants[|grants| - 1];
      CountUpTo(grants[..|grants| - 1], end, window) + if end - window < last <= end then 1 else 0
  }

  lemma {:induction false} CountIsInWindow(grants: seq<real>, t: real, end: real, window: real)
    requires NotBefore(grants, t) && t <= end
    ensures CountUpTo(grants, end, window) <= |InWindow(grants, t, window)|
  {
    if grants == [] {
    } else {
      CountIsInWindow(grants[..|grants| - 1], t, end, window);
    }
  }

  lemma {:induction false} GrantsAreRequests(requests: seq<real>, max: int, window: real, now: real)
    requires NotBefore(requests, now)
    ensures NotBefore(Grants(requests, max, window), now)
  {
    if requests == [] {
    } else {
      GrantsAreRequests(requests[..|requests| - 1], max, window, now);
    }
  }

  // The grants in the window (end - window, end], by position.
  ghost function Within(grants: seq<real>, end: real, window: real): set<nat> {
    set i: nat | i < |grants| && end - window < grants[i] <= end
  }

  lemma WithinGrows(grants: seq<real>, end: real, window: real)
    requires grants != []
    ensures var n: nat := |grants| - 1;
      && n !in Within(grants[..n], end, window)
      && Within(grants, end, window)
        == Within(grants[..n], end, window) + if end - window < grants[n] <= end then {n} else {}
  {
  }

  lemma {:induction false} CountIsNumber(grants: seq<real>, end: real, window: real)
    ensures CountUpTo(grants, end, window) == |Within(grants, end, window)|
  {
    if grants == [] {
      assert Within(grants, end, window) == {};
    } else {
      CountIsNumber(grants[..|grants| - 1], end, window);
      WithinGrows(grants, end, window);
      hide Within;
    }
  }

  lemma {:induction false} InWindowCounts(grants: seq<real>, now: real, window: real)
    requires NotBefore(grants, now)
    ensures |InWindow(grants, now, window)| == CountUpTo(grants, now, window)
  {
    if grants == [] {
    } else {
      InWindowCounts(grants[..|grants| - 1], now, window);
    }
  }

  // And nothing is refused without need: after any run a request is granted exactly when fewer than max grants lie
  // in the window that ends with it.
  lemma GrantedExactly(requests: seq<real>, max: int, window: real, now: real)
    requires NotBefore(requests, now)
    ensures var grants := Grants(requests, max, window);
      Grants(requests + [now], max, window)
        == if |Within(grants, now, window)| < max then grants + [now] else grants
  {
    hide Within, CountUpTo, InWindow;
    var grants := Grants(requests, max, window);
    GrantsAreRequests(requests, max, window, now);
    InWindowCounts(grants, now, window);
    CountIsNumber(grants, now, window);
    assert (requests + [now])[..|requests|] == requests;
  }

  // Over every run, no window anywhere on the time line ever contains more than max grants.
  lemma NoWindowOverfull(requests: seq<real>, max: int, window: real, end: real)
    requires Clocked(requests)
    ensures |Within(Grants(requests, max, window), end, window)| <= if max > 0 then max else 0
  {
    hide Within, CountUpTo, Grants;
    NoWindowOvercounted(requests, max, window, end);
    CountIsNumber(Grants(requests, max, window), end, window);
  }

  lemma {:induction false} NoWindowOvercounted(requests: seq<real>, max: int, window: real, end: real)
    requires Clocked(requests)
    ensures CountUpTo(Grants(requests, max, window), end, window) <= if max > 0 then max else 0
  {
    if requests == [] {
    } else {
      var earlier, t := requests[..|requests| - 1], requests[|requests| - 1];
      var grants := Grants(earlier, max, window);
      NoWindowOvercounted(earlier, max, window, end);
      GrantsAreRequests(earlier, max, window, t);
      if Grantable(grants, max, window, t) {
        assert (grants + [t])[..|grants|] == grants;
        if t <= end {
          CountIsInWindow(grants, t, end, window);
        }
      }
    }
  }
}

/** The part of the provider manager that keeps the timestamp lists. */
module RateLimiter {
  import opened RateSpec

  datatype Limit = Limit(maxRequests: int, windowSeconds: int)

  class Limiter {
    const enabled: bool
    const limitOf: string -> Limit
    var rateLimits: map<string, seq<real>>
    // The limited requests so far, per provider.
    ghost var requests: map<string, seq<real>>

    ghost predicate Valid()
      reads this
    {
      && rateLimits.Keys == requests.Keys
      && forall p :: p in requests ==>
           && Clocked(requests[p])
           && rateLimits[p] == Stamps(requests[p], limitOf(p).maxRequests, limitOf(p).windowSeconds as real)
    }

    ghost function RequestsOf(provider: string): seq<real>
      reads this
    {
      if provider in requests then requests[provider] else []
    }

    constructor (enabled: bool, limitOf: string -> Limit)
      ensures Valid() && requests == map[] && this.enabled == enabled && this.limitOf == limitOf
    {
      this.enabled, this.limitOf := enabled, limitOf;
      rateLimits, requests := map[], map[];
    }

    method Prune(stamps: seq<real>, now: real, window: real) returns (recent: seq<real>)
      ensures recent == InWindow(stamps, now, window)
    {
      recent := [];
      for i := 0 to |stamps|
        invariant recent == InWindow(stamps[..i], now, window)
      {
        assert stamps[..i + 1] == stamps[..i] + [stamps[i]];
        WindowAppend(stamps[..i], stamps[i], now, window);
        if now - stamps[i] < window {
          recent := recent + [stamps[i]];
        }
      }
      assert stamps[..|stamps|] == stamps;
    }

    method CheckRateLimit(provider: string, now: real) returns (allowed: bool)
      requires Valid() && NotBefore(RequestsOf(provider), now)
      modifies this
      ensures Valid()
      ensures !enabled || limitOf(provider) == Limit(0, 0) ==> allowed && requests == old(requests)
      ensures enabled && limitOf(provider) != Limit(0, 0) ==>
        var max, window := limitOf(provider).maxRequests, limitOf(provider).windowSeconds as real;
        && requests == old(requests)[provider := old(RequestsOf(provider)) + [now]]
        && (allowed <==> Grantable(Grants(old(RequestsOf(provider)), max, window), max, window, now))
    {
      if !enabled || (limitOf(provider).maxRequests == 0 && limitOf(provider).windowSeconds == 0) {
        return true;
      }
      var max, window := limitOf(provider).maxRequests, limitOf(provider).windowSeconds as real;
      var timestamps := if provider in rateLimits then rateLimits[provider] else [];
      ghost var earlier := RequestsOf(provider);
      CheckRefines(earlier, max, window, now);
      timestamps := Prune(timestamps, now, window);
      if |timestamps| >= max {
        allowed := false;
      } else {
        timestamps := timestamps + [now];
        allowed := true;
      }
      rateLimits := rateLimits[provider := timestamps];
      requests := requests[provider := earlier + [now]];
    }
  }
}
