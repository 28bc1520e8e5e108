/** The two sliding-window rate limiters: 30 discovery requests per host and hour
    (pkg/server/handlers.go:2318-2367) and 10 automatic registrations per address and hour
    (pkg/server/ssh.go:497-539).  They keep the times of accepted requests and prune old ones. */
module RateLimits {
  import opened Sets
  import opened Wrappers

  /** One hour in milliseconds. */
  const WINDOW := 3600000
  const MAX_DISCOVERY_REQUESTS := 30
  const MAX_REGISTRATIONS := 10

  /** The times strictly after `cutoff`, in order. */
  function After(times: seq<int>, cutoff: int): seq<int> {
    if times == [] then []
    else
      var n := |times| - 1;
      After(times[..n], cutoff) + if times[n] > cutoff then [times[n]] else []
  }

  // What is left of some times, stated on the elements.

  ghost predicate Increasing(from: seq<nat>) {
    forall k, m :: 0 <= k < m < |from| ==> from[k] < from[m]
  }

  /** `kept` are the times above the cutoff and no others, in the order they had: `from` tells the
      place of each. */
  ghost predicate Sifted(times: seq<int>, cutoff: int, kept: seq<int>, from: seq<nat>) {
    && |from| == |kept| && Increasing(from)
    && (forall k :: 0 <= k < |kept| ==> from[k] < |times| && kept[k] == times[from[k]])
    && (forall i: nat :: i < |times| ==> (i in from <==> times[i] > cutoff))
  }

  ghost predicate SiftedTo(times: seq<int>, cutoff: int, kept: seq<int>) {
    exists from :: Sifted(times, cutoff, kept, from)
  }

  lemma SiftSkip(times: seq<int>, n: nat, cutoff: int, kept: seq<int>, from: seq<nat>)
    requires n + 1 == |times| && times[n] <= cutoff && Sifted(times[..n], cutoff, kept, from)
    ensures Sifted(times, cutoff, kept, from)
  {
    assert forall i: nat :: i < n ==> times[..n][i] == times[i];
    assert forall k :: 0 <= k < |from| ==> from[k] < n;
  }

  lemma SiftTake(times: seq<int>, n: nat, cutoff: int, kept: seq<int>, from: seq<nat>)
    requires n + 1 == |times| && times[n] > cutoff && Sifted(times[..n], cutoff, kept, from)
    ensures Sifted(times, cutoff, kept + [times[n]], from + [n])
  {
    var more, places := kept + [times[n]], from + [n];
    assert forall i: nat :: i in places <==> i in from || i == n;
    forall k | 0 <= k < |more| ensures places[k] < |times| && more[k] == times[places[k]] {
      if k < |kept| {
        assert from[k] < n && kept[k] == times[..n][from[k]];
      }
    }
    forall k, m | 0 <= k < m < |places| ensures places[k] < places[m] {
      assert from[k] < n;
    }
    forall i: nat | i < |times| ensures i in places <==> times[i] > cutoff {
      if i < n {
        assert times[..n][i] == times[i];
      }
    }
  }

  lemma {:induction false} AfterSifts(times: seq<int>, cutoff: int)
    ensures SiftedTo(times, cutoff, After(times, cutoff))
  {
    if times == [] {
      assert Sifted([], cutoff, [], []);
    } else {
      hide Sifted;
      var n: nat := |times| - 1;
      AfterSifts(times[..n], cutoff);
      var before := After(times[..n], cutoff);
      var from :| Sifted(times[..n], cutoff, before, from);
      if times[n] > cutoff {
        SiftTake(times, n, cutoff, before, from);
      } else {
        SiftSkip(times, n, cutoff, before, from);
        assert before + [] == before;
      }
    }
  }

  lemma {:induction false} AfterCounts(times: seq<int>, cutoff: int)
    ensures |After(times, cutoff)| == |set i: nat | i < |times| && times[i] > cutoff|
  {
    var all := set i: nat | i < |times| && times[i] > cutoff;
    if times == [] {
      assert all == {};
    } else {
      var n: nat := |times| - 1;
      AfterCounts(times[..n], cutoff);
      var some := set i: nat | i < n && times[..n][i] > cutoff;
      assert forall i: nat :: i < n ==> times[..n][i] == times[i];
      assert all == some + if times[n] > cutoff then {n} else {};
    }
  }

  /** The table of a limiter: the times still kept for each client. */
  type Kept = map<string, seq<int>>

  function TimesOf(kept: Kept, client: string): seq<int> {
    if client in kept then kept[client] else []
  }

  datatype Request = Request(client: string, at: int)

  predicate Allows(kept: Kept, q: Request, limit: nat) {
    |After(TimesOf(kept, q.client), q.at - WINDOW)| < limit
  }

  function Step(kept: Kept, q: Request, limit: nat): Kept {
    var recent := After(TimesOf(kept, q.client), q.at - WINDOW);
    kept[q.client := if Allows(kept, q, limit) then recent + [q.at] else recent]
  }

  /** What one request does to a table: it passes exactly when fewer than `limit` of the client's
      times are less than an hour old; those stay, in order, and a request that passes adds its
      own.  Other clients' times stay as they are. */
  ghost predicate Limited(was: Kept, client: string, now: int, limit: nat, ok: bool, kept: Kept) {
    var times := if client in was then was[client] else [];
    && (ok <==> |set i: nat | i < |times| && times[i] > now - 3600000| < limit)
    && kept.Keys == was.Keys + {client}
    && (forall other :: other in was && other != client ==> kept[other] == was[other])
    && (ok ==> kept[client] != [] && kept[client][|kept[client]| - 1] == now)
    && SiftedTo(times, now - 3600000, if ok then kept[client][..|kept[client]| - 1] else kept[client])
  }

  lemma StepLimits(was: Kept, client: string, now: int, limit: nat)
    ensures Limited(was, client, now, limit, Allows(was, Request(client, now), limit),
                    Step(was, Request(client, now), limit))
  {
    hide After;
    var times := TimesOf(was, client);
    AfterCounts(times, now - WINDOW);
    AfterSifts(times, now - WINDOW);
    hide SiftedTo;
    var recent := After(times, now - WINDOW);
    assert (recent + [now])[..|recent|] == recent;
  }

  lemma StepIs(was: Kept, client: string, now: int, limit: nat)
    ensures var recent := After(TimesOf(was, client), now - WINDOW);
      && (Allows(was, Request(client, now), limit) <==> |recent| < limit)
      && Step(was, Request(client, now), limit) == was[client := if |recent| < limit then recent + [now] else recent]
  {
    hide After, TimesOf;
  }

  // ---------------------------------------------------------------- whole runs

  function Run(qs: seq<Request>, limit: nat): Kept {
    if qs == [] then map[] else Step(Run(qs[..|qs| - 1], limit), qs[|qs| - 1], limit)
  }

  /** Whether the last request of a run is accepted. */
  predicate Accepted(qs: seq<Request>, limit: nat)
    requires qs != []
  {
    Allows(Run(qs[..|qs| - 1], limit), qs[|qs| - 1], limit)
  }

  /** The times of all the accepted requests of a client, never pruned. */
  function History(qs: seq<Request>, limit: nat, client: string): seq<int> {
    if qs == [] then []
    else
      var q := qs[|qs| - 1];
      History(qs[..|qs| - 1], limit, client) + if q.client == client && Accepted(qs, limit) then [q.at] else []
  }

  /** The clock does not run backwards. */
  ghost predicate NonDecreasing(qs: seq<Request>) {
    forall i, j :: 0 <= i < j < |qs| ==> qs[i].at <= qs[j].at
  }

  lemma {:induction false} AfterAppend(a: seq<int>, b: seq<int>, cutoff: int)
    ensures After(a + b, cutoff) == After(a, cutoff) + After(b, cutoff)
    decreases |b|
  {
    if b == [] {
      assert a + b == a;
    } else {
      var n := |b| - 1;
      assert (a + b)[..|a| + n] == a + b[..n];
      AfterAppend(a, b[..n], cutoff);
    }
  }

  lemma {:induction false} AfterTwice(times: seq<int>, low: int, high: int)
    requires low <= high
    ensures After(After(times, low), high) == After(times, high)
    ensures |After(times, high)| <= |After(times, low)|
  {
    if times != [] {
      var n := |times| - 1;
      AfterTwice(times[..n], low, high);
      AfterAppend(After(times[..n], low), if times[n] > low then [times[n]] else [], high);
    }
  }

  lemma StepSeen(kept: Kept, q: Request, limit: nat, client: string, cutoff: int)
    requires q.at - WINDOW <= cutoff
    ensures After(TimesOf(Step(kept, q, limit), client), cutoff) ==
            After(TimesOf(kept, client), cutoff)
            + if q.client == client && Allows(kept, q, limit) then After([q.at], cutoff) else []
  {
    hide After;
    if q.client == client {
      var recent := After(TimesOf(kept, client), q.at - WINDOW);
      AfterTwice(TimesOf(kept, client), q.at - WINDOW, cutoff);
      AfterAppend(recent, [q.at], cutoff);
    }
  }

  /** Pruning is invisible: from the last cutoff on the table knows as much as the full history. */
  lemma {:induction false} PruningIsInvisible(qs: seq<Request>, limit: nat, client: string, cutoff: int)
    requires NonDecreasing(qs) && forall q :: q in qs ==> q.at - WINDOW <= cutoff
    ensures After(TimesOf(Run(qs, limit), client), cutoff) == After(History(qs, limit, client), cutoff)
    decreases |qs|
  {
    hide After, TimesOf, Allows, Step;
    if qs == [] {
      NothingKept(client);
    } else {
      var before, q := qs[..|qs| - 1], qs[|qs| - 1];
      PruningIsInvisible(before, limit, client, cutoff);
      StepSeen(Run(before, limit), q, limit, client, cutoff);
      AfterAppend(History(before, limit, client), [q.at], cutoff);
      assert History(before, limit, client) + [] == History(before, limit, client);
    }
  }

  lemma NothingKept(client: string)
    ensures TimesOf(map[], client) == []
  {
  }

  /** A request is accepted exactly when fewer than `limit` were accepted in the hour before it. */
  lemma AcceptedIff(qs: seq<Request>, limit: nat)
    requires qs != [] && NonDecreasing(qs)
    ensures var q := qs[|qs| - 1];
      var times := History(qs[..|qs| - 1], limit, q.client);
      Accepted(qs, limit) <==> |set i: nat | i < |times| && times[i] > q.at - 3600000| < limit
  {
    hide After;
    var before, q := qs[..|qs| - 1], qs[|qs| - 1];
    PruningIsInvisible(before, limit, q.client, q.at - WINDOW);
    AfterCounts(History(before, limit, q.client), q.at - WINDOW);
  }

  lemma HistorySnoc(qs: seq<Request>, limit: nat, client: string)
    requires qs != []
    ensures var was, q := History(qs[..|qs| - 1], limit, client), qs[|qs| - 1];
      History(qs, limit, client) == if q.client == client && Accepted(qs, limit) then was + [q.at] else was
  {
    hide Accepted;
    var was := History(qs[..|qs| - 1], limit, client);
    assert was + [] == was;
  }

  ghost predicate OrderedUpTo(times: seq<int>, last: int) {
    && (forall i, j :: 0 <= i < j < |times| ==> times[i] <= times[j])
    && (forall i :: 0 <= i < |times| ==> times[i] <= last)
  }

  lemma {:induction false} HistoryOrdered(qs: seq<Request>, limit: nat, client: string, last: int)
    requires NonDecreasing(qs) && (qs != [] ==> qs[|qs| - 1].at <= last)
    ensures OrderedUpTo(History(qs, limit, client), last)
    decreases |qs|
  {
    hide Accepted;
    if qs != [] {
      hide History;
      var before, q := qs[..|qs| - 1], qs[|qs| - 1];
      HistorySnoc(qs, limit, client);
      HistoryOrdered(before, limit, client, q.at);
    }
  }

  /** An hour after the last one that was accepted, a request is accepted again. */
  lemma AcceptedAfterAnHour(qs: seq<Request>, limit: nat)
    requires qs != [] && NonDecreasing(qs) && limit > 0
    requires var times := History(qs[..|qs| - 1], limit, qs[|qs| - 1].client);
      times == [] || qs[|qs| - 1].at >= times[|times| - 1] + 3600000
    ensures Accepted(qs, limit)
  {
    hide Accepted, History;
    var q := qs[|qs| - 1];
    var times := History(qs[..|qs| - 1], limit, q.client);
    HistoryOrdered(qs[..|qs| - 1], limit, q.client, q.at);
    AcceptedIff(qs, limit);
    assert (set i: nat | i < |times| && times[i] > q.at - 3600000) == {};
  }

  /** One more time, no earlier than the others: an hour that reaches it holds no more of them than
      the hour that ends with it. */
  lemma OneMoreInHour(was: seq<int>, at: int, end: int)
    requires end - 3600000 < at <= end
    ensures var now := was + [at];
      |set i: nat | i < |now| && end - 3600000 < now[i] <= end|
      <= 1 + |set i: nat | i < |was| && was[i] > at - 3600000|
  {
    var now, n: nat := was + [at], |was|;
    var hour := set i: nat | i < |now| && end - 3600000 < now[i] <= end;
    var recent := set i: nat | i < n && was[i] > at - 3600000;
    assert hour - {n} <= recent by {
      forall i | i in hour && i != n ensures i in recent {
        assert now[i] == was[i];
      }
    }
    SubsetSize(hour - {n}, recent);
  }

  lemma OutsideHour(was: seq<int>, at: int, end: int)
    requires !(end - 3600000 < at <= end)
    ensures var now := was + [at];
      (set i: nat | i < |now| && end - 3600000 < now[i] <= end) ==
      (set i: nat | i < |was| && end - 3600000 < was[i] <= end)
  {
    var now := was + [at];
    assert forall i: nat :: i < |was| ==> now[i] == was[i];
  }

  /** No hour, wherever it is put, holds more than `limit` accepted requests of a client. */
  lemma {:induction false} AtMostLimitInAnyHour(qs: seq<Request>, limit: nat, client: string, end: int)
    requires NonDecreasing(qs)
    ensures var times := History(qs, limit, client);
      |set i: nat | i < |times| && end - 3600000 < times[i] <= end| <= limit
    decreases |qs|
  {
    hide Accepted;
    if qs != [] {
      hide History;
      var before, q := qs[..|qs| - 1], qs[|qs| - 1];
      HistorySnoc(qs, limit, client);
      AtMostLimitInAnyHour(before, limit, client, end);
      var was := History(before, limit, client);
      if q.client == client && Accepted(qs, limit) {
        if end - 3600000 < q.at <= end {
          AcceptedIff(qs, limit);
          OneMoreInHour(was, q.at, end);
        } else {
          OutsideHour(was, q.at, end);
        }
      }
    }
  }

  // ---------------------------------------------------------------- the two limiters

  class DiscoveryLimiter {
    var discoveryRateLimits: Kept

    constructor ()
      ensures discoveryRateLimits == map[]
    {
      discoveryRateLimits := map[];
    }

    method CheckDiscoveryRateLimit(host: string, now: int) returns (ok: bool)
      modifies this
      ensures ok <==> Allows(old(discoveryRateLimits), Request(host, now), MAX_DISCOVERY_REQUESTS)
      ensures discoveryRateLimits == Step(old(discoveryRateLimits), Request(host, now), MAX_DISCOVERY_REQUESTS)
      ensures Limited(old(discoveryRateLimits), host, now, 30, ok, discoveryRateLimits)
    {
      hide Limited, SiftedTo, Allows, Step;
      StepLimits(discoveryRateLimits, host, now, MAX_DISCOVERY_REQUESTS);
      StepIs(discoveryRateLimits, host, now, MAX_DISCOVERY_REQUESTS);
      var requests := if host in discoveryRateLimits then discoveryRateLimits[host] else [];
      var cutoff := now - WINDOW;
      var filtered: seq<int> := [];
      for i := 0 to |requests|
        invariant filtered == After(requests[..i], cutoff)
        invariant discoveryRateLimits == old(discoveryRateLimits)
      {
        assert requests[..i + 1][..i] == requests[..i];
        if requests[i] > cutoff {
          filtered := filtered + [requests[i]];
        }
      }
      assert requests[..|requests|] == requests;
      if |filtered| >= 30 {
        discoveryRateLimits := discoveryRateLimits[host := filtered];
        return false;
      }
      discoveryRateLimits := discoveryRateLimits[host := filtered + [now]];
      return true;
    }
  }

  class RegistrationLimiter {
    var autoRegisterAttempts: Kept

    constructor ()
      ensures autoRegisterAttempts == map[]
    {
      autoRegisterAttempts := map[];
    }

    /** `ip` is the parsed remote address; one that does not parse is not limited. */
    method CheckAutoRegisterRateLimit(ip: Option<string>, now: int) returns (ok: bool)
      modifies this
      ensures ip.None? ==> ok && autoRegisterAttempts == old(autoRegisterAttempts)
      ensures ip.Some? ==>
                && (ok <==> Allows(old(autoRegisterAttempts), Request(ip.value, now), MAX_REGISTRATIONS))
                && autoRegisterAttempts == Step(old(autoRegisterAttempts), Request(ip.value, now), MAX_REGISTRATIONS)
                && Limited(old(autoRegisterAttempts), ip.value, now, 10, ok, autoRegisterAttempts)
    {
      if ip.None? {
        return true;
      }
      hide Limited, SiftedTo, Allows, Step, After;
      StepLimits(autoRegisterAttempts, ip.value, now, MAX_REGISTRATIONS);
      StepIs(autoRegisterAttempts, ip.value, now, MAX_REGISTRATIONS);
      var kept := TimesOf(autoRegisterAttempts, ip.value);
      var attempts := new int[|kept|](i requires 0 <= i < |kept| => kept[i]);
      assert attempts[..] == kept;
      var n := PruneInPlace(attempts, now - WINDOW);
      var pruned := attempts[..n];
      if |pruned| >= 10 {
        autoRegisterAttempts := autoRegisterAttempts[ip.value := pruned];
        return false;
      }
      autoRegisterAttempts := autoRegisterAttempts[ip.value := pruned + [now]];
      return true;
    }
  }

  lemma AfterSnoc(times: seq<int>, i: nat, cutoff: int)
    requires i < |times|
    ensures After(times[..i + 1], cutoff) ==
            if times[i] > cutoff then After(times[..i], cutoff) + [times[i]] else After(times[..i], cutoff)
  {
    assert times[..i + 1][..i] == times[..i];
    assert After(times[..i], cutoff) + [] == After(times[..i], cutoff);
  }

  lemma AfterNone(cutoff: int)
    ensures After([], cutoff) == []
  {
  }

  /** Appending to `attempts[:0]` overwrites the array being read, but never ahead of the read. */
  method PruneInPlace(attempts: array<int>, cutoff: int) returns (n: nat)
    modifies attempts
    ensures n <= attempts.Length && attempts[..n] == After(old(attempts[..]), cutoff)
    ensures SiftedTo(old(attempts[..]), cutoff, attempts[..n])
  {
    hide *;
    n := 0;
    ghost var times, kept := attempts[..], After([], cutoff);
    AfterSifts(times, cutoff);
    AfterNone(cutoff);
    for i := 0 to attempts.Length
      invariant n <= i && kept == After(times[..i], cutoff) && |kept| == n
      invariant forall k :: 0 <= k < n ==> attempts[k] == kept[k]
      invariant forall k :: i <= k < attempts.Length ==> attempts[k] == times[k]
    {
      AfterSnoc(times, i, cutoff);
      var ts := attempts[i];
      if ts > cutoff {
        attempts[n] := ts;
        n := n + 1;
        kept := kept + [ts];
      }
    }
    assert times[..attempts.Length] == times;
    assert attempts[..n] == kept;
  }
}
