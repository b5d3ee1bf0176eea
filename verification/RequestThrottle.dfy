/**
 The in-process limit on expensive operations: a dictionary of recent call times that is trimmed on
 every call and swept now and then.  It is proved to decide as if the full history were kept.
 */
module RequestThrottle {

  /** Operation name and client address. */
  type Key = (string, string)

  datatype Call = Call(key: Key, at: real, limit: int)

  datatype Decision = Decision(call: Call, accepted: bool)

  const WINDOW := 60.0
  const CLEANUP_INTERVAL := 300.0

  // ----- Full-history specification -----

  /** Accepted calls for the key in the history that are less than a window old at `now`. */
  function RecentlyAccepted(history: seq<Decision>, key: Key, now: real): nat {
    if history == [] then 0
    else
      var d := history[|history| - 1];
      RecentlyAccepted(history[..|history| - 1], key, now) +
      if d.accepted && d.call.key == key && now - d.call.at < WINDOW then 1 else 0
  }

  /** Their positions in the history, one by one. */
  function RecentCalls(history: seq<Decision>, key: Key, now: real): set<nat> {
    set i: nat | i < |history| && history[i].accepted && history[i].call.key == key && now - history[i].call.at < 60.0
  }

  lemma {:induction false} RecentlyAcceptedMeans(history: seq<Decision>, key: Key, now: real)
    ensures RecentlyAccepted(history, key, now) == |RecentCalls(history, key, now)|
  {
    hide RecentCalls;
    if history == [] { NoCalls(key, now); }
    if history != [] {
      var n := |history| - 1;
      RecentlyAcceptedMeans(history[..n], key, now);
      LastRecentCall(history, key, now);
      OneMore(RecentCalls(history[..n], key, now), n);
    }
  }

  lemma LastRecentCall(history: seq<Decision>, key: Key, now: real)
    requires history != []
    ensures var n, d := |history| - 1, history[|history| - 1];
      var before := RecentCalls(history[..n], key, now);
      && n !in before
      && RecentCalls(history, key, now) ==
           if d.accepted && d.call.key == key && now - d.call.at < 60.0 then before + {n} else before
  {
    var n := |history| - 1;
    forall i: nat | i < n ensures history[..n][i] == history[i] {
    }
  }

  lemma NoCalls(key: Key, at: real)
    ensures RecentCalls([], key, at) == {} && CallsWithin([], key, at) == {}
  {
  }

  lemma OneMore(s: set<nat>, n: nat)
    requires n !in s
    ensures |s + {n}| == |s| + 1
  {
  }

  /** Every decision is the one full history calls for. */
  ghost predicate Faithful(history: seq<Decision>) {
    forall i: nat :: i < |history| ==> FaithfulAt(history, i)
  }

  ghost predicate FaithfulAt(history: seq<Decision>, i: nat)
    requires i < |history|
  {
    var c := history[i].call;
    history[i].accepted <==> RecentlyAccepted(history[..i], c.key, c.at) < c.limit
  }

  /** A decision is positive exactly when fewer calls than the limit were accepted in the minute before it. */
  lemma FaithfulMeans(history: seq<Decision>, i: nat)
    requires Faithful(history) && i < |history|
    ensures var c := history[i].call; history[i].accepted <==> |RecentCalls(history[..i], c.key, c.at)| < c.limit
  {
    assert FaithfulAt(history, i);
    RecentlyAcceptedMeans(history[..i], history[i].call.key, history[i].call.at);
  }

  /** Accepted calls for the key in the half-open interval of one window from `start`. */
  function AcceptedWithin(history: seq<Decision>, key: Key, start: real): nat {
    if history == [] then 0
    else
      var d := history[|history| - 1];
      AcceptedWithin(history[..|history| - 1], key, start) +
      if d.accepted && d.call.key == key && start <= d.call.at < start + WINDOW then 1 else 0
  }

  function CallsWithin(history: seq<Decision>, key: Key, start: real): set<nat> {
    set i: nat | i < |history| && history[i].accepted && history[i].call.key == key
                 && start <= history[i].call.at < start + 60.0
  }

  lemma {:induction false} AcceptedWithinMeans(history: seq<Decision>, key: Key, start: real)
    ensures AcceptedWithin(history, key, start) == |CallsWithin(history, key, start)|
  {
    hide CallsWithin;
    if history == [] { NoCalls(key, start); }
    if history != [] {
      var n := |history| - 1;
      AcceptedWithinMeans(history[..n], key, start);
      LastCallWithin(history, key, start);
      OneMore(CallsWithin(history[..n], key, start), n);
    }
  }

  lemma LastCallWithin(history: seq<Decision>, key: Key, start: real)
    requires history != []
    ensures var n, d := |history| - 1, history[|history| - 1];
      var before := CallsWithin(history[..n], key, start);
      && n !in before
      && CallsWithin(history, key, start) ==
           if d.accepted && d.call.key == key && start <= d.call.at < start + 60.0 then before + {n} else before
  {
    var n := |history| - 1;
    forall i: nat | i < n ensures history[..n][i] == history[i] {
    }
  }

  lemma {:induction false} WithinIsRecent(history: seq<Decision>, key: Key, start: real, now: real)
    requires start <= now < start + WINDOW
    ensures AcceptedWithin(history, key, start) <= RecentlyAccepted(history, key, now)
  {
    if history != [] { WithinIsRecent(history[..|history| - 1], key, start, now); }
  }

  lemma FaithfulPrefix(history: seq<Decision>, n: nat)
    requires Faithful(history) && n <= |history|
    ensures Faithful(history[..n])
  {
    forall i: nat | i < n ensures FaithfulAt(history[..n], i) {
      assert FaithfulAt(history, i);
      assert history[..n][..i] == history[..i];
    }
  }

  /** With a constant limit no interval of one window, wherever it starts, holds more accepted calls. */
  lemma {:induction false} NoWindowExceedsLimit(history: seq<Decision>, key: Key, limit: nat, start: real)
    requires Faithful(history)
    requires forall i :: 0 <= i < |history| && history[i].call.key == key ==> history[i].call.limit == limit
    ensures AcceptedWithin(history, key, start) <= limit
  {
    if history != [] {
      var n := |history| - 1;
      FaithfulPrefix(history, n);
      NoWindowExceedsLimit(history[..n], key, limit, start);
      assert FaithfulAt(history, n);
      var d := history[n];
      if d.accepted && d.call.key == key && start <= d.call.at < start + WINDOW {
        WithinIsRecent(history[..n], key, start, d.call.at);
      }
    }
  }

  // ----- The dictionary -----

  function Recent(times: seq<real>, now: real): seq<real> {
    if times == [] then []
    else
      var n := |times| - 1;
      var rest := Recent(times[..n], now);
      if now - times[n] < WINDOW then rest + [times[n]] else rest
  }

  function Stored(requests: map<Key, seq<real>>, key: Key): seq<real> {
    if key in requests then requests[key] else []
  }

  function AcceptedTimes(history: seq<Decision>, key: Key): seq<real> {
    if history == [] then []
    else
      var d := history[|history| - 1];
      var rest := AcceptedTimes(history[..|history| - 1], key);
      if d.accepted && d.call.key == key then rest + [d.call.at] else rest
  }

  lemma {:induction false} RecentCount(history: seq<Decision>, key: Key, now: real)
    ensures |Recent(AcceptedTimes(history, key), now)| == RecentlyAccepted(history, key, now)
  {
    if history != [] {
      var n := |history| - 1;
      RecentCount(history[..n], key, now);
      RecentAppend(AcceptedTimes(history[..n], key), history[n].call.at, now);
    }
  }

  lemma RecentAppend(times: seq<real>, t: real, now: real)
    ensures Recent(times + [t], now) == if now - t < WINDOW then Recent(times, now) + [t] else Recent(times, now)
  {
    assert (times + [t])[..|times|] == times;
  }

  /** Trimming early does not change what a later trim leaves. */
  lemma {:induction false} RecentOfRecent(times: seq<real>, earlier: real, now: real)
    requires earlier <= now
    ensures Recent(Recent(times, earlier), now) == Recent(times, now)
  {
    if times != [] {
      var n := |times| - 1;
      RecentOfRecent(times[..n], earlier, now);
      RecentAppend(Recent(times[..n], earlier), times[n], now);
    }
  }

  /** For every key the dictionary and the history agree on the calls that still matter. */
  ghost predicate Agrees(requests: map<Key, seq<real>>, history: seq<Decision>, clock: real) {
    forall key :: Recent(Stored(requests, key), clock) == Recent(AcceptedTimes(history, key), clock)
  }

  lemma AgreesLater(requests: map<Key, seq<real>>, history: seq<Decision>, clock: real, now: real)
    requires clock <= now && Agrees(requests, history, clock)
    ensures Agrees(requests, history, now)
  {
    forall key ensures Recent(Stored(requests, key), now) == Recent(AcceptedTimes(history, key), now) {
      RecentOfRecent(Stored(requests, key), clock, now);
      RecentOfRecent(AcceptedTimes(history, key), clock, now);
    }
  }

  /** Dropping keys without a recent call. */
  function Sweep(requests: map<Key, seq<real>>, now: real): map<Key, seq<real>> {
    map key | key in requests && Recent(requests[key], now) != [] :: requests[key]
  }

  /** What is swept is exactly what no call within the window justifies. */
  lemma SweepMeans(requests: map<Key, seq<real>>, now: real, key: Key)
    ensures key in Sweep(requests, now) <==> key in requests && exists i :: 0 <= i < |requests[key]| && now - requests[key][i] < 60.0
  {
    if key in requests { RecentMeans(requests[key], now); }
  }

  lemma {:induction false} RecentMeans(times: seq<real>, now: real)
    ensures Recent(times, now) != [] <==> exists i :: 0 <= i < |times| && now - times[i] < WINDOW
  {
    if times != [] {
      var n := |times| - 1;
      RecentMeans(times[..n], now);
      assert forall i :: 0 <= i < n ==> times[..n][i] == times[i];
    }
  }

  lemma SweepAgrees(requests: map<Key, seq<real>>, history: seq<Decision>, now: real)
    requires Agrees(requests, history, now)
    ensures Agrees(Sweep(requests, now), history, now)
  {
    forall key ensures Recent(Stored(Sweep(requests, now), key), now) == Recent(Stored(requests, key), now) { }
  }

  /** Trimming the caller's list, and appending the time when the call is accepted. */
  lemma DecideAgrees(requests: map<Key, seq<real>>, history: seq<Decision>, c: Call, accepted: bool)
    requires Agrees(requests, history, c.at)
    ensures var values := Recent(Stored(requests, c.key), c.at);
      Agrees(requests[c.key := if accepted then values + [c.at] else values], history + [Decision(c, accepted)], c.at)
  {
    var values := Recent(Stored(requests, c.key), c.at);
    var requests' := requests[c.key := if accepted then values + [c.at] else values];
    var history' := history + [Decision(c, accepted)];
    assert history'[..|history|] == history;
    forall key ensures Recent(Stored(requests', key), c.at) == Recent(AcceptedTimes(history', key), c.at) {
      assert Recent(Stored(requests, key), c.at) == Recent(AcceptedTimes(history, key), c.at);
      if key == c.key {
        RecentOfRecent(Stored(requests, key), c.at, c.at);
        if accepted {
          RecentAppend(values, c.at, c.at);
          RecentAppend(AcceptedTimes(history, key), c.at, c.at);
        }
      }
    }
  }

  lemma FaithfulAppend(history: seq<Decision>, d: Decision)
    requires Faithful(history)
    requires d.accepted <==> RecentlyAccepted(history, d.call.key, d.call.at) < d.call.limit
    ensures Faithful(history + [d])
  {
    var history' := history + [d];
    forall i: nat | i < |history'| ensures FaithfulAt(history', i) {
      assert history'[..i] == history[..i];
      if i < |history| { assert FaithfulAt(history, i); } else { assert history[..i] == history; }
    }
  }

  predicate Due(lastCleanup: real, now: real) { now - lastCleanup >= CLEANUP_INTERVAL }

  class Throttle {
    var requests: map<Key, seq<real>>
    var lastCleanup: real
    ghost var history: seq<Decision>
    ghost var clock: real

    ghost predicate Valid()
      reads this
    {
      Faithful(history) && Agrees(requests, history, clock)
    }

    constructor (ghost start: real)
      ensures Valid() && history == [] && clock == start
    {
      requests, lastCleanup, history, clock := map[], 0.0, [], start;
    }

    /** Accepts exactly when the full history has fewer than `limit` accepted calls in the window. */
    method Enforce(c: Call) returns (accepted: bool)
      requires Valid() && clock <= c.at
      modifies this
      ensures Valid() && clock == c.at
      ensures history == old(history) + [Decision(c, accepted)]
      ensures accepted <==> RecentlyAccepted(old(history), c.key, c.at) < c.limit
      ensures lastCleanup == if c.at - old(lastCleanup) >= 300.0 then c.at else old(lastCleanup)
      ensures var kept := Recent(Stored(old(requests), c.key), c.at);
        requests == (if Due(old(lastCleanup), c.at) then Sweep(old(requests), c.at) else old(requests))
                    [c.key := if accepted then kept + [c.at] else kept]
    {
      AgreesLater(requests, history, clock, c.at);
      if Due(lastCleanup, c.at) {
        SweepAgrees(requests, history, c.at);
        requests := Sweep(requests, c.at);
        lastCleanup := c.at;
      }
      var values := Recent(Stored(requests, c.key), c.at);
      RecentCount(history, c.key, c.at);
      accepted := |values| < c.limit;
      DecideAgrees(requests, history, c, accepted);
      FaithfulAppend(history, Decision(c, accepted));
      requests := requests[c.key := if accepted then values + [c.at] else values];
      history, clock := history + [Decision(c, accepted)], c.at;
    }
  }

  /** Any sequence of calls under a non-decreasing clock is decided as full history decides it. */
  method DecideAll(calls: seq<Call>) returns (decisions: seq<Decision>)
    requires forall i, j :: 0 <= i < j < |calls| ==> calls[i].at <= calls[j].at
    ensures |decisions| == |calls| && forall i :: 0 <= i < |calls| ==> decisions[i].call == calls[i]
    ensures Faithful(decisions)
  {
    decisions := [];
    if calls == [] { return; }
    var throttle := new Throttle(calls[0].at);
    for n := 0 to |calls|
      invariant throttle.Valid() && throttle.history == decisions && fresh(throttle)
      invariant |decisions| == n && forall i :: 0 <= i < n ==> decisions[i].call == calls[i]
      invariant throttle.clock <= calls[if n == 0 then 0 else n - 1].at
    {
      var accepted := throttle.Enforce(calls[n]);
      decisions := decisions + [Decision(calls[n], accepted)];
    }
  }
}
