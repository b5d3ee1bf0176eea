/**
 Cross-event detections over a timeline.  Each streaming rule is a one-pass loop over a dictionary;
 it is proved against a definition that mentions no loop state.  Events are referred to by their
 position in the list.
 */
module Correlation {
  import opened Options
  import opened Strings

  // ----- Data model -----

  /**
   One timeline row.  An empty host or actor stands for a missing one.  `dt` is in microseconds;
   `iso` is its ISO text.  `rdpPhrase` is the result of the remote-desktop pattern on the message.
   */
  datatype Event = Event(
    id: string, host: string, actor: string, dt: Option<int>, iso: string,
    message: string, logonType: string, rdpPhrase: bool)

  datatype Detection = Detection(
    rule: string, severity: string, confidence: int, host: string, actor: Option<string>,
    eventTime: Option<string>, evidence: seq<nat>, counted: nat)

  const MAX_EVIDENCE := 25
  const WINDOW := 3600 * 1_000_000
  const THRESHOLD := 5
  const MIN_RDP_HOSTS := 3

  function OrUnknown(s: string): string {
    if s == "" then "UNKNOWN" else s
  }

  function MakeDetection(
    rule: string, severity: string, confidence: int, e: Event, evidence: seq<nat>, counted: nat): Detection
  {
    Detection(rule, severity, confidence, OrUnknown(e.host), if e.actor == "" then None else Some(e.actor),
              if e.dt.Some? then Some(e.iso) else None,
              if |evidence| > MAX_EVIDENCE then evidence[..MAX_EVIDENCE] else evidence, counted)
  }

  /** What every detection shows of its event; at most 25 events are listed as evidence. */
  lemma DetectionMeans(rule: string, severity: string, confidence: int, e: Event, evidence: seq<nat>, counted: nat)
    ensures var d := MakeDetection(rule, severity, confidence, e, evidence, counted);
      && d.rule == rule && d.severity == severity && d.confidence == confidence && d.counted == counted
      && d.host == (if e.host == "" then "UNKNOWN" else e.host)
      && (d.actor.None? <==> e.actor == "") && (d.actor.Some? ==> d.actor.value == e.actor)
      && (d.eventTime.None? <==> e.dt.None?) && (d.eventTime.Some? ==> d.eventTime.value == e.iso)
      && d.evidence <= evidence && (|d.evidence| == 25 || d.evidence == evidence) && |d.evidence| <= 25
  {
  }

  // ----- Brute force followed by a successful logon -----

  type Key = (string, string)

  function KeyOf(e: Event): Key {
    (OrUnknown(e.host), OrUnknown(e.actor))
  }

  predicate IsFailure(e: Event) { e.id == "4625" }
  predicate IsSuccess(e: Event) { e.id == "4624" }

  /** The failure lies at most one hour before the success. */
  predicate Within(failure: Event, success: Event) {
    failure.dt.Some? && success.dt.Some? && 0 <= success.dt.value - failure.dt.value <= WINDOW
  }

  /** No detection for the key of event i strictly between positions j and i. */
  ghost predicate Unclaimed(events: seq<Event>, j: nat, i: nat)
    requires i < |events|
    decreases i, 0
  {
    forall d: nat :: j < d < i && KeyOf(events[d]) == KeyOf(events[i]) ==> !Detects(events, d)
  }

  /** The failures that count towards a detection at event i. */
  ghost function Support(events: seq<Event>, i: nat): set<nat>
    requires i < |events|
    decreases i, 1
  {
    set j: nat | j < i && IsFailure(events[j]) && KeyOf(events[j]) == KeyOf(events[i]) &&
                 Within(events[j], events[i]) && Unclaimed(events, j, i)
  }

  /**
   A success raises a detection exactly when at least five failures of the same host and actor lie
   in the hour before it and after that pair's previous detection.
   */
  ghost predicate Detects(events: seq<Event>, i: nat)
    requires i < |events|
    decreases i, 2
  {
    IsSuccess(events[i]) && |Support(events, i)| >= THRESHOLD
  }

  /** No failure supports two detections. */
  lemma SupportsAreDisjoint(events: seq<Event>, i: nat, k: nat)
    requires i < k < |events| && Detects(events, i) && Detects(events, k)
    ensures Support(events, i) !! Support(events, k)
  {
    forall j | j in Support(events, i) ensures j !in Support(events, k) {
      if j in Support(events, k) { assert Unclaimed(events, j, k); }
    }
  }

  /** The positions stored in the dictionary under a key after n events. */
  ghost function Pending(events: seq<Event>, n: nat, key: Key): seq<nat>
    requires n <= |events|
  {
    if n == 0 then []
    else
      var e, before := events[n - 1], Pending(events, n - 1, key);
      if KeyOf(e) != key then before
      else if IsFailure(e) then before + [n - 1]
      else if Detects(events, n - 1) then []
      else before
  }

  ghost predicate Increasing(s: seq<nat>, bound: nat) {
    (forall p, q :: 0 <= p < q < |s| ==> s[p] < s[q]) && forall p :: 0 <= p < |s| ==> s[p] < bound
  }

  lemma {:induction false} PendingIncreasing(events: seq<Event>, n: nat, key: Key)
    requires n <= |events|
    ensures Increasing(Pending(events, n, key), n)
  {
    if n > 0 { PendingIncreasing(events, n - 1, key); }
  }

  /** The dictionary holds the failures of a key since its last detection, and no others. */
  lemma {:induction false} PendingMeans(events: seq<Event>, n: nat, key: Key, j: nat)
    requires n <= |events|
    ensures j in Pending(events, n, key) <==>
            && j < n && IsFailure(events[j]) && KeyOf(events[j]) == key
            && forall d: nat :: j < d < n && KeyOf(events[d]) == key ==> !Detects(events, d)
  {
    if n > 0 {
      PendingMeans(events, n - 1, key, j);
    }
  }

  function Recent(events: seq<Event>, pending: seq<nat>, e: Event): (r: seq<nat>)
    requires forall p :: 0 <= p < |pending| ==> pending[p] < |events|
    ensures forall j :: j in r <==> j in pending && Within(events[j], e)
  {
    if pending == [] then []
    else
      var n := |pending| - 1;
      assert pending == pending[..n] + [pending[n]];
      Recent(events, pending[..n], e) + if Within(events[pending[n]], e) then [pending[n]] else []
  }

  lemma {:induction false} RecentIncreasing(events: seq<Event>, pending: seq<nat>, e: Event, bound: nat)
    requires Increasing(pending, bound) && bound <= |events|
    requires forall p :: 0 <= p < |pending| ==> pending[p] < |events|
    ensures Increasing(Recent(events, pending, e), bound)
  {
    if pending != [] {
      var n := |pending| - 1;
      RecentIncreasing(events, pending[..n], e, pending[n]);
    }
  }

  /** An increasing sequence lists its elements once. */
  lemma {:induction false} IncreasingSize(s: seq<nat>, bound: nat, elements: set<nat>)
    requires Increasing(s, bound) && forall j :: j in s <==> j in elements
    ensures |s| == |elements|
  {
    if s == [] {
      assert elements == {};
    } else {
      var n := |s| - 1;
      assert s == s[..n] + [s[n]];
      IncreasingSize(s[..n], s[n], elements - {s[n]});
    }
  }

  /** What the loop filters from the dictionary is exactly the support of the definition. */
  lemma RecentIsSupport(events: seq<Event>, i: nat)
    requires i < |events|
    ensures var pending := Pending(events, i, KeyOf(events[i]));
      && (forall p :: 0 <= p < |pending| ==> pending[p] < |events|)
      && Increasing(Recent(events, pending, events[i]), i)
      && (forall j :: j in Recent(events, pending, events[i]) <==> j in Support(events, i))
      && |Recent(events, pending, events[i])| == |Support(events, i)|
  {
    var key := KeyOf(events[i]);
    var pending := Pending(events, i, key);
    PendingIncreasing(events, i, key);
    RecentIncreasing(events, pending, events[i], i);
    forall j ensures j in Recent(events, pending, events[i]) <==> j in Support(events, i) {
      PendingMeans(events, i, key, j);
    }
    IncreasingSize(Recent(events, pending, events[i]), i, Support(events, i));
  }

  ghost predicate IsBruteForce(events: seq<Event>, i: nat, d: Detection)
    requires i < |events|
  {
    exists failures: seq<nat> :: SupportList(events, i, failures) &&
      d == MakeDetection("DFIR-CORR-001", "high", 85, events[i], failures + [i], |failures|)
  }

  /** The supporting failures, oldest first. */
  ghost predicate SupportList(events: seq<Event>, i: nat, failures: seq<nat>)
    requires i < |events|
  {
    Increasing(failures, i) && forall j :: j in failures <==> j in Support(events, i)
  }

  /** Host and actor agree; a missing one agrees with a missing one and with the text "UNKNOWN". */
  ghost predicate SamePair(a: Event, b: Event) {
    && (if a.host == "" then "UNKNOWN" else a.host) == (if b.host == "" then "UNKNOWN" else b.host)
    && (if a.actor == "" then "UNKNOWN" else a.actor) == (if b.actor == "" then "UNKNOWN" else b.actor)
  }

  /** The rule in numbers: five failures (4625) of the pair in the hour before a success (4624), none claimed yet. */
  lemma BruteForceMeans(events: seq<Event>, i: nat, j: nat)
    requires i < |events|
    ensures Detects(events, i) <==> events[i].id == "4624" && |Support(events, i)| >= 5
    ensures j in Support(events, i) <==>
            && j < i && events[j].id == "4625" && SamePair(events[j], events[i])
            && events[j].dt.Some? && events[i].dt.Some? && 0 <= events[i].dt.value - events[j].dt.value <= 3_600_000_000
            && forall d: nat :: j < d < i && SamePair(events[d], events[i]) ==> !Detects(events, d)
  {
    hide Detects;
    DetectsMeans(events, i);
    forall d: nat | d < i ensures KeyOf(events[d]) == KeyOf(events[i]) <==> SamePair(events[d], events[i]) {
    }
  }

  lemma DetectsMeans(events: seq<Event>, i: nat)
    requires i < |events|
    ensures Detects(events, i) <==> events[i].id == "4624" && |Support(events, i)| >= 5
  {
  }

  /** Severity high, confidence 85; the evidence is the supporting failures and the success. */
  lemma BruteForceShows(events: seq<Event>, i: nat, d: Detection)
    requires i < |events| && IsBruteForce(events, i, d)
    ensures d.rule == "DFIR-CORR-001" && d.severity == "high" && d.confidence == 85
    ensures d.counted == |Support(events, i)|
    ensures exists failures: seq<nat> :: SupportList(events, i, failures)
              && d == MakeDetection("DFIR-CORR-001", "high", 85, events[i], failures + [i], |failures|)
  {
    var failures: seq<nat> :| SupportList(events, i, failures) &&
      d == MakeDetection("DFIR-CORR-001", "high", 85, events[i], failures + [i], |failures|);
    IncreasingSize(failures, i, Support(events, i));
  }

  /** `at` lists the detecting positions below n, and results are their detections. */
  ghost predicate BruteForceResults(events: seq<Event>, n: nat, at: seq<nat>, results: seq<Detection>)
    requires n <= |events|
  {
    && Increasing(at, n)
    && (forall i: nat :: i < n ==> (i in at <==> Detects(events, i)))
    && |results| == |at|
    && (forall p :: 0 <= p < |at| ==> at[p] < n && IsBruteForce(events, at[p], results[p]))
  }

  lemma OneMoreEvent(events: seq<Event>, n: nat, at: seq<nat>, results: seq<Detection>, d: Option<Detection>)
    requires n < |events| && BruteForceResults(events, n, at, results)
    requires Detects(events, n) <==> d.Some?
    requires d.Some? ==> IsBruteForce(events, n, d.value)
    ensures d.None? ==> BruteForceResults(events, n + 1, at, results)
    ensures d.Some? ==> BruteForceResults(events, n + 1, at + [n], results + [d.value])
  {
    hide Detects, IsBruteForce;
  }

  function Stored(failed: map<Key, seq<nat>>, key: Key): seq<nat> {
    if key in failed then failed[key] else []
  }

  /** The dictionary of the loop after n events. */
  ghost predicate Tracks(events: seq<Event>, n: nat, failed: map<Key, seq<nat>>)
    requires n <= |events|
  {
    forall key :: Stored(failed, key) == Pending(events, n, key)
  }

  lemma TracksNext(events: seq<Event>, n: nat, failed: map<Key, seq<nat>>, failed': map<Key, seq<nat>>)
    requires n < |events| && Tracks(events, n, failed)
    requires var e := events[n];
      failed' == if IsFailure(e) then failed[KeyOf(e) := Stored(failed, KeyOf(e)) + [n]]
                 else if Detects(events, n) then failed[KeyOf(e) := []]
                 else failed
    ensures Tracks(events, n + 1, failed')
  {
    forall key ensures Stored(failed', key) == Pending(events, n + 1, key) {
      assert Stored(failed, key) == Pending(events, n, key);
    }
  }

  /** One event of the loop: updates the dictionary and reports a detection if there is one. */
  method BruteForceEvent(events: seq<Event>, n: nat, failed: map<Key, seq<nat>>)
    returns (updated: map<Key, seq<nat>>, d: Option<Detection>)
    requires n < |events| && Tracks(events, n, failed)
    ensures Tracks(events, n + 1, updated)
    ensures d.Some? <==> Detects(events, n)
    ensures d.Some? ==> IsBruteForce(events, n, d.value)
  {
    hide Pending, Support, Increasing;
    var event := events[n];
    var key := KeyOf(event);
    var attempts := Stored(failed, key);
    updated, d := failed, None;
    RecentIsSupport(events, n);
    assert attempts == Pending(events, n, key);
    if IsFailure(event) {
      updated := failed[key := attempts + [n]];
    } else if IsSuccess(event) && attempts != [] {
      var recent := Recent(events, attempts, event);
      if |recent| >= THRESHOLD {
        assert SupportList(events, n, recent);
        d := Some(MakeDetection("DFIR-CORR-001", "high", 85, event, recent + [n], |recent|));
        updated := failed[key := []];
      }
    }
    TracksNext(events, n, failed, updated);
  }

  /** The results are the detections of the definition, in event order. */
  ghost predicate BruteForceOk(events: seq<Event>, results: seq<Detection>) {
    exists at: seq<nat> :: BruteForceResults(events, |events|, at, results)
  }

  method BruteForce(events: seq<Event>) returns (results: seq<Detection>)
    ensures BruteForceOk(events, results)
  {
    results := [];
    ghost var at: seq<nat> := [];
    var failed: map<Key, seq<nat>> := map[];
    for n := 0 to |events|
      invariant BruteForceResults(events, n, at, results)
      invariant Tracks(events, n, failed)
    {
      var d;
      failed, d := BruteForceEvent(events, n, failed);
      OneMoreEvent(events, n, at, results, d);
      if d.Some? { results, at := results + [d.value], at + [n]; }
    }
  }

  // ----- Remote-desktop lateral movement -----

  predicate IsRdpLogon(e: Event) {
    e.id == "4624" && (e.logonType == "10" || e.rdpPhrase)
  }

  predicate HumanActor(a: string) {
    && Upper(a) != "" && Upper(a) != "-" && Upper(a) != "SYSTEM" && Upper(a) != "ANONYMOUS LOGON"
    && a[|a| - 1] != '$'
  }

  predicate RdpBy(e: Event, actor: string) {
    IsRdpLogon(e) && e.actor == actor && HumanActor(actor)
  }

  /** The hosts an actor reached by remote desktop, and whether they are enough. */
  function RdpHosts(events: seq<Event>, actor: string): set<string> {
    set i | 0 <= i < |events| && RdpBy(events[i], actor) :: OrUnknown(events[i].host)
  }

  predicate MovesLaterally(events: seq<Event>, actor: string) {
    |RdpHosts(events, actor)| >= MIN_RDP_HOSTS
  }

  /** The actor's logons among the first n events. */
  function Logons(events: seq<Event>, n: nat, actor: string): (r: seq<nat>)
    requires n <= |events|
    ensures forall p :: 0 <= p < |r| ==> r[p] < n && RdpBy(events[r[p]], actor)
    ensures forall j: nat :: j < n && RdpBy(events[j], actor) ==> j in r
  {
    if n == 0 then []
    else Logons(events, n - 1, actor) + if RdpBy(events[n - 1], actor) then [n - 1] else []
  }

  /** A remote-desktop logon (4624, type 10 or the phrase) of an account that is neither missing, the system nor a machine. */
  lemma RdpByMeans(e: Event, actor: string)
    ensures RdpBy(e, actor) <==>
            && e.id == "4624" && (e.logonType == "10" || e.rdpPhrase) && e.actor == actor
            && Upper(actor) !in {"", "-", "SYSTEM", "ANONYMOUS LOGON"} && actor[|actor| - 1..] != "$"
  {
    if actor != "" { assert actor[|actor| - 1..] == [actor[|actor| - 1]]; } else { assert Upper(actor) == ""; }
  }

  /** Three hosts or more; a missing host counts as one named "UNKNOWN". */
  lemma MovesMeans(events: seq<Event>, actor: string, host: string)
    ensures MovesLaterally(events, actor) <==> |RdpHosts(events, actor)| >= 3
    ensures host in RdpHosts(events, actor) <==>
            exists i :: 0 <= i < |events| && RdpBy(events[i], actor)
                        && host == (if events[i].host == "" then "UNKNOWN" else events[i].host)
  {
  }

  lemma {:induction false} LogonsAscend(events: seq<Event>, n: nat, actor: string)
    requires n <= |events|
    ensures Increasing(Logons(events, n, actor), n)
  {
    hide RdpBy;
    if n > 0 { LogonsAscend(events, n - 1, actor); }
  }

  /** Critical, confidence 90; time and host are those of the last logon, the evidence is the logons in order. */
  lemma RdpShows(events: seq<Event>, actor: string)
    requires MovesLaterally(events, actor)
    ensures var d, logons := RdpDetection(events, actor), Logons(events, |events|, actor);
      && d.rule == "DFIR-CORR-006" && d.severity == "critical" && d.confidence == 90
      && d.counted == |RdpHosts(events, actor)|
      && logons != [] && d == MakeDetection("DFIR-CORR-006", "critical", 90, events[logons[|logons| - 1]], logons, d.counted)
      && forall j: nat :: j < |events| && RdpBy(events[j], actor) ==> j <= logons[|logons| - 1]
  {
    HostsFromLogons(events, actor);
    LogonsAscend(events, |events|, actor);
  }

  lemma HostsFromLogons(events: seq<Event>, actor: string)
    ensures (set i | i in Logons(events, |events|, actor) :: OrUnknown(events[i].host)) == RdpHosts(events, actor)
    ensures MovesLaterally(events, actor) ==> Logons(events, |events|, actor) != []
  {
  }

  function FirstLogon(events: seq<Event>, actor: string): int {
    var logons := Logons(events, |events|, actor);
    if logons == [] then -1 else logons[0]
  }

  /** The dictionary of logons per actor after n events. */
  ghost predicate Grouped(events: seq<Event>, n: nat, logons: map<string, seq<nat>>)
    requires n <= |events|
  {
    && (forall a :: a in logons ==> logons[a] != [])
    && (forall a :: Entry(logons, a) == Logons(events, n, a))
  }

  /** The dictionary's iteration order: actors by their first logon. */
  ghost predicate InsertionOrder(order: seq<string>, logons: map<string, seq<nat>>) {
    && (forall p :: 0 <= p < |order| ==> order[p] in logons && logons[order[p]] != [])
    && (forall a :: a in logons ==> a in order)
    && (forall p, q :: 0 <= p < q < |order| ==> logons[order[p]][0] < logons[order[q]][0])
  }

  lemma GroupedNext(events: seq<Event>, n: nat, logons: map<string, seq<nat>>)
    requires n < |events| && Grouped(events, n, logons)
    ensures var a := events[n].actor;
      Grouped(events, n + 1, if RdpBy(events[n], a) then logons[a := Entry(logons, a) + [n]] else logons)
  {
    var a := events[n].actor;
    var logons' := if RdpBy(events[n], a) then logons[a := Entry(logons, a) + [n]] else logons;
    forall b ensures Entry(logons', b) == Logons(events, n + 1, b) {
      assert Entry(logons, b) == Logons(events, n, b);
    }
  }

  function Entry(logons: map<string, seq<nat>>, a: string): seq<nat> {
    if a in logons then logons[a] else []
  }

  lemma GroupedBelow(events: seq<Event>, n: nat, logons: map<string, seq<nat>>)
    requires n <= |events| && Grouped(events, n, logons)
    ensures forall b :: b in logons ==> logons[b] != [] && logons[b][0] < n
  {
    forall b | b in logons ensures logons[b][0] < n {
      assert Entry(logons, b) == Logons(events, n, b);
    }
  }

  lemma InsertionOrderNext(order: seq<string>, logons: map<string, seq<nat>>, a: string, n: nat)
    requires InsertionOrder(order, logons)
    requires forall b :: b in logons ==> logons[b] != [] && logons[b][0] < n
    ensures InsertionOrder(if a in logons then order else order + [a], logons[a := Entry(logons, a) + [n]])
  {
    var logons' := logons[a := Entry(logons, a) + [n]];
    assert forall b :: b in logons ==> logons'[b] != [] && logons'[b][0] == logons[b][0];
  }

  function RdpDetection(events: seq<Event>, actor: string): Detection
    requires MovesLaterally(events, actor)
  {
    var logons := Logons(events, |events|, actor);
    HostsFromLogons(events, actor);
    MakeDetection("DFIR-CORR-006", "critical", 90, events[logons[|logons| - 1]], logons, |RdpHosts(events, actor)|)
  }

  /** The actors of `order` that reached three or more hosts, by first logon, each with its detection. */
  ghost predicate RdpResults(events: seq<Event>, order: seq<string>, actors: seq<string>, results: seq<Detection>) {
    && (forall a :: a in actors <==> a in order && MovesLaterally(events, a))
    && (forall p, q :: 0 <= p < q < |actors| ==> FirstLogon(events, actors[p]) < FirstLogon(events, actors[q]))
    && |results| == |actors|
    && forall p :: 0 <= p < |actors| ==> MovesLaterally(events, actors[p]) && results[p] == RdpDetection(events, actors[p])
  }

  lemma RdpResultsNext(events: seq<Event>, order: seq<string>, actors: seq<string>, results: seq<Detection>, a: string)
    requires RdpResults(events, order, actors, results)
    requires forall b :: b in order ==> FirstLogon(events, b) < FirstLogon(events, a)
    ensures if MovesLaterally(events, a)
            then RdpResults(events, order + [a], actors + [a], results + [RdpDetection(events, a)])
            else RdpResults(events, order + [a], actors, results)
  {
    hide RdpDetection, MovesLaterally, FirstLogon;
    assert forall p :: 0 <= p < |actors| ==> actors[p] in actors;
  }

  /** One event: a remote-desktop logon joins its actor's list. */
  method GroupLogon(events: seq<Event>, n: nat, order: seq<string>, logons: map<string, seq<nat>>)
    returns (order': seq<string>, logons': map<string, seq<nat>>)
    requires n < |events| && Grouped(events, n, logons) && InsertionOrder(order, logons)
    ensures Grouped(events, n + 1, logons') && InsertionOrder(order', logons')
  {
    hide Grouped, InsertionOrder, RdpBy, Entry;
    var actor := events[n].actor;
    GroupedNext(events, n, logons);
    order', logons' := order, logons;
    if RdpBy(events[n], actor) {
      GroupedBelow(events, n, logons);
      InsertionOrderNext(order, logons, actor, n);
      if actor !in logons { order' := order + [actor]; }
      logons' := logons[actor := Entry(logons, actor) + [n]];
    }
  }

  method GroupLogons(events: seq<Event>) returns (order: seq<string>, logons: map<string, seq<nat>>)
    ensures Grouped(events, |events|, logons) && InsertionOrder(order, logons)
  {
    order, logons := [], map[];
    for n := 0 to |events|
      invariant Grouped(events, n, logons) && InsertionOrder(order, logons)
    {
      order, logons := GroupLogon(events, n, order, logons);
    }
  }

  method ReportMover(events: seq<Event>, actor: string, logons: seq<nat>) returns (d: Option<Detection>)
    requires logons == Logons(events, |events|, actor) && logons != []
    ensures d.Some? <==> MovesLaterally(events, actor)
    ensures d.Some? ==> d.value == RdpDetection(events, actor)
  {
    HostsFromLogons(events, actor);
    var hosts := set i | i in logons :: OrUnknown(events[i].host);
    if |hosts| >= MIN_RDP_HOSTS {
      d := Some(MakeDetection("DFIR-CORR-006", "critical", 90, events[logons[|logons| - 1]], logons, |hosts|));
    } else {
      d := None;
    }
  }

  lemma NoMovers(events: seq<Event>)
    ensures RdpResults(events, [], [], [])
  {
  }

  method ReportMovers(events: seq<Event>, order: seq<string>, logons: map<string, seq<nat>>)
    returns (results: seq<Detection>, ghost actors: seq<string>)
    requires Grouped(events, |events|, logons) && InsertionOrder(order, logons)
    ensures RdpResults(events, order, actors, results)
  {
    hide RdpResults, MovesLaterally, FirstLogon, RdpDetection, InsertionOrder, Grouped;
    OrderIsByFirstLogon(events, order, logons);
    results, actors := [], [];
    NoMovers(events);
    assert order[..0] == [];
    for p := 0 to |order|
      invariant RdpResults(events, order[..p], actors, results)
    {
      var actor := order[p];
      StoredLogons(events, order, logons, p);
      var d := ReportMover(events, actor, logons[actor]);
      RdpResultsNext(events, order[..p], actors, results, actor);
      assert order[..p + 1] == order[..p] + [actor];
      if d.Some? { results, actors := results + [d.value], actors + [actor]; }
    }
    assert order[..|order|] == order;
  }

  lemma StoredLogons(events: seq<Event>, order: seq<string>, logons: map<string, seq<nat>>, p: nat)
    requires Grouped(events, |events|, logons) && InsertionOrder(order, logons) && p < |order|
    ensures order[p] in logons && logons[order[p]] == Logons(events, |events|, order[p]) != []
  {
    assert logons[order[p]] == Entry(logons, order[p]);
  }

  lemma OrderIsByFirstLogon(events: seq<Event>, order: seq<string>, logons: map<string, seq<nat>>)
    requires Grouped(events, |events|, logons) && InsertionOrder(order, logons)
    ensures forall p, q :: 0 <= p < q < |order| ==> FirstLogon(events, order[p]) < FirstLogon(events, order[q])
    ensures forall a :: MovesLaterally(events, a) ==> a in order
  {
    forall p | 0 <= p < |order| ensures FirstLogon(events, order[p]) == logons[order[p]][0] {
      assert Entry(logons, order[p]) == Logons(events, |events|, order[p]);
    }
    forall a | MovesLaterally(events, a) ensures a in order {
      HostsFromLogons(events, a);
      assert Entry(logons, a) == Logons(events, |events|, a);
    }
  }

  /** One detection per actor seen on three or more hosts, in the order of first logons. */
  ghost predicate MoversOk(events: seq<Event>, results: seq<Detection>) {
    exists actors: seq<string> :: AllMovers(events, actors, results)
  }

  ghost predicate AllMovers(events: seq<Event>, actors: seq<string>, results: seq<Detection>) {
    && (forall a :: a in actors <==> MovesLaterally(events, a))
    && (forall p, q :: 0 <= p < q < |actors| ==> FirstLogon(events, actors[p]) < FirstLogon(events, actors[q]))
    && |results| == |actors|
    && forall p :: 0 <= p < |actors| ==> MovesLaterally(events, actors[p]) && results[p] == RdpDetection(events, actors[p])
  }

  method LateralMovement(events: seq<Event>) returns (results: seq<Detection>)
    ensures MoversOk(events, results)
  {
    var order, logons := GroupLogons(events);
    ghost var actors;
    results, actors := ReportMovers(events, order, logons);
    OrderIsByFirstLogon(events, order, logons);
    MoversFromOrder(events, order, actors, results);
  }

  lemma MoversFromOrder(events: seq<Event>, order: seq<string>, actors: seq<string>, results: seq<Detection>)
    requires RdpResults(events, order, actors, results) && forall a :: MovesLaterally(events, a) ==> a in order
    ensures AllMovers(events, actors, results)
  {
    hide RdpDetection, MovesLaterally, FirstLogon;
  }

  // ----- Rules about a single event -----

  function SingleEvent(e: Event, i: nat): Option<Detection> {
    var message := Lower(e.message);
    if e.id == "1102" then Some(MakeDetection("DFIR-CORR-002", "high", 90, e, [i], 1))
    else if e.id == "4698" || Contains(message, "scheduled task") then
      Some(MakeDetection("DFIR-CORR-003", "medium", 70, e, [i], 1))
    else if e.id == "4728" || e.id == "4732" || e.id == "4756" then
      Some(MakeDetection("DFIR-CORR-004", "high", 80, e, [i], 1))
    else if Contains(message, "admin$") then Some(MakeDetection("DFIR-CORR-005", "medium", 65, e, [i], 1))
    else None
  }

  ghost predicate Mentions(e: Event, text: string) {
    exists a, b :: Lower(e.message) == a + text + b
  }

  /** When each single-event rule applies; the first that does raises its detection alone. */
  ghost predicate Meets(e: Event, rule: string) {
    if rule == "DFIR-CORR-002" then e.id == "1102"
    else if rule == "DFIR-CORR-003" then e.id != "1102" && (e.id == "4698" || Mentions(e, "scheduled task"))
    else if rule == "DFIR-CORR-004" then !Mentions(e, "scheduled task") && e.id in {"4728", "4732", "4756"}
    else
      && rule == "DFIR-CORR-005" && e.id !in {"1102", "4698", "4728", "4732", "4756"}
      && Mentions(e, "admin$") && !Mentions(e, "scheduled task")
  }

  function Rating(rule: string): (string, int) {
    if rule == "DFIR-CORR-002" then ("high", 90)
    else if rule == "DFIR-CORR-003" then ("medium", 70)
    else if rule == "DFIR-CORR-004" then ("high", 80)
    else ("medium", 65)
  }

  /** The detection of a rule about event i. */
  ghost predicate ShowsEvent(events: seq<Event>, i: nat, d: Detection)
    requires i < |events|
  {
    var e := events[i];
    && Meets(e, d.rule) && (d.severity, d.confidence) == Rating(d.rule)
    && d.host == (if e.host == "" then "UNKNOWN" else e.host)
    && d.actor == (if e.actor == "" then None else Some(e.actor))
    && d.eventTime == (if e.dt.None? then None else Some(e.iso))
    && d.evidence == [i] && d.counted == 1
  }

  /** An event raises a detection exactly when it meets a rule, and then the one of that rule. */
  lemma SingleEventMeans(events: seq<Event>, i: nat, rule: string)
    requires i < |events|
    ensures Meets(events[i], rule) <==> SingleEvent(events[i], i).Some? && SingleEvent(events[i], i).value.rule == rule
    ensures SingleEvent(events[i], i).Some? ==> ShowsEvent(events, i, SingleEvent(events[i], i).value)
  {
    hide Lower, Contains;
    ContainsMeans(Lower(events[i].message), "scheduled task");
    ContainsMeans(Lower(events[i].message), "admin$");
  }

  function SingleEvents(events: seq<Event>, n: nat): seq<Detection>
    requires n <= |events|
  {
    if n == 0 then []
    else
      var d := SingleEvent(events[n - 1], n - 1);
      SingleEvents(events, n - 1) + if d.Some? then [d.value] else []
  }

  // ----- Deduplication -----

  type ResultKey = (string, string, Option<string>)

  function ResultKeyOf(d: Detection): ResultKey {
    (d.rule, d.host, d.eventTime)
  }

  /** Result k is the first with its rule, host and time; the actor does not matter. */
  ghost predicate IsFirst(results: seq<Detection>, k: nat)
    requires k < |results|
  {
    forall j :: 0 <= j < k ==> ResultKeyOf(results[j]) != ResultKeyOf(results[k])
  }

  ghost predicate Firsts(results: seq<Detection>, n: nat, kept: seq<nat>, unique: seq<Detection>)
    requires n <= |results|
  {
    && Increasing(kept, n)
    && (forall k: nat :: k < n ==> (k in kept <==> IsFirst(results, k)))
    && |unique| == |kept|
    && forall p :: 0 <= p < |kept| ==> kept[p] < n && unique[p] == results[kept[p]]
  }

  ghost predicate Deduplicated(results: seq<Detection>, unique: seq<Detection>) {
    exists kept: seq<nat> :: Firsts(results, |results|, kept, unique)
  }

  method Deduplicate(results: seq<Detection>) returns (unique: seq<Detection>)
    ensures Deduplicated(results, unique)
  {
    unique := [];
    ghost var kept: seq<nat> := [];
    var seen: set<ResultKey> := {};
    for n := 0 to |results|
      invariant Firsts(results, n, kept, unique)
      invariant forall key :: key in seen <==> exists j :: 0 <= j < n && ResultKeyOf(results[j]) == key
    {
      var key := ResultKeyOf(results[n]);
      assert key in seen <==> !IsFirst(results, n);
      if key !in seen {
        seen := seen + {key};
        unique, kept := unique + [results[n]], kept + [n];
      }
    }
  }

  /** Every result is represented by exactly one kept result with its key. */
  lemma {:induction false} FirstExists(results: seq<Detection>, k: nat) returns (f: nat)
    requires k < |results|
    ensures f <= k && IsFirst(results, f) && ResultKeyOf(results[f]) == ResultKeyOf(results[k])
  {
    if IsFirst(results, k) {
      f := k;
    } else {
      var j: nat :| j < k && ResultKeyOf(results[j]) == ResultKeyOf(results[k]);
      f := FirstExists(results, j);
    }
  }

  // ----- Ordering -----

  function TimeText(d: Detection): string {
    if d.eventTime.Some? then d.eventTime.value else ""
  }

  /** Higher confidence first, then earlier time text. */
  predicate Before(a: Detection, b: Detection) {
    a.confidence > b.confidence || (a.confidence == b.confidence && LexLe(TimeText(a), TimeText(b)))
  }

  /** The order in plain terms; a detection without a time comes first among those of its confidence. */
  lemma BeforeMeans(a: Detection, b: Detection)
    ensures a.confidence > b.confidence ==> Before(a, b) && !Before(b, a)
    ensures a.confidence == b.confidence && a.eventTime.None? ==> Before(a, b)
    ensures a.confidence == b.confidence && a.eventTime.Some? && b.eventTime.None? && a.eventTime.value != "" ==> !Before(a, b)
    ensures a.confidence == b.confidence && a.eventTime.Some? && b.eventTime.Some? ==>
              (Before(a, b) <==> LexLe(a.eventTime.value, b.eventTime.value))
  {
  }

  lemma BeforeIsPreorder(a: Detection, b: Detection, c: Detection)
    ensures Before(a, b) || Before(b, a)
    ensures Before(a, b) && Before(b, c) ==> Before(a, c)
  {
    LexLeTotal(TimeText(a), TimeText(b));
    if Before(a, b) && Before(b, c) && a.confidence == c.confidence {
      LexLeTransitive(TimeText(a), TimeText(b), TimeText(c));
    }
  }

  /** `from` tells where each element of the output came from: a permutation that keeps ties in order. */
  ghost predicate StablySorted(input: seq<Detection>, from: seq<nat>, output: seq<Detection>) {
    && |from| == |output| == |input|
    && (forall p :: 0 <= p < |from| ==> from[p] < |input| && output[p] == input[from[p]])
    && (forall p, q :: 0 <= p < q < |from| ==> from[p] != from[q])
    && (forall p, q :: 0 <= p < q < |output| ==> Before(output[p], output[q]))
    && (forall p, q :: 0 <= p < q < |output| && Before(output[q], output[p]) ==> from[p] < from[q])
  }

  /** Where position p of a sequence stood before an insertion at i. */
  function OldPlace(p: nat, i: nat): int {
    if p < i then p else p - 1
  }

  lemma InsertedAt<T>(s: seq<T>, i: nat, x: T, p: nat)
    requires i <= |s| && p <= |s|
    ensures (s[..i] + [x] + s[i..])[p] == if p == i then x else s[OldPlace(p, i)]
  {
  }

  /** Two elements after the insertion at i, one of which may be the new one. */
  lemma InsertedPair(input: seq<Detection>, n: nat, from: seq<nat>, output: seq<Detection>, i: nat, p: nat, q: nat)
    requires n < |input| && StablySorted(input[..n], from, output) && i <= |output|
    requires forall k :: 0 <= k < i ==> Before(output[k], input[n])
    requires i < |output| ==> !Before(output[i], input[n])
    requires p < q <= n
    ensures var from', output' := from[..i] + [n] + from[i..], output[..i] + [input[n]] + output[i..];
      && from'[p] != from'[q] && Before(output'[p], output'[q])
      && (Before(output'[q], output'[p]) ==> from'[p] < from'[q])
  {
    hide Before;
    InsertedAt(from, i, n, p);
    InsertedAt(output, i, input[n], p);
    InsertedAt(from, i, n, q);
    InsertedAt(output, i, input[n], q);
    if p == i { FollowsInserted(output, input[n], i, q - 1); }
  }

  lemma InsertKeepsSorted(input: seq<Detection>, n: nat, from: seq<nat>, output: seq<Detection>, i: nat)
    requires n < |input| && StablySorted(input[..n], from, output) && i <= |output|
    requires forall p :: 0 <= p < i ==> Before(output[p], input[n])
    requires i < |output| ==> !Before(output[i], input[n])
    ensures StablySorted(input[..n + 1], from[..i] + [n] + from[i..], output[..i] + [input[n]] + output[i..])
  {
    hide Before;
    var from', output' := from[..i] + [n] + from[i..], output[..i] + [input[n]] + output[i..];
    forall p: nat | p <= n ensures from'[p] <= n && output'[p] == input[from'[p]] {
      InsertedAt(from, i, n, p);
      InsertedAt(output, i, input[n], p);
    }
    forall p: nat, q: nat | p < q <= n
      ensures from'[p] != from'[q] && Before(output'[p], output'[q])
      ensures Before(output'[q], output'[p]) ==> from'[p] < from'[q]
    {
      InsertedPair(input, n, from, output, i, p, q);
    }
  }

  lemma FollowsInserted(output: seq<Detection>, x: Detection, i: nat, p: nat)
    requires i <= p < |output| && !Before(output[i], x)
    requires forall p, q :: 0 <= p < q < |output| ==> Before(output[p], output[q])
    ensures Before(x, output[p]) && !Before(output[p], x)
  {
    BeforeIsPreorder(x, output[i], output[p]);
    if i < p { BeforeIsPreorder(output[i], output[p], x); }
  }

  ghost predicate SortedFrom(input: seq<Detection>, output: seq<Detection>) {
    exists from: seq<nat> :: StablySorted(input, from, output)
  }

  method SortDetections(input: seq<Detection>) returns (output: seq<Detection>)
    ensures SortedFrom(input, output)
  {
    output := [];
    ghost var from: seq<nat> := [];
    for n := 0 to |input|
      invariant StablySorted(input[..n], from, output)
    {
      var i := 0;
      while i < |output| && Before(output[i], input[n])
        invariant 0 <= i <= |output|
        invariant forall p :: 0 <= p < i ==> Before(output[p], input[n])
      {
        i := i + 1;
      }
      InsertKeepsSorted(input, n, from, output, i);
      output, from := output[..i] + [input[n]] + output[i..], from[..i] + [n] + from[i..];
    }
    assert input[..|input|] == input;
  }

  // ----- The whole correlation -----

  method CollectSingles(events: seq<Event>) returns (results: seq<Detection>)
    ensures results == SingleEvents(events, |events|)
  {
    results := [];
    for n := 0 to |events|
      invariant results == SingleEvents(events, n)
    {
      var d := SingleEvent(events[n], n);
      if d.Some? { results := results + [d.value]; }
    }
  }

  /** `output` shows each raised key once and nothing that was not raised. */
  ghost predicate Represents(raised: seq<Detection>, output: seq<Detection>) {
    && (forall d :: d in output ==> d in raised)
    && (forall d :: d in raised ==> exists p :: 0 <= p < |output| && ResultKeyOf(output[p]) == ResultKeyOf(d))
    && (forall p, q :: 0 <= p < q < |output| ==> ResultKeyOf(output[p]) != ResultKeyOf(output[q]))
  }

  /** Everything the rules raise, rule by rule. */
  ghost predicate Raised(events: seq<Event>, raised: seq<Detection>) {
    exists brute, rdp :: BruteForceOk(events, brute) && MoversOk(events, rdp) && raised == brute + rdp + SingleEvents(events, |events|)
  }

  /** The first of each key, sorted. */
  ghost predicate Selected(raised: seq<Detection>, output: seq<Detection>) {
    exists unique :: Deduplicated(raised, unique) && SortedFrom(unique, output)
  }

  ghost predicate Correlated(events: seq<Event>, output: seq<Detection>) {
    exists raised :: Raised(events, raised) && Selected(raised, output) && Represents(raised, output)
  }

  method RunCorrelations(events: seq<Event>) returns (output: seq<Detection>)
    ensures Correlated(events, output)
  {
    var brute := BruteForce(events);
    var rdp := LateralMovement(events);
    var singles := CollectSingles(events);
    var raised := brute + rdp + singles;
    var unique := Deduplicate(raised);
    output := SortDetections(unique);
    ghost var kept :| Firsts(raised, |raised|, kept, unique);
    ghost var from :| StablySorted(unique, from, output);
    OutputRepresents(raised, kept, unique, from, output);
    assert Raised(events, raised) && Selected(raised, output);
  }

  lemma OutputRepresents(raised: seq<Detection>, kept: seq<nat>, unique: seq<Detection>, from: seq<nat>, output: seq<Detection>)
    requires Firsts(raised, |raised|, kept, unique) && StablySorted(unique, from, output)
    ensures Represents(raised, output)
  {
    forall d | d in raised ensures exists p :: 0 <= p < |output| && ResultKeyOf(output[p]) == ResultKeyOf(d) {
      var k: nat :| k < |raised| && raised[k] == d;
      var f := FirstExists(raised, k);
      assert f in kept;
      var u: nat :| u < |kept| && kept[u] == f;
      var p := WhereIs(from, |unique|, u);
      assert ResultKeyOf(output[p]) == ResultKeyOf(d);
    }
    forall p, q | 0 <= p < q < |output| ensures ResultKeyOf(output[p]) != ResultKeyOf(output[q]) {
      var a, b := kept[from[p]], kept[from[q]];
      assert a in kept && b in kept && a != b;
      assert IsFirst(raised, a) && IsFirst(raised, b);
    }
  }

  /** A permutation of 0..n-1 hits every position. */
  lemma {:induction false} WhereIs(from: seq<nat>, n: nat, u: nat) returns (p: nat)
    requires |from| == n && u < n
    requires forall q :: 0 <= q < n ==> from[q] < n
    requires forall q, r :: 0 <= q < r < n ==> from[q] != from[r]
    ensures p < n && from[p] == u
    decreases n
  {
    if from[n - 1] == u {
      p := n - 1;
    } else {
      // Rename the value n-1 to from[n-1] in the first n-1 places, which makes them a permutation.
      var last := from[n - 1];
      var shorter := seq(n - 1, q requires 0 <= q < n - 1 => if from[q] == n - 1 then last else from[q]);
      if u == n - 1 {
        p := WhereIs(shorter, n - 1, last);
      } else {
        p := WhereIs(shorter, n - 1, u);
      }
    }
  }

  // ----- The single-event rules in the output -----

  lemma {:induction false} SingleEventsMean(events: seq<Event>, n: nat, d: Detection)
    requires n <= |events|
    ensures d in SingleEvents(events, n) <==> exists i: nat :: i < n && SingleEvent(events[i], i) == Some(d)
  {
    hide SingleEvent;
    if n > 0 {
      SingleEventsMean(events, n - 1, d);
      if d in SingleEvents(events, n) && d !in SingleEvents(events, n - 1) {
        assert SingleEvent(events[n - 1], n - 1) == Some(d);
      }
    }
  }

  lemma OtherRules(events: seq<Event>, brute: seq<Detection>, rdp: seq<Detection>, d: Detection)
    requires BruteForceOk(events, brute) && MoversOk(events, rdp) && d in brute + rdp
    ensures d.rule in {"DFIR-CORR-001", "DFIR-CORR-006"}
  {
    hide Detects, Increasing, IsBruteForce, RdpDetection, MovesLaterally, FirstLogon;
    if d in brute {
      var at: seq<nat> :| BruteForceResults(events, |events|, at, brute);
      var p: nat :| p < |brute| && brute[p] == d;
      BruteForceShows(events, at[p], d);
    } else {
      var actors: seq<string> :| AllMovers(events, actors, rdp);
      var p: nat :| p < |rdp| && rdp[p] == d;
      RdpShows(events, actors[p]);
    }
  }

  lemma RaisedSingles(events: seq<Event>, raised: seq<Detection>, d: Detection)
    requires Raised(events, raised) && d.rule !in {"DFIR-CORR-001", "DFIR-CORR-006"}
    ensures d in raised <==> exists i: nat :: i < |events| && SingleEvent(events[i], i) == Some(d)
  {
    hide BruteForceOk, MoversOk, SingleEvents, SingleEvent;
    var brute, rdp :| BruteForceOk(events, brute) && MoversOk(events, rdp) && raised == brute + rdp + SingleEvents(events, |events|);
    SingleEventsMean(events, |events|, d);
    if d in brute + rdp { OtherRules(events, brute, rdp, d); }
  }

  lemma RuleNames(e: Event, rule: string)
    requires Meets(e, rule)
    ensures rule in {"DFIR-CORR-002", "DFIR-CORR-003", "DFIR-CORR-004", "DFIR-CORR-005"}
  {
  }

  /**
   The output holds a detection of one of these rules for a host and a time exactly when an event with
   that host and time meets the rule, and what it shows is what such an event shows.
   */
  lemma SinglesInOutput(events: seq<Event>, output: seq<Detection>, rule: string, host: string, time: Option<string>)
    requires Correlated(events, output) && rule !in {"DFIR-CORR-001", "DFIR-CORR-006"}
    ensures forall d :: d in output && d.rule == rule ==> exists i: nat :: i < |events| && ShowsEvent(events, i, d)
    ensures (exists d :: d in output && ResultKeyOf(d) == (rule, host, time)) <==>
            exists i: nat :: i < |events| && Meets(events[i], rule)
              && host == (if events[i].host == "" then "UNKNOWN" else events[i].host)
              && time == (if events[i].dt.None? then None else Some(events[i].iso))
  {
    hide Raised, Selected, SingleEvent, Meets, Rating;
    var raised :| Raised(events, raised) && Selected(raised, output) && Represents(raised, output);
    forall d | d in output && d.rule == rule ensures exists i: nat :: i < |events| && ShowsEvent(events, i, d) {
      RaisedSingles(events, raised, d);
      var i: nat :| i < |events| && SingleEvent(events[i], i) == Some(d);
      SingleEventMeans(events, i, rule);
    }
    if i: nat :| i < |events| && Meets(events[i], rule)
                 && host == (if events[i].host == "" then "UNKNOWN" else events[i].host)
                 && time == (if events[i].dt.None? then None else Some(events[i].iso))
    {
      SingleEventMeans(events, i, rule);
      var d := SingleEvent(events[i], i).value;
      RaisedSingles(events, raised, d);
      assert d in raised && ResultKeyOf(d) == (rule, host, time);
      var p :| 0 <= p < |output| && ResultKeyOf(output[p]) == ResultKeyOf(d);
      assert output[p] in output;
    }
  }

  // ----- Determinism -----

  /** A sequence ascending in an asymmetric order is determined by its elements. */
  lemma {:induction false} AscendingUnique<T(!new)>(lt: (T, T) -> bool, a: seq<T>, b: seq<T>)
    requires forall x, y :: lt(x, y) ==> !lt(y, x)
    requires forall p, q :: 0 <= p < q < |a| ==> lt(a[p], a[q])
    requires forall p, q :: 0 <= p < q < |b| ==> lt(b[p], b[q])
    requires forall x :: x in a <==> x in b
    ensures a == b
  {
    SameEmpty(a, b);
    if a != [] {
      var m, n := |a| - 1, |b| - 1;
      assert a[m] in b && b[n] in a;
      assert a[m] == b[n];
      forall x ensures x in a[..m] <==> x in b[..n] {
        NotBeforeLast(lt, a, x);
        NotBeforeLast(lt, b, x);
      }
      AscendingUnique(lt, a[..m], b[..n]);
      assert a == a[..m] + [a[m]] && b == b[..n] + [b[n]];
    }
  }

  lemma SameEmpty<T>(a: seq<T>, b: seq<T>)
    requires forall x :: x in a <==> x in b
    ensures a == [] <==> b == []
  {
    if a != [] { assert a[0] in b; }
    if b != [] { assert b[0] in a; }
  }

  lemma NotBeforeLast<T(!new)>(lt: (T, T) -> bool, a: seq<T>, x: T)
    requires a != [] && forall x, y :: lt(x, y) ==> !lt(y, x)
    requires forall p, q :: 0 <= p < q < |a| ==> lt(a[p], a[q])
    ensures x in a[..|a| - 1] <==> x in a && x != a[|a| - 1]
  {
    assert a == a[..|a| - 1] + [a[|a| - 1]];
  }

  lemma IncreasingUnique(a: seq<nat>, b: seq<nat>, bound: nat)
    requires Increasing(a, bound) && Increasing(b, bound) && forall j: nat :: j in a <==> j in b
    ensures a == b
  {
    AscendingUnique((x: nat, y: nat) => x < y, a, b);
  }

  lemma BruteForceDetectionUnique(events: seq<Event>, i: nat, d: Detection, d': Detection)
    requires i < |events| && IsBruteForce(events, i, d) && IsBruteForce(events, i, d')
    ensures d == d'
  {
    var f: seq<nat> :| SupportList(events, i, f) && d == MakeDetection("DFIR-CORR-001", "high", 85, events[i], f + [i], |f|);
    var f': seq<nat> :| SupportList(events, i, f') && d' == MakeDetection("DFIR-CORR-001", "high", 85, events[i], f' + [i], |f'|);
    IncreasingUnique(f, f', i);
  }

  lemma PositionsUnique(n: nat, holds: set<nat>, at: seq<nat>, at': seq<nat>)
    requires Increasing(at, n) && forall i: nat :: i < n ==> (i in at <==> i in holds)
    requires Increasing(at', n) && forall i: nat :: i < n ==> (i in at' <==> i in holds)
    ensures at == at'
  {
    forall i: nat ensures i in at <==> i in at' {
      if i in at { assert i < n; }
      if i in at' { assert i < n; }
    }
    IncreasingUnique(at, at', n);
  }

  lemma BruteForceUnique(events: seq<Event>, r: seq<Detection>, r': seq<Detection>)
    requires BruteForceOk(events, r) && BruteForceOk(events, r')
    ensures r == r'
  {
    hide IsBruteForce, Detects, Increasing;
    var n := |events|;
    var at: seq<nat> :| BruteForceResults(events, n, at, r);
    var at': seq<nat> :| BruteForceResults(events, n, at', r');
    PositionsUnique(n, (set i: nat | i < n && Detects(events, i)), at, at');
    forall p | 0 <= p < |r| ensures r[p] == r'[p] { BruteForceDetectionUnique(events, at[p], r[p], r'[p]); }
  }

  lemma MoversUnique(events: seq<Event>, r: seq<Detection>, r': seq<Detection>)
    requires MoversOk(events, r) && MoversOk(events, r')
    ensures r == r'
  {
    hide MovesLaterally, FirstLogon, RdpDetection;
    var a: seq<string> :| AllMovers(events, a, r);
    var a': seq<string> :| AllMovers(events, a', r');
    AscendingUnique((x: string, y: string) => FirstLogon(events, x) < FirstLogon(events, y), a, a');
  }

  lemma DeduplicationUnique(results: seq<Detection>, u: seq<Detection>, u': seq<Detection>)
    requires Deduplicated(results, u) && Deduplicated(results, u')
    ensures u == u'
  {
    hide IsFirst, Increasing;
    var n := |results|;
    var kept: seq<nat> :| Firsts(results, n, kept, u);
    var kept': seq<nat> :| Firsts(results, n, kept', u');
    PositionsUnique(n, (set k: nat | k < n && IsFirst(results, k)), kept, kept');
  }

  /** Position i goes before position j: by the order, ties by position. */
  predicate GoesFirst(input: seq<Detection>, i: nat, j: nat) {
    i < |input| && j < |input| && Before(input[i], input[j]) && (Before(input[j], input[i]) ==> i < j)
  }

  lemma StableOrder(input: seq<Detection>, from: seq<nat>, output: seq<Detection>)
    requires StablySorted(input, from, output)
    ensures forall p, q :: 0 <= p < q < |from| ==> GoesFirst(input, from[p], from[q])
    ensures forall i: nat :: i in from <==> i < |input|
  {
    hide Before;
    forall i: nat | i < |input| ensures i in from { var p := WhereIs(from, |input|, i); }
  }

  lemma StableSortUnique(input: seq<Detection>, output: seq<Detection>, output': seq<Detection>)
    requires SortedFrom(input, output) && SortedFrom(input, output')
    ensures output == output'
  {
    hide Before;
    var from: seq<nat> :| StablySorted(input, from, output);
    var from': seq<nat> :| StablySorted(input, from', output');
    StableOrder(input, from, output);
    StableOrder(input, from', output');
    AscendingUnique((i: nat, j: nat) => GoesFirst(input, i, j), from, from');
  }

  /** The output is determined by the events: the correlation is deterministic and its specification complete. */
  lemma CorrelationIsDeterministic(events: seq<Event>, output: seq<Detection>, output': seq<Detection>)
    requires Correlated(events, output) && Correlated(events, output')
    ensures output == output'
  {
    hide BruteForceOk, MoversOk, Deduplicated, SortedFrom, SingleEvents, Represents;
    var raised :| Raised(events, raised) && Selected(raised, output) && Represents(raised, output);
    var raised' :| Raised(events, raised') && Selected(raised', output') && Represents(raised', output');
    var b, r :| BruteForceOk(events, b) && MoversOk(events, r) && raised == b + r + SingleEvents(events, |events|);
    var b', r' :| BruteForceOk(events, b') && MoversOk(events, r') && raised' == b' + r' + SingleEvents(events, |events|);
    BruteForceUnique(events, b, b');
    MoversUnique(events, r, r');
    var u :| Deduplicated(raised, u) && SortedFrom(u, output);
    var u' :| Deduplicated(raised', u') && SortedFrom(u', output');
    DeduplicationUnique(raised, u, u');
    StableSortUnique(u, output, output');
  }
}
