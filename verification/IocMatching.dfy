/**
 Matching a timeline against known indicators: a lookup table, a scan over every observable of every
 event, and a set of joined keys that suppresses repetitions.

 Extracting observables from an event is a parameter `observe`: it yields, type by type and in order,
 the field and value of every candidate.
 */
module IocMatching {
  import opened Options
  import opened Strings
  import opened Delimited

  // ----- Data model -----

  datatype Indicator = Indicator(id: string, iocType: string, value: string, severity: string)

  datatype Observable = Observable(iocType: string, field: string, value: string)

  /** A line of the timeline; blank lines and lines that are no JSON object are skipped. */
  datatype Line<+E> = Skipped | Event(event: E)

  datatype Match<+E> = Match(indicatorId: string, iocType: string, field: string, value: string, severity: string, event: E)

  type Key = (string, string)

  function Normalized(ind: Indicator): Key {
    (Lower(ind.iocType), Lower(ind.value))
  }

  // ----- The lookup table -----

  /** The last indicator loaded for the type and value. */
  function Lookup(indicators: seq<Indicator>, key: Key): Option<Indicator> {
    if indicators == [] then None
    else
      var n := |indicators| - 1;
      if Normalized(indicators[n]) == key then Some(indicators[n]) else Lookup(indicators[..n], key)
  }

  ghost predicate TableOf(table: map<Key, Indicator>, indicators: seq<Indicator>) {
    forall key :: Lookup(indicators, key) == if key in table then Some(table[key]) else None
  }

  ghost predicate LastLoaded(indicators: seq<Indicator>, key: Key, i: nat) {
    && i < |indicators| && Normalized(indicators[i]) == key
    && forall j :: i < j < |indicators| ==> Normalized(indicators[j]) != key
  }

  lemma LastLoadedStays(indicators: seq<Indicator>, key: Key, i: nat)
    requires indicators != [] && LastLoaded(indicators[..|indicators| - 1], key, i)
    requires Normalized(indicators[|indicators| - 1]) != key
    ensures LastLoaded(indicators, key, i) && indicators[i] == indicators[..|indicators| - 1][i]
  {
    hide Normalized;
    var front := indicators[..|indicators| - 1];
    forall j | i < j < |indicators| ensures Normalized(indicators[j]) != key {
      if j < |front| { assert indicators[j] == front[j]; }
    }
  }

  lemma {:induction false} LookupMeans(indicators: seq<Indicator>, key: Key)
    ensures Lookup(indicators, key).None? <==> forall i :: 0 <= i < |indicators| ==> Normalized(indicators[i]) != key
    ensures Lookup(indicators, key).Some? ==>
              exists i: nat :: LastLoaded(indicators, key, i) && indicators[i] == Lookup(indicators, key).value
  {
    hide Normalized;
    if indicators != [] {
      var n := |indicators| - 1;
      LookupMeans(indicators[..n], key);
      if Normalized(indicators[n]) == key {
        assert LastLoaded(indicators, key, n);
      } else if Lookup(indicators[..n], key).Some? {
        var i: nat :| LastLoaded(indicators[..n], key, i) && indicators[..n][i] == Lookup(indicators, key).value;
        LastLoadedStays(indicators, key, i);
      }
    }
  }

  method BuildTable(indicators: seq<Indicator>) returns (table: map<Key, Indicator>)
    ensures TableOf(table, indicators)
  {
    table := map[];
    for n := 0 to |indicators|
      invariant TableOf(table, indicators[..n])
    {
      assert indicators[..n + 1][..n] == indicators[..n];
      table := table[Normalized(indicators[n]) := indicators[n]];
    }
    assert indicators[..|indicators|] == indicators;
  }

  // ----- All occurrences, in scan order -----

  datatype Occurrence<+E> = Occurrence(event: E, seen: Observable)

  function OfEvent<E>(event: E, seen: seq<Observable>): (r: seq<Occurrence<E>>)
    ensures |r| == |seen|
  {
    seq(|seen|, i requires 0 <= i < |seen| => Occurrence(event, seen[i]))
  }

  function OfLine<E>(line: Line<E>, observe: E -> seq<Observable>): seq<Occurrence<E>> {
    if line.Event? then OfEvent(line.event, observe(line.event)) else []
  }

  function Occurrences<E>(lines: seq<Line<E>>, observe: E -> seq<Observable>): seq<Occurrence<E>> {
    if lines == [] then []
    else Occurrences(lines[..|lines| - 1], observe) + OfLine(lines[|lines| - 1], observe)
  }

  // ----- Specification: the first occurrence of each key -----

  predicate IsHit<E>(o: Occurrence<E>, indicators: seq<Indicator>) {
    Lookup(indicators, (o.seen.iocType, o.seen.value)).Some?
  }

  function Found<E>(o: Occurrence<E>, indicators: seq<Indicator>): Indicator
    requires IsHit(o, indicators)
  {
    Lookup(indicators, (o.seen.iocType, o.seen.value)).value
  }

  function KeyParts(id: string, field: string, value: string): seq<string> {
    [id, field, value]
  }

  function DedupKey<E>(o: Occurrence<E>, indicators: seq<Indicator>): string
    requires IsHit(o, indicators)
  {
    Join(KeyParts(Found(o, indicators).id, o.seen.field, o.seen.value), ':')
  }

  function MatchOf<E>(o: Occurrence<E>, indicators: seq<Indicator>): Match<E>
    requires IsHit(o, indicators)
  {
    var ind := Found(o, indicators);
    Match(ind.id, o.seen.iocType, o.seen.field, o.seen.value, ind.severity, o.event)
  }

  ghost predicate SameKey<E>(all: seq<Occurrence<E>>, indicators: seq<Indicator>, p: nat, q: nat)
    requires p < |all| && q < |all|
  {
    && IsHit(all[p], indicators) && IsHit(all[q], indicators)
    && DedupKey(all[p], indicators) == DedupKey(all[q], indicators)
  }

  ghost predicate IsFirst<E>(all: seq<Occurrence<E>>, indicators: seq<Indicator>, p: nat)
    requires p < |all|
  {
    IsHit(all[p], indicators) && forall q: nat :: q < p ==> !SameKey(all, indicators, q, p)
  }

  /** The matches are those of the first occurrences among the first n, in scan order, at the positions `at`. */
  ghost predicate Scanned<E>(
    all: seq<Occurrence<E>>, n: nat, indicators: seq<Indicator>, matches: seq<Match<E>>, at: seq<nat>)
    requires n <= |all|
  {
    && |matches| == |at|
    && (forall k :: 0 <= k < |at| ==> at[k] < n && IsFirst(all, indicators, at[k]) && matches[k] == MatchOf(all[at[k]], indicators))
    && (forall k, l :: 0 <= k < l < |at| ==> at[k] < at[l])
    && (forall p: nat :: p < n && IsFirst(all, indicators, p) ==> p in at)
  }

  ghost predicate KeysSeen<E>(all: seq<Occurrence<E>>, n: nat, indicators: seq<Indicator>, keys: set<string>)
    requires n <= |all|
  {
    forall key :: key in keys <==> exists p :: 0 <= p < n && IsHit(all[p], indicators) && DedupKey(all[p], indicators) == key
  }

  // ----- The specification in plain terms -----

  /** Indicator i is the last one whose type and value are those observed, whatever their case. */
  ghost predicate Answers<E>(o: Occurrence<E>, indicators: seq<Indicator>, i: nat) {
    && i < |indicators|
    && Lower(indicators[i].iocType) == o.seen.iocType && Lower(indicators[i].value) == o.seen.value
    && forall j :: i < j < |indicators| ==>
         Lower(indicators[j].iocType) != o.seen.iocType || Lower(indicators[j].value) != o.seen.value
  }

  /** A hit is what some indicator answers; its match names that indicator and what was seen where. */
  lemma MatchMeans<E>(o: Occurrence<E>, indicators: seq<Indicator>)
    ensures IsHit(o, indicators) <==>
            exists i: nat ::
              i < |indicators|
              && Lower(indicators[i].iocType) == o.seen.iocType && Lower(indicators[i].value) == o.seen.value
    ensures IsHit(o, indicators) ==>
            exists i: nat ::
              Answers(o, indicators, i)
              && MatchOf(o, indicators) == Match(
                   indicators[i].id, o.seen.iocType, o.seen.field, o.seen.value, indicators[i].severity, o.event)
  {
    hide Lower;
    var key := (o.seen.iocType, o.seen.value);
    LookupMeans(indicators, key);
    if IsHit(o, indicators) {
      var i: nat :| LastLoaded(indicators, key, i) && indicators[i] == Lookup(indicators, key).value;
      assert Answers(o, indicators, i);
    }
  }

  /** What is scanned is every observable of every event, and nothing else. */
  lemma {:induction false} OccurrencesMean<E(!new)>(lines: seq<Line<E>>, observe: E -> seq<Observable>, o: Occurrence<E>)
    ensures o in Occurrences(lines, observe) <==>
            exists l :: 0 <= l < |lines| && lines[l] == Event(o.event) && o.seen in observe(o.event)
  {
    if lines != [] {
      var n := |lines| - 1;
      OccurrencesMean(lines[..n], observe, o);
      assert o in OfLine(lines[n], observe) <==> lines[n] == Event(o.event) && o.seen in observe(o.event) by {
        OfLineMeans(lines[n], observe, o);
      }
      assert forall l :: 0 <= l < n ==> lines[..n][l] == lines[l];
    }
  }

  lemma OfLineMeans<E(!new)>(line: Line<E>, observe: E -> seq<Observable>, o: Occurrence<E>)
    ensures o in OfLine(line, observe) <==> line == Event(o.event) && o.seen in observe(o.event)
  {
    if line.Event? && line.event == o.event && o.seen in observe(o.event) {
      var i :| 0 <= i < |observe(o.event)| && observe(o.event)[i] == o.seen;
      assert OfLine(line, observe)[i] == o;
    }
  }

  /** In scan order: line by line, and within a line as the observables are listed. */
  lemma {:induction false} OccurrencesConcat<E>(a: seq<Line<E>>, b: seq<Line<E>>, observe: E -> seq<Observable>)
    ensures Occurrences(a + b, observe) == Occurrences(a, observe) + Occurrences(b, observe)
  {
    hide OfLine;
    if b == [] {
      assert a + b == a;
      assert Occurrences(b, observe) == [];
    } else {
      var n := |b| - 1;
      OccurrencesConcat(a, b[..n], observe);
      OneMoreAfter(a, b[..n], b[n], observe);
      assert b == b[..n] + [b[n]];
    }
  }

  lemma OneMoreLine<E>(lines: seq<Line<E>>, line: Line<E>, observe: E -> seq<Observable>)
    ensures Occurrences(lines + [line], observe) == Occurrences(lines, observe) + OfLine(line, observe)
  {
    assert (lines + [line])[..|lines|] == lines;
  }

  lemma OneMoreAfter<E>(a: seq<Line<E>>, b: seq<Line<E>>, line: Line<E>, observe: E -> seq<Observable>)
    requires Occurrences(a + b, observe) == Occurrences(a, observe) + Occurrences(b, observe)
    ensures Occurrences(a + (b + [line]), observe) == Occurrences(a, observe) + Occurrences(b + [line], observe)
  {
    hide Occurrences, OfLine;
    assert a + (b + [line]) == a + b + [line];
    OneMoreLine(a + b, line, observe);
    OneMoreLine(b, line, observe);
  }

  lemma OccurrencesOfOne<E>(event: E, observe: E -> seq<Observable>, k: nat)
    requires k < |observe(event)|
    ensures |Occurrences([Event(event)], observe)| == |observe(event)|
    ensures Occurrences([Event(event)], observe)[k] == Occurrence(event, observe(event)[k])
  {
    var lines: seq<Line<E>> := [Event(event)];
    assert lines[..0] == [];
    assert Occurrences(lines[..0], observe) == [];
  }

  // ----- The scan -----

  method ScanEvent<E>(
    ghost all: seq<Occurrence<E>>, ghost n: nat, event: E, seen: seq<Observable>,
    ghost indicators: seq<Indicator>, table: map<Key, Indicator>,
    matches0: seq<Match<E>>, ghost at0: seq<nat>, keys0: set<string>)
    returns (matches: seq<Match<E>>, ghost at: seq<nat>, keys: set<string>)
    requires TableOf(table, indicators)
    requires n + |seen| <= |all| && all[n..n + |seen|] == OfEvent(event, seen)
    requires Scanned(all, n, indicators, matches0, at0) && KeysSeen(all, n, indicators, keys0)
    ensures Scanned(all, n + |seen|, indicators, matches, at) && KeysSeen(all, n + |seen|, indicators, keys)
  {
    hide Scanned, KeysSeen, DedupKey;
    matches, at, keys := matches0, at0, keys0;
    for i := 0 to |seen|
      invariant Scanned(all, n + i, indicators, matches, at) && KeysSeen(all, n + i, indicators, keys)
    {
      var o := Occurrence(event, seen[i]);
      assert all[n + i] == all[n..n + |seen|][i] == o;
      var key := (seen[i].iocType, seen[i].value);
      assert Lookup(indicators, key) == if key in table then Some(table[key]) else None;
      if key in table {
        var indicator := table[key];
        var dedupKey := indicator.id + [':'] + (seen[i].field + [':'] + seen[i].value);
        KeyOfHit(o, indicators, indicator);
        if dedupKey !in keys {
          NewKey(all, n + i, indicators, matches, at, keys, dedupKey);
          matches := matches + [Match(indicator.id, seen[i].iocType, seen[i].field, seen[i].value, indicator.severity, event)];
          at := at + [n + i];
          keys := keys + {dedupKey};
        } else {
          NothingNew(all, n + i, indicators, matches, at, keys);
        }
      } else {
        NothingNew(all, n + i, indicators, matches, at, keys);
      }
    }
  }

  lemma NewKey<E>(
    all: seq<Occurrence<E>>, n: nat, indicators: seq<Indicator>, matches: seq<Match<E>>, at: seq<nat>, keys: set<string>,
    key: string)
    requires n < |all| && Scanned(all, n, indicators, matches, at) && KeysSeen(all, n, indicators, keys)
    requires IsHit(all[n], indicators) && key == DedupKey(all[n], indicators) && key !in keys
    ensures Scanned(all, n + 1, indicators, matches + [MatchOf(all[n], indicators)], at + [n])
    ensures KeysSeen(all, n + 1, indicators, keys + {key})
  {
    FirstIffNew(all, n, indicators, keys, key);
  }

  lemma NothingNew<E>(
    all: seq<Occurrence<E>>, n: nat, indicators: seq<Indicator>, matches: seq<Match<E>>, at: seq<nat>, keys: set<string>)
    requires n < |all| && Scanned(all, n, indicators, matches, at) && KeysSeen(all, n, indicators, keys)
    requires IsHit(all[n], indicators) ==> DedupKey(all[n], indicators) in keys
    ensures Scanned(all, n + 1, indicators, matches, at) && KeysSeen(all, n + 1, indicators, keys)
  {
    if IsHit(all[n], indicators) { FirstIffNew(all, n, indicators, keys, DedupKey(all[n], indicators)); }
  }

  lemma KeyText(id: string, field: string, value: string)
    ensures Join(KeyParts(id, field, value), ':') == id + [':'] + (field + [':'] + value)
  {
    var parts := KeyParts(id, field, value);
    assert parts[1..] == [field, value] && [field, value][1..] == [value];
    assert Join([value], ':') == value;
    assert Join([field, value], ':') == field + [':'] + value;
  }

  lemma KeyOfHit<E>(o: Occurrence<E>, indicators: seq<Indicator>, ind: Indicator)
    requires Lookup(indicators, (o.seen.iocType, o.seen.value)) == Some(ind)
    ensures DedupKey(o, indicators) == ind.id + [':'] + (o.seen.field + [':'] + o.seen.value)
  {
    KeyText(ind.id, o.seen.field, o.seen.value);
  }

  lemma FirstIffNew<E>(all: seq<Occurrence<E>>, n: nat, indicators: seq<Indicator>, keys: set<string>, key: string)
    requires n < |all| && IsHit(all[n], indicators) && key == DedupKey(all[n], indicators)
    requires KeysSeen(all, n, indicators, keys)
    ensures key !in keys <==> IsFirst(all, indicators, n)
  {
    if key in keys {
      var p :| 0 <= p < n && IsHit(all[p], indicators) && DedupKey(all[p], indicators) == key;
      assert SameKey(all, indicators, p, n);
    } else {
      forall q: nat | q < n ensures !SameKey(all, indicators, q, n) {
        assert IsHit(all[q], indicators) ==> DedupKey(all[q], indicators) != key;
      }
    }
  }

  lemma OccurrencesPrefix<E>(lines: seq<Line<E>>, observe: E -> seq<Observable>, n: nat)
    requires n < |lines|
    ensures Occurrences(lines[..n + 1], observe) == Occurrences(lines[..n], observe) + OfLine(lines[n], observe)
  {
    assert lines[..n + 1][..n] == lines[..n];
  }

  lemma {:induction false} PrefixOfAll<E>(lines: seq<Line<E>>, observe: E -> seq<Observable>, n: nat)
    requires n <= |lines|
    ensures Occurrences(lines[..n], observe) <= Occurrences(lines, observe)
    decreases |lines| - n
  {
    if n < |lines| {
      PrefixOfAll(lines, observe, n + 1);
      OccurrencesPrefix(lines, observe, n);
      PrefixTransitive(Occurrences(lines[..n], observe), Occurrences(lines[..n + 1], observe), Occurrences(lines, observe));
    } else {
      assert lines[..n] == lines;
    }
  }

  /** Where the occurrences of line n lie among all of them. */
  lemma NextLine<E>(lines: seq<Line<E>>, observe: E -> seq<Observable>, n: nat)
    requires n < |lines|
    ensures var all := Occurrences(lines, observe);
      var from, to := |Occurrences(lines[..n], observe)|, |Occurrences(lines[..n + 1], observe)|;
      from <= to <= |all| && all[from..to] == OfLine(lines[n], observe)
  {
    OccurrencesPrefix(lines, observe, n);
    PrefixOfAll(lines, observe, n + 1);
  }

  /** The matches are exactly those of the first occurrence of each key. */
  ghost predicate FirstHits<E>(all: seq<Occurrence<E>>, indicators: seq<Indicator>, matches: seq<Match<E>>) {
    exists at: seq<nat> :: Scanned(all, |all|, indicators, matches, at)
  }

  lemma NothingScanned<E>(lines: seq<Line<E>>, observe: E -> seq<Observable>, indicators: seq<Indicator>)
    ensures Occurrences(lines[..0], observe) == []
    ensures var all := Occurrences(lines, observe);
      Scanned(all, 0, indicators, [], []) && KeysSeen(all, 0, indicators, {})
  {
  }

  method Scan<E>(lines: seq<Line<E>>, observe: E -> seq<Observable>, indicators: seq<Indicator>)
    returns (matches: seq<Match<E>>)
    ensures FirstHits(Occurrences(lines, observe), indicators, matches)
  {
    hide Scanned, KeysSeen, Occurrences;
    var table := BuildTable(indicators);
    ghost var all := Occurrences(lines, observe);
    ghost var done := 0;
    var keys: set<string> := {};
    matches := [];
    ghost var at: seq<nat> := [];
    NothingScanned(lines, observe, indicators);
    for n := 0 to |lines|
      invariant done == |Occurrences(lines[..n], observe)| <= |all|
      invariant Scanned(all, done, indicators, matches, at) && KeysSeen(all, done, indicators, keys)
    {
      NextLine(lines, observe, n);
      match lines[n] {
        case Skipped =>
        case Event(event) =>
          var seen := observe(event);
          matches, at, keys := ScanEvent(all, done, event, seen, indicators, table, matches, at, keys);
          done := done + |seen|;
      }
    }
    assert lines[..|lines|] == lines;
  }

  /**
   One run for a processing job.  Without a timeline or without indicators the stored matches of an
   earlier run stay; otherwise they are replaced.
   */
  method RunMatching<E>(
    timeline: Option<seq<Line<E>>>, observe: E -> seq<Observable>, indicators: seq<Indicator>, stored: seq<Match<E>>)
    returns (count: nat, stored': seq<Match<E>>)
    ensures timeline.None? || indicators == [] ==> count == 0 && stored' == stored
    ensures timeline.Some? && indicators != [] ==>
              count == |stored'| && FirstHits(Occurrences(timeline.value, observe), indicators, stored')
  {
    if timeline.None? { return 0, stored; }
    if indicators == [] { return 0, stored; }
    stored' := Scan(timeline.value, observe, indicators);
    count := |stored'|;
  }

  // ----- One match per indicator, field and value -----

  /** Ids are UUIDs and extracted values are addresses, domains or digests; field names are arbitrary. */
  ghost predicate ColonFree<E>(all: seq<Occurrence<E>>, indicators: seq<Indicator>) {
    && (forall i :: 0 <= i < |indicators| ==> ':' !in indicators[i].id)
    && (forall p :: 0 <= p < |all| ==> ':' !in all[p].seen.value)
  }

  predicate SameTriple<E>(a: Occurrence<E>, b: Occurrence<E>, indicators: seq<Indicator>)
    requires IsHit(a, indicators) && IsHit(b, indicators)
  {
    Found(a, indicators).id == Found(b, indicators).id && a.seen.field == b.seen.field && a.seen.value == b.seen.value
  }

  lemma FirstSeparator(a: string, s: string, sep: char)
    requires sep !in a
    ensures var whole := a + [sep] + s; whole[|a|] == sep && forall k :: 0 <= k < |a| ==> whole[k] != sep
  {
    forall k | 0 <= k < |a| ensures (a + [sep] + s)[k] != sep { assert (a + [sep] + s)[k] == a[k]; }
  }

  lemma LastSeparator(s: string, a: string, sep: char)
    requires sep !in a
    ensures var whole := s + [sep] + a; whole[|s|] == sep && forall k :: |s| < k < |whole| ==> whole[k] != sep
  {
    forall k | |s| < k < |s| + 1 + |a| ensures (s + [sep] + a)[k] != sep { assert (s + [sep] + a)[k] == a[k - |s| - 1]; }
  }

  lemma SameCut(s: string, a: string, t: string, b: string, sep: char)
    requires |s| == |t| && s + [sep] + a == t + [sep] + b
    ensures s == t && a == b
  {
    var whole, other := s + [sep] + a, t + [sep] + b;
    assert s == whole[..|s|] == other[..|t|] == t;
    assert a == whole[|s| + 1..] == other[|t| + 1..] == b;
  }

  /** A colon-free id before and a colon-free value behind leave no doubt, whatever the field contains. */
  lemma KeyInjective(id: string, field: string, value: string, id': string, field': string, value': string)
    requires ':' !in id && ':' !in id' && ':' !in value && ':' !in value'
    requires Join(KeyParts(id, field, value), ':') == Join(KeyParts(id', field', value'), ':')
    ensures id == id' && field == field' && value == value'
  {
    KeyText(id, field, value);
    KeyText(id', field', value');
    FirstSeparator(id, field + [':'] + value, ':');
    FirstSeparator(id', field' + [':'] + value', ':');
    SameCut(id, field + [':'] + value, id', field' + [':'] + value', ':');
    LastSeparator(field, value, ':');
    LastSeparator(field', value', ':');
    SameCut(field, value, field', value', ':');
  }

  ghost predicate KeyShared(id: string, field: string, value: string) {
    exists id', field', value' ::
      && (id' != id || field' != field || value' != value)
      && Join(KeyParts(id', field', value'), ':') == Join(KeyParts(id, field, value), ':')
  }

  /** A different triple has the same key if and only if the id, the field or the value holds a colon. */
  lemma KeySharedExactly(id: string, field: string, value: string)
    ensures KeyShared(id, field, value) <==> ':' in id || ':' in field || ':' in value
  {
    if ':' in id || ':' in field || ':' in value {
      var id', field', value' := OtherTriple(id, field, value);
    } else {
      forall id', field', value' | Join(KeyParts(id', field', value'), ':') == Join(KeyParts(id, field, value), ':')
        ensures id' == id && field' == field && value' == value
      {
        var parts, parts' := KeyParts(id, field, value), KeyParts(id', field', value');
        assert Free(parts, ':');
        JoinInjective(parts, parts', ':');
        assert parts[0] == parts'[0] && parts[1] == parts'[1] && parts[2] == parts'[2];
      }
    }
  }

  /** Moves the text on one side of a colon to the neighbour. */
  lemma OtherTriple(id: string, field: string, value: string) returns (id': string, field': string, value': string)
    requires ':' in id || ':' in field || ':' in value
    ensures id' != id || field' != field || value' != value
    ensures Join(KeyParts(id', field', value'), ':') == Join(KeyParts(id, field, value), ':')
  {
    id', field', value' := id, field, value;
    if ':' in id {
      var a, b := Halves(id, ':');
      id', field' := a, b + ":" + field;
      assert id' + ":" + field' == id + ":" + field;
      JoinShift(KeyParts(id', field', value), KeyParts(id, field, value), ':', 0);
    } else if ':' in field {
      var a, b := Halves(field, ':');
      id', field' := id + ":" + a, b;
      assert id' + ":" + field' == id + ":" + field;
      JoinShift(KeyParts(id', field', value), KeyParts(id, field, value), ':', 0);
    } else {
      var a, b := Halves(value, ':');
      field', value' := field + ":" + a, b;
      assert field' + ":" + value' == field + ":" + value;
      JoinShift(KeyParts(id, field', value'), KeyParts(id, field, value), ':', 1);
    }
  }

  lemma FoundIsLoaded<E>(o: Occurrence<E>, indicators: seq<Indicator>)
    requires IsHit(o, indicators)
    ensures Found(o, indicators) in indicators
  {
    LookupMeans(indicators, (o.seen.iocType, o.seen.value));
  }

  lemma SameKeyIsSameTriple<E>(all: seq<Occurrence<E>>, indicators: seq<Indicator>, p: nat, q: nat)
    requires p < |all| && q < |all| && ColonFree(all, indicators)
    requires IsHit(all[p], indicators) && IsHit(all[q], indicators)
    ensures SameKey(all, indicators, p, q) <==> SameTriple(all[p], all[q], indicators)
  {
    FoundIsLoaded(all[p], indicators);
    FoundIsLoaded(all[q], indicators);
    if SameKey(all, indicators, p, q) {
      var a, b := all[p].seen, all[q].seen;
      KeyInjective(Found(all[p], indicators).id, a.field, a.value, Found(all[q], indicators).id, b.field, b.value);
    }
  }

  /** Position p holds the first hit for its indicator, field and value. */
  ghost predicate FirstOfTriple<E>(all: seq<Occurrence<E>>, indicators: seq<Indicator>, p: nat)
    requires p < |all|
  {
    && IsHit(all[p], indicators)
    && forall q: nat :: q < p && IsHit(all[q], indicators) ==> !SameTriple(all[q], all[p], indicators)
  }

  /**
   The nested-scan specification: matches are exactly the first hits of each (indicator, field, value), in
   scan order and carrying their event.
   */
  lemma OneMatchPerTriple<E>(all: seq<Occurrence<E>>, indicators: seq<Indicator>, matches: seq<Match<E>>, at: seq<nat>, p: nat)
    requires ColonFree(all, indicators) && Scanned(all, |all|, indicators, matches, at) && p < |all|
    ensures p in at <==> FirstOfTriple(all, indicators, p)
    ensures IsHit(all[p], indicators) ==> exists k ::
              0 <= k < |at| && at[k] <= p && IsHit(all[at[k]], indicators) && SameTriple(all[at[k]], all[p], indicators)
  {
    FirstEither(all, indicators, p);
    if IsHit(all[p], indicators) {
      var q := EarliestOfTriple(all, indicators, p);
      FirstEither(all, indicators, q);
      assert q in at;
      var k :| 0 <= k < |at| && at[k] == q;
      assert at[k] <= p && SameTriple(all[at[k]], all[p], indicators);
    }
  }

  lemma FirstEither<E>(all: seq<Occurrence<E>>, indicators: seq<Indicator>, p: nat)
    requires p < |all| && ColonFree(all, indicators)
    ensures IsFirst(all, indicators, p) <==> FirstOfTriple(all, indicators, p)
  {
    forall q: nat | q < p && IsHit(all[q], indicators) && IsHit(all[p], indicators)
      ensures SameKey(all, indicators, q, p) <==> SameTriple(all[q], all[p], indicators)
    {
      SameKeyIsSameTriple(all, indicators, q, p);
    }
  }

  lemma {:induction false} EarliestOfTriple<E>(all: seq<Occurrence<E>>, indicators: seq<Indicator>, p: nat) returns (q: nat)
    requires p < |all| && IsHit(all[p], indicators)
    ensures q <= p && FirstOfTriple(all, indicators, q) && SameTriple(all[q], all[p], indicators)
  {
    if FirstOfTriple(all, indicators, p) {
      q := p;
    } else {
      var r: nat :| r < p && IsHit(all[r], indicators) && SameTriple(all[r], all[p], indicators);
      q := EarliestOfTriple(all, indicators, r);
    }
  }
}
