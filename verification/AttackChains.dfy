/**
 Clustering of Sigma hits into quarter-hour windows and the record built for each window.  Times are
 UTC; a timestamp is kept as its calendar fields below the hour plus the hours since the epoch.
 */
module AttackChains {
  import opened Options
  import opened Strings
  import opened AttackGraph

  // ----- Windows -----

  datatype Timestamp = Timestamp(hour: int, minute: nat, second: nat, micro: nat) {
    predicate Valid() { minute < 60 && second < 60 && micro < 1_000_000 }

    /** Microseconds since the epoch. */
    function Micros(): int { ((hour * 60 + minute) * 60 + second) * 1_000_000 + micro }
  }

  const WINDOW_MINUTES := 15
  const WINDOW_MICROS := WINDOW_MINUTES * 60 * 1_000_000

  function WindowKey(ts: Option<Timestamp>): Option<Timestamp> {
    if ts.None? then None
    else Some(ts.value.(minute := ts.value.minute / WINDOW_MINUTES * WINDOW_MINUTES, second := 0, micro := 0))
  }

  lemma MultipleOfWindow(k: int)
    ensures k * WINDOW_MICROS % WINDOW_MICROS == 0
  {
    assert WINDOW_MICROS == 900_000_000;
    assert k * 900_000_000 % 900_000_000 == 0;
  }

  lemma QuarterOf(minute: nat, k: nat)
    requires minute < 60 && k == minute / WINDOW_MINUTES
    ensures k < 4 && 15 * k <= minute < 15 * k + 15
  {
    assert WINDOW_MINUTES == 15;
  }

  /** Replacing fields floors the instant to a multiple of fifteen minutes. */
  lemma WindowIsFloor(ts: Timestamp)
    requires ts.Valid()
    ensures var w := WindowKey(Some(ts)).value;
      && w.Valid()
      && w.Micros() % 900_000_000 == 0
      && w.Micros() <= ts.Micros() < w.Micros() + 900_000_000
  {
    var w, k := WindowKey(Some(ts)).value, ts.minute / WINDOW_MINUTES;
    assert w.minute == 15 * k;
    QuarterOf(ts.minute, k);
    MultipleOfWindow(ts.hour * 4 + k);
    assert w.Micros() == (ts.hour * 4 + k) * 900_000_000;
  }

  /** Different windows do not overlap. */
  lemma WindowsAreDisjoint(a: Timestamp, b: Timestamp, t: int)
    requires a.Valid() && b.Valid()
    requires var v, w := WindowKey(Some(a)).value.Micros(), WindowKey(Some(b)).value.Micros();
      v <= t < v + WINDOW_MICROS && w <= t < w + WINDOW_MICROS
    ensures WindowKey(Some(a)) == WindowKey(Some(b))
  {
    WindowIsFloor(a);
    WindowIsFloor(b);
    var v, w := WindowKey(Some(a)).value, WindowKey(Some(b)).value;
    OneMultiple(v.Micros(), w.Micros(), t);
    SameInstant(v, w);
  }

  lemma OneMultiple(v: int, w: int, t: int)
    requires v % WINDOW_MICROS == 0 && w % WINDOW_MICROS == 0
    requires v <= t < v + WINDOW_MICROS && w <= t < w + WINDOW_MICROS
    ensures v == w
  {
    assert WINDOW_MICROS == 900_000_000;
    var a, b := v / 900_000_000, w / 900_000_000;
    assert v == a * 900_000_000 && w == b * 900_000_000;
  }

  lemma SameDigit(q: int, r: nat, q': int, r': nat, m: nat)
    requires m == 60 || m == 1_000_000
    requires r < m && r' < m && q * m + r == q' * m + r'
    ensures q == q' && r == r'
  {
    if m == 60 {
      assert q * 60 + r == q' * 60 + r';
    } else {
      assert q * 1_000_000 + r == q' * 1_000_000 + r';
    }
  }

  /** The calendar fields are the digits of the instant. */
  lemma SameInstant(a: Timestamp, b: Timestamp)
    requires a.Valid() && b.Valid() && a.Micros() == b.Micros()
    ensures a == b
  {
    SameDigit((a.hour * 60 + a.minute) * 60 + a.second, a.micro, (b.hour * 60 + b.minute) * 60 + b.second, b.micro, 1_000_000);
    SameDigit(a.hour * 60 + a.minute, a.second, b.hour * 60 + b.minute, b.second, 60);
    SameDigit(a.hour, a.minute, b.hour, b.minute, 60);
  }

  // ----- Severity -----

  function SeverityRank(s: string): nat {
    if s == "critical" then 4 else if s == "high" then 3 else if s == "medium" then 2 else if s == "low" then 1 else 0
  }

  /** No severity ranks higher, and none before it as high. */
  predicate FirstHighest(severities: seq<string>, i: nat)
    requires i < |severities|
  {
    && (forall j :: 0 <= j < |severities| ==> SeverityRank(Lower(severities[j])) <= SeverityRank(Lower(severities[i])))
    && (forall j :: 0 <= j < i ==> SeverityRank(Lower(severities[j])) < SeverityRank(Lower(severities[i])))
  }

  lemma NewHighest(severities: seq<string>, i: nat)
    requires i < |severities|
    requires forall j :: 0 <= j < i ==> SeverityRank(Lower(severities[j])) < SeverityRank(Lower(severities[i]))
    ensures FirstHighest(severities[..i + 1], i)
  {
  }

  lemma StillHighest(severities: seq<string>, i: nat, j: nat)
    requires j < i < |severities| && FirstHighest(severities[..i], j)
    requires SeverityRank(Lower(severities[i])) <= SeverityRank(Lower(severities[j]))
    ensures FirstHighest(severities[..i + 1], j)
  {
  }

  ghost predicate Occurs(severities: seq<string>, word: string) {
    exists i :: 0 <= i < |severities| && Lower(severities[i]) == word
  }

  /** Critical before high before medium before low before anything else, of which the first is taken. */
  ghost predicate IsHighest(severities: seq<string>, best: string) {
    if Occurs(severities, "critical") then best == "critical"
    else if Occurs(severities, "high") then best == "high"
    else if Occurs(severities, "medium") then best == "medium"
    else if Occurs(severities, "low") then best == "low"
    else best == if severities == [] then "informational" else Lower(severities[0])
  }

  lemma FirstHighestMeans(severities: seq<string>, i: nat)
    requires i < |severities| && FirstHighest(severities, i)
    ensures IsHighest(severities, Lower(severities[i]))
  {
    hide Lower;
    forall word: string, j | 0 <= j < |severities| && Lower(severities[j]) == word
      ensures SeverityRank(word) <= SeverityRank(Lower(severities[i]))
    {
    }
    assert Occurs(severities, Lower(severities[i]));
    assert i > 0 ==> SeverityRank(Lower(severities[0])) < SeverityRank(Lower(severities[i]));
  }

  /** The first severity of maximal rank, lower-cased. */
  method HighestSeverity(severities: seq<string>) returns (best: string)
    ensures IsHighest(severities, best)
    ensures severities == [] ==> best == "informational"
    ensures severities != [] ==> exists i :: 0 <= i < |severities| && FirstHighest(severities, i) && best == Lower(severities[i])
  {
    hide SeverityRank, Lower;
    best := "informational";
    var bestRank: int := -1;
    ghost var at: nat := 0;
    for i := 0 to |severities|
      invariant i == 0 ==> best == "informational" && bestRank == -1
      invariant i > 0 ==> at < i && FirstHighest(severities[..i], at) && best == Lower(severities[at]) && bestRank == SeverityRank(best)
    {
      var s := Lower(severities[i]);
      assert forall j :: 0 <= j < i ==> severities[..i][j] == severities[j];
      if SeverityRank(s) > bestRank {
        NewHighest(severities, i);
        bestRank, best, at := SeverityRank(s), s, i;
      } else {
        StillHighest(severities, i, at);
      }
    }
    assert severities[..|severities|] == severities;
    if severities != [] { FirstHighestMeans(severities, at); } else { NoSeverity(best); }
  }

  lemma NoSeverity(best: string)
    requires best == "informational"
    ensures IsHighest([], best)
  {
  }

  // ----- Clustering -----

  datatype Hit = Hit(id: string, tags: seq<string>, severity: string, ts: Option<Timestamp>)

  /** One entry of the insertion-ordered dictionary: a window and the positions of its hits. */
  datatype Group = Group(key: Option<Timestamp>, members: seq<nat>)

  function KeyOf(h: Hit): Option<Timestamp> {
    WindowKey(h.ts)
  }

  function SizeOf(groups: seq<Group>): nat {
    if groups == [] then 0 else SizeOf(groups[..|groups| - 1]) + |groups[|groups| - 1].members|
  }

  lemma {:induction false} SizeAfterUpdate(groups: seq<Group>, i: nat, g: Group)
    requires i < |groups|
    ensures SizeOf(groups[i := g]) == SizeOf(groups) - |groups[i].members| + |g.members|
  {
    var n := |groups| - 1;
    if i < n {
      SizeAfterUpdate(groups[..n], i, g);
      assert groups[i := g][..n] == groups[..n][i := g];
    } else {
      assert groups[i := g][..n] == groups[..n];
    }
  }

  ghost predicate GroupOk(hits: seq<Hit>, n: nat, g: Group)
    requires n <= |hits|
  {
    && g.members != []
    && (forall p :: 0 <= p < |g.members| ==> g.members[p] < n && KeyOf(hits[g.members[p]]) == g.key)
    && (forall p, q :: 0 <= p < q < |g.members| ==> g.members[p] < g.members[q])
  }

  /** The first n hits, each in the one group of its window, in order; groups by their first hit. */
  ghost predicate Clustered(hits: seq<Hit>, n: nat, groups: seq<Group>)
    requires n <= |hits|
  {
    && (forall i :: 0 <= i < |groups| ==> GroupOk(hits, n, groups[i]))
    && (forall i, j :: 0 <= i < j < |groups| ==> groups[i].key != groups[j].key)
    && (forall i, j :: 0 <= i < j < |groups| ==> groups[i].members[0] < groups[j].members[0])
    && (forall h: nat :: h < n ==> Placed(hits, h, groups))
    && SizeOf(groups) == n
  }

  ghost predicate Placed(hits: seq<Hit>, h: nat, groups: seq<Group>)
    requires h < |hits|
  {
    exists i :: 0 <= i < |groups| && groups[i].key == KeyOf(hits[h]) && h in groups[i].members
  }

  lemma JoinGroup(hits: seq<Hit>, n: nat, groups: seq<Group>, i: nat)
    requires n < |hits| && Clustered(hits, n, groups) && i < |groups| && groups[i].key == KeyOf(hits[n])
    ensures Clustered(hits, n + 1, groups[i := groups[i].(members := groups[i].members + [n])])
  {
    hide Placed, SizeOf, KeyOf;
    var g := groups[i].(members := groups[i].members + [n]);
    var groups' := groups[i := g];
    SizeAfterUpdate(groups, i, g);
    GroupsStayOk(hits, n, groups, i, groups');
    forall h: nat | h < n ensures Placed(hits, h, groups') {
      assert Placed(hits, h, groups);
      StaysPlaced(hits, h, groups, i, g);
    }
    NewMemberPlaced(hits, n, groups', i);
  }

  lemma NewMemberPlaced(hits: seq<Hit>, n: nat, groups: seq<Group>, i: nat)
    requires n < |hits| && i < |groups| && groups[i].key == KeyOf(hits[n])
    requires groups[i].members != [] && groups[i].members[|groups[i].members| - 1] == n
    ensures Placed(hits, n, groups)
  {
    assert n in groups[i].members;
  }

  lemma GroupsStayOk(hits: seq<Hit>, n: nat, groups: seq<Group>, i: nat, groups': seq<Group>)
    requires n < |hits| && i < |groups| && groups[i].key == KeyOf(hits[n])
    requires forall j :: 0 <= j < |groups| ==> GroupOk(hits, n, groups[j])
    requires groups' == groups[i := groups[i].(members := groups[i].members + [n])]
    ensures forall j :: 0 <= j < |groups'| ==> GroupOk(hits, n + 1, groups'[j])
  {
    forall j | 0 <= j < |groups'| ensures GroupOk(hits, n + 1, groups'[j]) {
      assert GroupOk(hits, n, groups[j]);
    }
  }

  lemma StaysPlaced(hits: seq<Hit>, h: nat, groups: seq<Group>, i: nat, g: Group)
    requires h < |hits| && i < |groups| && Placed(hits, h, groups)
    requires g.key == groups[i].key && forall m :: m in groups[i].members ==> m in g.members
    ensures Placed(hits, h, groups[i := g])
  {
    var j :| 0 <= j < |groups| && groups[j].key == KeyOf(hits[h]) && h in groups[j].members;
    assert groups[i := g][j].key == KeyOf(hits[h]) && h in groups[i := g][j].members;
  }

  lemma NewGroup(hits: seq<Hit>, n: nat, groups: seq<Group>)
    requires n < |hits| && Clustered(hits, n, groups)
    requires forall i :: 0 <= i < |groups| ==> groups[i].key != KeyOf(hits[n])
    ensures Clustered(hits, n + 1, groups + [Group(KeyOf(hits[n]), [n])])
  {
    var groups' := groups + [Group(KeyOf(hits[n]), [n])];
    assert groups'[..|groups|] == groups;
    forall j | 0 <= j < |groups'| ensures GroupOk(hits, n + 1, groups'[j]) {
      if j < |groups| { assert GroupOk(hits, n, groups[j]); }
    }
    forall h: nat | h < n + 1 ensures Placed(hits, h, groups') {
      if h < n {
        assert Placed(hits, h, groups);
        var j :| 0 <= j < |groups| && groups[j].key == KeyOf(hits[h]) && h in groups[j].members;
        assert groups'[j].key == KeyOf(hits[h]) && h in groups'[j].members;
      } else {
        assert groups'[|groups|].members[0] == n;
      }
    }
  }

  lemma NoGroups(hits: seq<Hit>)
    ensures Clustered(hits, 0, [])
  {
  }

  method Cluster(hits: seq<Hit>) returns (groups: seq<Group>)
    ensures Clustered(hits, |hits|, groups)
  {
    hide Clustered;
    groups := [];
    NoGroups(hits);
    for n := 0 to |hits|
      invariant Clustered(hits, n, groups)
    {
      var key := KeyOf(hits[n]);
      var i := 0;
      while i < |groups| && groups[i].key != key
        invariant 0 <= i <= |groups|
        invariant forall j :: 0 <= j < i ==> groups[j].key != key
      {
        i := i + 1;
      }
      if i < |groups| {
        JoinGroup(hits, n, groups, i);
        groups := groups[i := groups[i].(members := groups[i].members + [n])];
      } else {
        NewGroup(hits, n, groups);
        groups := groups + [Group(key, [n])];
      }
    }
  }

  /** The groups partition the hits. */
  lemma ClustersPartition(hits: seq<Hit>, groups: seq<Group>, h: nat, i: nat, j: nat)
    requires Clustered(hits, |hits|, groups) && i < |groups| && j < |groups|
    requires h in groups[i].members && h in groups[j].members
    ensures i == j && h < |hits|
  {
    assert GroupOk(hits, |hits|, groups[i]) && GroupOk(hits, |hits|, groups[j]);
    var p :| 0 <= p < |groups[i].members| && groups[i].members[p] == h;
    var q :| 0 <= q < |groups[j].members| && groups[j].members[q] == h;
  }

  // ----- The record of one window -----

  datatype Chain = Chain(
    windowStart: Option<int>, windowEnd: Option<int>, tactics: seq<string>, techniques: seq<string>,
    nodes: seq<Node>, edges: seq<Edge>, hitCount: nat, severity: string, hitIds: seq<string>)

  function SeverityOf(h: Hit): string {
    if h.severity == "" then "informational" else h.severity
  }

  ghost function TacticsOf(h: Hit): seq<string> { Slugs(ParseTags(h.tags)) }

  ghost function TechniquesOf(h: Hit): seq<string> { TechniqueIds(ParseTags(h.tags)) }

  // What the first n members of a window are tagged with, alone and together.

  ghost predicate NamesTactic(hits: seq<Hit>, members: seq<nat>, n: nat, t: string)
    requires n <= |members| && forall p :: 0 <= p < |members| ==> members[p] < |hits|
  {
    exists p :: 0 <= p < n && t in TacticsOf(hits[members[p]])
  }

  ghost predicate NamesTechnique(hits: seq<Hit>, members: seq<nat>, n: nat, t: string)
    requires n <= |members| && forall p :: 0 <= p < |members| ==> members[p] < |hits|
  {
    exists p :: 0 <= p < n && t in TechniquesOf(hits[members[p]])
  }

  ghost predicate NamesTogether(hits: seq<Hit>, members: seq<nat>, n: nat, technique: string, tactic: string)
    requires n <= |members| && forall p :: 0 <= p < |members| ==> members[p] < |hits|
  {
    exists p :: 0 <= p < n && technique in TechniquesOf(hits[members[p]]) && tactic in TacticsOf(hits[members[p]])
  }

  /** First occurrences, in order. */
  function Distinct(s: seq<string>): seq<string> {
    if s == [] then []
    else
      var rest, last := Distinct(s[..|s| - 1]), s[|s| - 1];
      if last in rest then rest else rest + [last]
  }

  lemma {:induction false} DistinctMeans(s: seq<string>)
    ensures forall t :: t in Distinct(s) <==> t in s
    ensures forall p, q :: 0 <= p < q < |Distinct(s)| ==> Distinct(s)[p] != Distinct(s)[q]
  {
    if s != [] {
      var n := |s| - 1;
      DistinctMeans(s[..n]);
      assert s == s[..n] + [s[n]];
    }
  }

  /** The technique tags of the first n members, one hit after the other. */
  ghost function AllTechniques(hits: seq<Hit>, members: seq<nat>, n: nat): seq<string>
    requires n <= |members| && forall p :: 0 <= p < |members| ==> members[p] < |hits|
  {
    if n == 0 then [] else AllTechniques(hits, members, n - 1) + TechniquesOf(hits[members[n - 1]])
  }

  lemma {:induction false} AllTechniquesMean(hits: seq<Hit>, members: seq<nat>, n: nat, t: string)
    requires n <= |members| && forall p :: 0 <= p < |members| ==> members[p] < |hits|
    ensures t in AllTechniques(hits, members, n) <==> NamesTechnique(hits, members, n, t)
  {
    if n > 0 { AllTechniquesMean(hits, members, n - 1, t); }
  }

  ghost predicate Gathered(
    hits: seq<Hit>, members: seq<nat>, n: nat, tactics: set<string>, techniques: seq<string>, links: map<string, set<string>>)
    requires n <= |members| && forall p :: 0 <= p < |members| ==> members[p] < |hits|
  {
    && (forall t :: t in tactics <==> NamesTactic(hits, members, n, t))
    && techniques == Distinct(AllTechniques(hits, members, n))
    && (forall t, s :: s in Associated(links, t) <==> NamesTogether(hits, members, n, t, s))
  }

  lemma NamesNext(hits: seq<Hit>, members: seq<nat>, n: nat)
    requires n < |members| && forall p :: 0 <= p < |members| ==> members[p] < |hits|
    ensures var h := hits[members[n]];
      && (forall t :: NamesTactic(hits, members, n + 1, t) <==> NamesTactic(hits, members, n, t) || t in TacticsOf(h))
      && (forall t, s :: NamesTogether(hits, members, n + 1, t, s) <==>
            NamesTogether(hits, members, n, t, s) || (t in TechniquesOf(h) && s in TacticsOf(h)))
  {
  }

  lemma NothingNamed(hits: seq<Hit>, members: seq<nat>)
    requires forall p :: 0 <= p < |members| ==> members[p] < |hits|
    ensures Gathered(hits, members, 0, {}, [], map[])
  {
  }

  lemma GatheredNext(
    hits: seq<Hit>, members: seq<nat>, n: nat,
    tactics: set<string>, techniques: seq<string>, links: map<string, set<string>>,
    techniques': seq<string>, links': map<string, set<string>>)
    requires n < |members| && forall p :: 0 <= p < |members| ==> members[p] < |hits|
    requires Gathered(hits, members, n, tactics, techniques, links)
    requires var h := hits[members[n]];
      && techniques' == Distinct(AllTechniques(hits, members, n) + TechniquesOf(h))
      && forall t :: Associated(links', t) == Associated(links, t) + (if t in TechniquesOf(h) then Ids(TacticsOf(h)) else {})
    ensures Gathered(hits, members, n + 1, tactics + Ids(TacticsOf(hits[members[n]])), techniques', links')
  {
    hide NamesTactic, NamesTogether, Distinct, Associated;
    NamesNext(hits, members, n);
  }

  method GatherTags(hits: seq<Hit>, members: seq<nat>)
    returns (tactics: set<string>, techniques: seq<string>, links: map<string, set<string>>)
    requires forall p :: 0 <= p < |members| ==> members[p] < |hits|
    ensures Gathered(hits, members, |members|, tactics, techniques, links)
  {
    hide NamesTactic, NamesTogether, AllTechniques;
    tactics, techniques, links := {}, [], map[];
    NothingNamed(hits, members);
    for n := 0 to |members|
      invariant Gathered(hits, members, n, tactics, techniques, links)
    {
      var slugs, ids := ExtractTags(hits[members[n]].tags);
      var more := AppendNew(techniques, ids, AllTechniques(hits, members, n));
      var linked := Link(links, slugs, ids);
      GatheredNext(hits, members, n, tactics, techniques, links, more, linked);
      tactics, techniques, links := tactics + Ids(slugs), more, linked;
    }
  }

  lemma DistinctNext(s: seq<string>, x: string)
    ensures Distinct(s + [x]) == if x in Distinct(s) then Distinct(s) else Distinct(s) + [x]
  {
    assert (s + [x])[..|s|] == s;
  }

  /** Appends what is not there yet. */
  method AppendNew(known: seq<string>, more: seq<string>, ghost before: seq<string>) returns (r: seq<string>)
    requires known == Distinct(before)
    ensures r == Distinct(before + more)
  {
    hide Distinct;
    r := known;
    assert before + more[..0] == before;
    for i := 0 to |more|
      invariant r == Distinct(before + more[..i])
    {
      DistinctNext(before + more[..i], more[i]);
      assert before + more[..i + 1] == before + more[..i] + [more[i]];
      if more[i] !in r { r := r + [more[i]]; }
    }
    assert more[..|more|] == more;
  }

  /** Records that each technique occurred together with each tactic. */
  method Link(links: map<string, set<string>>, slugs: seq<string>, ids: seq<string>)
    returns (r: map<string, set<string>>)
    ensures forall t :: Associated(r, t) == Associated(links, t) + (if t in ids then Ids(slugs) else {})
  {
    r := links;
    for i := 0 to |ids|
      invariant forall t :: Associated(r, t) == Associated(links, t) + (if t in ids[..i] then Ids(slugs) else {})
    {
      r := r[ids[i] := Associated(r, ids[i]) + Ids(slugs)];
    }
  }

  // What a record says about its window, its hits, their severity and their tags.

  predicate WindowPart(key: Option<Timestamp>, c: Chain) {
    && c.windowStart == (if key.Some? then Some(key.value.Micros()) else None)
    && c.windowEnd == (if key.Some? then Some(key.value.Micros() + WINDOW_MICROS) else None)
  }

  predicate HitPart(hits: seq<Hit>, members: seq<nat>, c: Chain)
    requires forall p :: 0 <= p < |members| ==> members[p] < |hits|
  {
    && c.hitCount == |c.hitIds| == |members|
    && (forall p :: 0 <= p < |members| ==> c.hitIds[p] == hits[members[p]].id)
  }

  function Severities(hits: seq<Hit>, members: seq<nat>): (r: seq<string>)
    requires forall p :: 0 <= p < |members| ==> members[p] < |hits|
    ensures |r| == |members| && forall p :: 0 <= p < |members| ==> r[p] == SeverityOf(hits[members[p]])
  {
    seq(|members|, i requires 0 <= i < |members| => SeverityOf(hits[members[i]]))
  }

  /** The first of maximal rank among the severities of the window. */
  ghost predicate SeverityPart(hits: seq<Hit>, members: seq<nat>, severity: string)
    requires forall p :: 0 <= p < |members| ==> members[p] < |hits|
  {
    members != [] ==> exists p :: 0 <= p < |members| && FirstHighest(Severities(hits, members), p)
                                  && severity == Lower(SeverityOf(hits[members[p]]))
  }

  /** The tactics each technique was tagged with in the same hit. */
  ghost predicate LinksOf(hits: seq<Hit>, members: seq<nat>, links: map<string, set<string>>)
    requires forall p :: 0 <= p < |members| ==> members[p] < |hits|
  {
    forall t, s :: s in Associated(links, t) <==> NamesTogether(hits, members, |members|, t, s)
  }

  ghost predicate GraphPart(
    hits: seq<Hit>, members: seq<nat>, taxonomy: Taxonomy,
    tactics: seq<string>, techniques: seq<string>, display: string -> string, nodes: seq<Node>, edges: seq<Edge>)
    requires forall p :: 0 <= p < |members| ==> members[p] < |hits|
  {
    && Ascending(TACTICS, tactics)
    && (forall t :: t in tactics <==> t in TACTICS && NamesTactic(hits, members, |members|, t))
    && techniques == Distinct(AllTechniques(hits, members, |members|))
    && NodesOk(nodes, Ids(tactics) + Ids(techniques)) && Labelled(nodes, tactics, display)
    && (exists links, uses ::
          && LinksOf(hits, members, links)
          && edges == PathEdges(tactics) + uses
          && UsesOk(uses, tactics, techniques, |techniques|, links, taxonomy))
    && IsDag(nodes, edges)
    && (forall t :: t in techniques && tactics != [] ==> exists e :: e in edges && e.target == t)
  }

  ghost predicate ChainOk(hits: seq<Hit>, taxonomy: Taxonomy, display: string -> string, g: Group, c: Chain)
    requires forall p :: 0 <= p < |g.members| ==> g.members[p] < |hits|
  {
    && WindowPart(g.key, c)
    && HitPart(hits, g.members, c)
    && SeverityPart(hits, g.members, c.severity)
    && GraphPart(hits, g.members, taxonomy, c.tactics, c.techniques, display, c.nodes, c.edges)
  }

  /** A window of fifteen minutes, or none. */
  lemma WindowPartMeans(key: Option<Timestamp>, c: Chain)
    requires WindowPart(key, c)
    ensures c.windowStart.None? <==> key.None?
    ensures c.windowEnd.None? <==> key.None?
    ensures c.windowStart.Some? ==> c.windowStart.value == key.value.Micros() && c.windowEnd.value - c.windowStart.value == 15 * 60 * 1_000_000
  {
  }

  /** The severity of a window is the highest of its hits; one without a severity counts as informational. */
  lemma SeverityPartMeans(hits: seq<Hit>, members: seq<nat>, severity: string)
    requires forall p :: 0 <= p < |members| ==> members[p] < |hits|
    requires members != [] && SeverityPart(hits, members, severity)
    ensures IsHighest(seq(|members|, p requires 0 <= p < |members| =>
                        if hits[members[p]].severity == "" then "informational" else hits[members[p]].severity), severity)
  {
    hide FirstHighest, IsHighest, Lower;
    var words := seq(|members|, p requires 0 <= p < |members| =>
                       if hits[members[p]].severity == "" then "informational" else hits[members[p]].severity);
    assert Severities(hits, members) == words;
    var p: nat :| p < |members| && FirstHighest(Severities(hits, members), p) && severity == Lower(SeverityOf(hits[members[p]]));
    FirstHighestMeans(words, p);
  }

  /** Where the p-th distinct element stands first. */
  ghost predicate FirstAt(s: seq<string>, at: seq<nat>) {
    && |at| == |Distinct(s)|
    && (forall p :: 0 <= p < |at| ==> at[p] < |s| && s[at[p]] == Distinct(s)[p] && s[at[p]] !in s[..at[p]])
    && forall p, q :: 0 <= p < q < |at| ==> at[p] < at[q]
  }

  /** The distinct elements come in the order of their first occurrences. */
  lemma {:induction false} DistinctInOrder(s: seq<string>) returns (at: seq<nat>)
    ensures FirstAt(s, at)
  {
    hide FirstAt, Distinct;
    at := [];
    if s == [] {
      NothingFirst();
    } else {
      var n := |s| - 1;
      at := DistinctInOrder(s[..n]);
      DistinctMeans(s[..n]);
      FirstAtNext(s[..n], at, s[n]);
      assert s == s[..n] + [s[n]];
      if s[n] !in s[..n] { at := at + [n]; }
    }
  }

  lemma NothingFirst()
    ensures FirstAt([], [])
  {
  }

  lemma FirstAtNext(s: seq<string>, at: seq<nat>, x: string)
    requires FirstAt(s, at) && (x in Distinct(s) <==> x in s)
    ensures FirstAt(s + [x], if x in s then at else at + [|s|])
  {
    hide Distinct;
    DistinctNext(s, x);
    forall p | 0 <= p < |at| ensures (s + [x])[..at[p]] == s[..at[p]] {
    }
    assert (s + [x])[..|s|] == s;
  }

  lemma NamedTechniqueIsId(hits: seq<Hit>, members: seq<nat>, t: string)
    requires forall p :: 0 <= p < |members| ==> members[p] < |hits|
    requires NamesTechnique(hits, members, |members|, t)
    ensures IsTechniqueId(t)
  {
    var p :| 0 <= p < |members| && t in TechniquesOf(hits[members[p]]);
    ExtractedTags(hits[members[p]].tags, t);
  }

  lemma TechniquesAreIds(hits: seq<Hit>, members: seq<nat>)
    requires forall p :: 0 <= p < |members| ==> members[p] < |hits|
    ensures forall t :: t in Distinct(AllTechniques(hits, members, |members|)) ==> IsTechniqueId(t)
  {
    hide *;
    var all := AllTechniques(hits, members, |members|);
    DistinctMeans(all);
    forall t | t in Distinct(all) ensures IsTechniqueId(t) {
      AllTechniquesMean(hits, members, |members|, t);
      NamedTechniqueIsId(hits, members, t);
    }
  }

  method GraphOf(hits: seq<Hit>, members: seq<nat>, taxonomy: Taxonomy, display: string -> string)
    returns (tactics: seq<string>, techniques: seq<string>, nodes: seq<Node>, edges: seq<Edge>)
    requires forall p :: 0 <= p < |members| ==> members[p] < |hits|
    ensures GraphPart(hits, members, taxonomy, tactics, techniques, display, nodes, edges)
  {
    hide NamesTactic, NamesTogether, Distinct, AllTechniques, IsTechniqueId, UsesOk, NodesOk, Labelled, IsDag, PathEdges;
    var all, links;
    all, techniques, links := GatherTags(hits, members);
    TacticsAreDistinct();
    tactics := OrderTactics(TACTICS, all);
    TechniquesAreIds(hits, members);
    ghost var uses;
    nodes, edges, uses := BuildGraph(tactics, techniques, links, taxonomy, display);
    GraphIsDag(tactics, techniques, links, taxonomy, nodes, edges, uses);
  }

  method WindowSeverity(hits: seq<Hit>, members: seq<nat>) returns (severity: string)
    requires forall p :: 0 <= p < |members| ==> members[p] < |hits|
    ensures SeverityPart(hits, members, severity)
  {
    severity := HighestSeverity(Severities(hits, members));
  }

  method BuildChain(hits: seq<Hit>, g: Group, taxonomy: Taxonomy, display: string -> string) returns (c: Chain)
    requires forall p :: 0 <= p < |g.members| ==> g.members[p] < |hits|
    ensures ChainOk(hits, taxonomy, display, g, c)
  {
    hide GraphPart, SeverityPart;
    var n := |g.members|;
    var hitIds := seq(n, i requires 0 <= i < n => hits[g.members[i]].id);
    var severity := WindowSeverity(hits, g.members);
    var tactics, techniques, nodes, edges := GraphOf(hits, g.members, taxonomy, display);
    var start := if g.key.Some? then Some(g.key.value.Micros()) else None;
    var end := if g.key.Some? then Some(g.key.value.Micros() + WINDOW_MICROS) else None;
    c := Chain(start, end, tactics, techniques, nodes, edges, n, severity, hitIds);
  }

  ghost predicate ChainsOk(hits: seq<Hit>, taxonomy: Taxonomy, display: string -> string, groups: seq<Group>, chains: seq<Chain>) {
    && |chains| <= |groups|
    && (forall i :: 0 <= i < |groups| ==> GroupOk(hits, |hits|, groups[i]))
    && (forall i :: 0 <= i < |chains| ==> ChainOk(hits, taxonomy, display, groups[i], chains[i]))
  }

  /** One record per window, in the order of the first hits. */
  ghost predicate Reconstructed(hits: seq<Hit>, taxonomy: Taxonomy, display: string -> string, chains: seq<Chain>) {
    exists groups: seq<Group> ::
      Clustered(hits, |hits|, groups) && |chains| == |groups| && ChainsOk(hits, taxonomy, display, groups, chains)
  }

  /** No hits, no records. */
  method BuildAttackChains(hits: seq<Hit>, taxonomy: Taxonomy, display: string -> string) returns (chains: seq<Chain>)
    ensures Reconstructed(hits, taxonomy, display, chains)
  {
    var clusters := Cluster(hits);
    chains := [];
    for i := 0 to |clusters|
      invariant |chains| == i && ChainsOk(hits, taxonomy, display, clusters, chains)
    {
      assert GroupOk(hits, |hits|, clusters[i]);
      var c := BuildChain(hits, clusters[i], taxonomy, display);
      OneMoreChain(hits, taxonomy, display, clusters, chains, c);
      chains := chains + [c];
    }
  }

  lemma OneMoreChain(
    hits: seq<Hit>, taxonomy: Taxonomy, display: string -> string, groups: seq<Group>, chains: seq<Chain>, c: Chain)
    requires ChainsOk(hits, taxonomy, display, groups, chains) && |chains| < |groups|
    requires ChainOk(hits, taxonomy, display, groups[|chains|], c)
    ensures ChainsOk(hits, taxonomy, display, groups, chains + [c])
  {
    hide ChainOk;
    var chains' := chains + [c];
    forall i | 0 <= i < |chains'| ensures ChainOk(hits, taxonomy, display, groups[i], chains'[i]) {
      if i < |chains| { assert chains'[i] == chains[i]; }
    }
  }

  function HitTotal(chains: seq<Chain>): nat {
    if chains == [] then 0 else HitTotal(chains[..|chains| - 1]) + chains[|chains| - 1].hitCount
  }

  lemma {:induction false} HitTotalIsSize(chains: seq<Chain>, groups: seq<Group>)
    requires |chains| == |groups|
    requires forall i :: 0 <= i < |chains| ==> chains[i].hitCount == |groups[i].members|
    ensures HitTotal(chains) == SizeOf(groups)
  {
    if chains != [] { HitTotalIsSize(chains[..|chains| - 1], groups[..|groups| - 1]); }
  }

  ghost predicate TimesValid(hits: seq<Hit>) {
    forall h :: 0 <= h < |hits| && hits[h].ts.Some? ==> hits[h].ts.value.Valid()
  }

  /** The hit counts of the stored chains add up to the number of hits. */
  lemma CountsAddUp(hits: seq<Hit>, taxonomy: Taxonomy, display: string -> string, chains: seq<Chain>)
    requires Reconstructed(hits, taxonomy, display, chains)
    ensures HitTotal(chains) == |hits|
  {
    var groups: seq<Group> :| Clustered(hits, |hits|, groups) && |chains| == |groups| && ChainsOk(hits, taxonomy, display, groups, chains);
    forall i | 0 <= i < |chains| ensures chains[i].hitCount == |groups[i].members| {
      assert ChainOk(hits, taxonomy, display, groups[i], chains[i]);
    }
    HitTotalIsSize(chains, groups);
  }

  /** Every timestamped hit lies in the half-open window of its chain; the others share the one without bounds. */
  lemma HitInWindow(
    hits: seq<Hit>, taxonomy: Taxonomy, display: string -> string, groups: seq<Group>, chains: seq<Chain>, i: nat, h: nat)
    requires TimesValid(hits) && ChainsOk(hits, taxonomy, display, groups, chains) && i < |chains|
    requires h < |hits| && groups[i].key == KeyOf(hits[h])
    ensures if hits[h].ts.Some? then Covers(chains[i], hits[h].ts.value.Micros()) else chains[i].windowStart.None?
  {
    assert GroupOk(hits, |hits|, groups[i]) && ChainOk(hits, taxonomy, display, groups[i], chains[i]);
    if hits[h].ts.Some? { WindowIsFloor(hits[h].ts.value); }
  }

  ghost predicate IdsDistinct(hits: seq<Hit>) {
    forall g, h :: 0 <= g < h < |hits| ==> hits[g].id != hits[h].id
  }

  /** The chain lists the hit, and its window holds the hit's time. */
  ghost predicate Holds(hits: seq<Hit>, chains: seq<Chain>, h: nat, i: nat)
    requires h < |hits|
  {
    && i < |chains| && hits[h].id in chains[i].hitIds
    && if hits[h].ts.Some? then Covers(chains[i], hits[h].ts.value.Micros()) else chains[i].windowStart.None?
  }

  lemma IdsListMembers(hits: seq<Hit>, members: seq<nat>, ids: seq<string>, h: nat)
    requires |ids| == |members| && IdsDistinct(hits) && h < |hits|
    requires forall p :: 0 <= p < |members| ==> members[p] < |hits| && ids[p] == hits[members[p]].id
    ensures hits[h].id in ids <==> h in members
  {
    if h in members {
      var p :| 0 <= p < |members| && members[p] == h;
      assert ids[p] == hits[h].id;
    }
    if hits[h].id in ids {
      var p :| 0 <= p < |ids| && ids[p] == hits[h].id;
      assert members[p] == h;
    }
  }

  lemma ListedIsMember(
    hits: seq<Hit>, taxonomy: Taxonomy, display: string -> string, groups: seq<Group>, chains: seq<Chain>, h: nat, i: nat)
    requires ChainsOk(hits, taxonomy, display, groups, chains) && IdsDistinct(hits) && h < |hits| && i < |chains|
    ensures hits[h].id in chains[i].hitIds <==> h in groups[i].members
  {
    hide GraphPart, SeverityPart, WindowPart, IdsDistinct;
    assert GroupOk(hits, |hits|, groups[i]) && ChainOk(hits, taxonomy, display, groups[i], chains[i]);
    IdsListMembers(hits, groups[i].members, chains[i].hitIds, h);
  }

  /** Every hit id lies in exactly one chain, and that chain's window holds its time. */
  lemma EveryHitInOneChain(hits: seq<Hit>, taxonomy: Taxonomy, display: string -> string, chains: seq<Chain>, h: nat)
    requires TimesValid(hits) && IdsDistinct(hits) && Reconstructed(hits, taxonomy, display, chains) && h < |hits|
    ensures exists i: nat :: Holds(hits, chains, h, i) && forall j: nat :: j < |chains| && hits[h].id in chains[j].hitIds ==> j == i
  {
    var groups: seq<Group> :| Clustered(hits, |hits|, groups) && |chains| == |groups| && ChainsOk(hits, taxonomy, display, groups, chains);
    var i := PlaceOf(hits, groups, h);
    ListedIsMember(hits, taxonomy, display, groups, chains, h, i);
    HitInWindow(hits, taxonomy, display, groups, chains, i, h);
    forall j: nat | j < |chains| && hits[h].id in chains[j].hitIds ensures j == i {
      ListedIsMember(hits, taxonomy, display, groups, chains, h, j);
      ClustersPartition(hits, groups, h, i, j);
    }
    assert Holds(hits, chains, h, i);
  }

  lemma PlaceOf(hits: seq<Hit>, groups: seq<Group>, h: nat) returns (i: nat)
    requires Clustered(hits, |hits|, groups) && h < |hits|
    ensures i < |groups| && groups[i].key == KeyOf(hits[h]) && h in groups[i].members
  {
    assert Placed(hits, h, groups);
    i :| i < |groups| && groups[i].key == KeyOf(hits[h]) && h in groups[i].members;
  }

  /** No two chains share an instant. */
  lemma ChainsDoNotOverlap(
    hits: seq<Hit>, taxonomy: Taxonomy, display: string -> string, chains: seq<Chain>, i: nat, j: nat, t: int)
    requires TimesValid(hits) && Reconstructed(hits, taxonomy, display, chains)
    requires i < |chains| && j < |chains| && Covers(chains[i], t) && Covers(chains[j], t)
    ensures i == j
  {
    var groups: seq<Group> :| Clustered(hits, |hits|, groups) && |chains| == |groups| && ChainsOk(hits, taxonomy, display, groups, chains);
    ChainsApart(hits, taxonomy, display, groups, chains, i, j, t);
  }

  predicate Covers(c: Chain, t: int) {
    c.windowStart.Some? && c.windowEnd.Some? && c.windowStart.value <= t < c.windowEnd.value
  }

  lemma ChainsApart(
    hits: seq<Hit>, taxonomy: Taxonomy, display: string -> string, groups: seq<Group>, chains: seq<Chain>, i: nat, j: nat, t: int)
    requires TimesValid(hits) && ChainsOk(hits, taxonomy, display, groups, chains) && i < |chains| && j < |chains|
    requires Covers(chains[i], t) && Covers(chains[j], t)
    ensures groups[i].key == groups[j].key
  {
    assert GroupOk(hits, |hits|, groups[i]) && ChainOk(hits, taxonomy, display, groups[i], chains[i]);
    assert GroupOk(hits, |hits|, groups[j]) && ChainOk(hits, taxonomy, display, groups[j], chains[j]);
    var a, b := hits[groups[i].members[0]], hits[groups[j].members[0]];
    WindowsAreDisjoint(a.ts.value, b.ts.value, t);
  }
}
