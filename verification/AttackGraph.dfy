/**
 Reconstruction of an attack chain from the tags of Sigma hits: tag extraction, kill-chain ordering
 of tactics, and the directed graph of tactics and techniques.  The technique taxonomy is a
 parameter; the results hold for any table.
 */
module AttackGraph {
  import opened Strings
  import opened Delimited

  // ----- Data model -----

  datatype NodeKind = Tactic | Technique

  datatype Node = Node(id: string, title: string, kind: NodeKind)

  datatype EdgeKind = LeadsTo | Uses

  datatype Edge = Edge(source: string, target: string, kind: EdgeKind)

  type Taxonomy = map<string, seq<string>>

  /** Kill-chain order. */
  const TACTICS: seq<string> := [
    "initial_access", "execution", "persistence", "privilege_escalation", "defense_evasion", "credential_access",
    "discovery", "lateral_movement", "collection", "command_and_control", "exfiltration", "impact"]

  // ----- Tags -----

  const PREFIX := "attack."

  predicate IsTechniqueId(s: string) {
    |s| >= 5 && s[0] == 'T'
  }

  datatype Tag = TacticTag(slug: string) | TechniqueTag(id: string) | OtherTag

  function ParseTag(raw: string): Tag {
    var tag := Strip(Lower(raw));
    if !(PREFIX <= tag) then OtherTag
    else
      var part := tag[|PREFIX|..];
      if part in TACTICS then TacticTag(part)
      else if |part| >= 5 && part[0] == 't' then TechniqueTag(Upper(part))
      else OtherTag
  }

  /** A tag names a tactic exactly when it is its slug behind the prefix; technique ids start with T. */
  lemma ParseTagMeans(raw: string, slug: string)
    ensures ParseTag(raw) == TacticTag(slug) <==> slug in TACTICS && Strip(Lower(raw)) == PREFIX + slug
    ensures ParseTag(raw).TechniqueTag? ==> IsTechniqueId(ParseTag(raw).id)
  {
    if Strip(Lower(raw)) == PREFIX + slug { assert Strip(Lower(raw))[|PREFIX|..] == slug; }
  }

  function Slugs(tags: seq<Tag>): seq<string> {
    if tags == [] then []
    else
      var tag := tags[|tags| - 1];
      Slugs(tags[..|tags| - 1]) + if tag.TacticTag? then [tag.slug] else []
  }

  function TechniqueIds(tags: seq<Tag>): seq<string> {
    if tags == [] then []
    else
      var tag := tags[|tags| - 1];
      TechniqueIds(tags[..|tags| - 1]) + if tag.TechniqueTag? then [tag.id] else []
  }

  lemma {:induction false} TagsMean(tags: seq<Tag>, t: string)
    ensures t in Slugs(tags) <==> TacticTag(t) in tags
    ensures t in TechniqueIds(tags) <==> TechniqueTag(t) in tags
  {
    if tags != [] {
      var n := |tags| - 1;
      TagsMean(tags[..n], t);
      assert tags == tags[..n] + [tags[n]];
    }
  }

  function ParseTags(raw: seq<string>): (r: seq<Tag>)
    ensures |r| == |raw|
  {
    seq(|raw|, i requires 0 <= i < |raw| => ParseTag(raw[i]))
  }

  /** The twelve tactics in kill-chain order. */
  lemma KillChain()
    ensures Height(TACTICS, "initial_access") < Height(TACTICS, "execution") < Height(TACTICS, "persistence")
          < Height(TACTICS, "privilege_escalation") < Height(TACTICS, "defense_evasion")
          < Height(TACTICS, "credential_access") < Height(TACTICS, "discovery") < Height(TACTICS, "lateral_movement")
          < Height(TACTICS, "collection") < Height(TACTICS, "command_and_control") < Height(TACTICS, "exfiltration")
          < Height(TACTICS, "impact")
  {
    hide Height;
    TacticAt(0, "initial_access");
    TacticAt(1, "execution");
    TacticAt(2, "persistence");
    TacticAt(3, "privilege_escalation");
    TacticAt(4, "defense_evasion");
    TacticAt(5, "credential_access");
    TacticAt(6, "discovery");
    TacticAt(7, "lateral_movement");
    TacticAt(8, "collection");
    TacticAt(9, "command_and_control");
    TacticAt(10, "exfiltration");
    TacticAt(11, "impact");
  }

  lemma TacticAt(i: nat, t: string)
    requires i < |TACTICS| && TACTICS[i] == t
    ensures Height(TACTICS, t) == i
  {
    hide Height;
    TacticsAreDistinct();
    HeightOfElement(TACTICS, i);
  }

  lemma TacticNames(t: string)
    ensures t in TACTICS <==> t in {
              "initial_access", "execution", "persistence", "privilege_escalation", "defense_evasion", "credential_access",
              "discovery", "lateral_movement", "collection", "command_and_control", "exfiltration", "impact"}
  {
  }

  lemma OneMoreTag(tags: seq<Tag>, tag: Tag)
    ensures Slugs(tags + [tag]) == Slugs(tags) + if tag.TacticTag? then [tag.slug] else []
    ensures TechniqueIds(tags + [tag]) == TechniqueIds(tags) + if tag.TechniqueTag? then [tag.id] else []
  {
    assert (tags + [tag])[..|tags|] == tags;
  }

  /** Tags are taken one after the other, in order. */
  lemma {:induction false} TagsConcat(a: seq<Tag>, b: seq<Tag>)
    ensures Slugs(a + b) == Slugs(a) + Slugs(b) && TechniqueIds(a + b) == TechniqueIds(a) + TechniqueIds(b)
  {
    if b == [] {
      assert a + b == a;
    } else {
      var n := |b| - 1;
      TagsConcat(a, b[..n]);
      OneMoreAfter(a, b[..n], b[n]);
      assert b == b[..n] + [b[n]];
    }
  }

  lemma OneMoreAfter(a: seq<Tag>, b: seq<Tag>, tag: Tag)
    requires Slugs(a + b) == Slugs(a) + Slugs(b) && TechniqueIds(a + b) == TechniqueIds(a) + TechniqueIds(b)
    ensures Slugs(a + (b + [tag])) == Slugs(a) + Slugs(b + [tag])
    ensures TechniqueIds(a + (b + [tag])) == TechniqueIds(a) + TechniqueIds(b + [tag])
  {
    hide Slugs, TechniqueIds;
    assert a + (b + [tag]) == a + b + [tag];
    OneMoreTag(a + b, tag);
    OneMoreTag(b, tag);
  }

  lemma OneTag(t: string)
    ensures Slugs([TacticTag(t)]) == [t] && TechniqueIds([TechniqueTag(t)]) == [t]
  {
    var a, b: seq<Tag> := [TacticTag(t)], [TechniqueTag(t)];
    assert a[..0] == [] && b[..0] == [];
    assert Slugs(a[..0]) == [] && TechniqueIds(b[..0]) == [];
  }

  /** A technique is extracted exactly when a tag behind the prefix starts with t, is long enough and is no tactic. */
  lemma TechniqueTagsMean(raw: seq<string>, t: string)
    ensures t in TechniqueIds(ParseTags(raw)) <==>
            exists i, part :: 0 <= i < |raw| && Strip(Lower(raw[i])) == "attack." + part && part !in TACTICS
              && |part| >= 5 && part[0] == 't' && t == Upper(part)
  {
    hide Upper, Lower, Strip;
    var tags := ParseTags(raw);
    TagsMean(tags, t);
    forall i | 0 <= i < |raw|
      ensures tags[i] == TechniqueTag(t) <==> exists part :: IsTechniquePart(raw[i], part) && t == Upper(part)
    {
      TechniqueTagMeans(raw[i], t);
    }
  }

  ghost predicate IsTechniquePart(raw: string, part: string) {
    Strip(Lower(raw)) == "attack." + part && part !in TACTICS && |part| >= 5 && part[0] == 't'
  }

  lemma TechniqueTagMeans(raw: string, t: string)
    ensures ParseTag(raw) == TechniqueTag(t) <==> exists part :: IsTechniquePart(raw, part) && t == Upper(part)
  {
    hide Upper, Lower, Strip;
    var tag := Strip(Lower(raw));
    if part :| IsTechniquePart(raw, part) && t == Upper(part) { assert tag[7..] == part; }
    if ParseTag(raw) == TechniqueTag(t) { assert tag == "attack." + tag[7..] && IsTechniquePart(raw, tag[7..]); }
  }

  /** Extraction yields slugs of the fixed list, each tagged literally, and T-numbers. */
  lemma ExtractedTags(raw: seq<string>, t: string)
    ensures t in Slugs(ParseTags(raw)) <==> exists i :: 0 <= i < |raw| && t in TACTICS && Strip(Lower(raw[i])) == "attack." + t
    ensures t in TechniqueIds(ParseTags(raw)) ==> IsTechniqueId(t)
  {
    var tags := ParseTags(raw);
    TagsMean(tags, t);
    forall i | 0 <= i < |raw|
      ensures tags[i] == TacticTag(t) <==> t in TACTICS && Strip(Lower(raw[i])) == PREFIX + t
      ensures tags[i] == TechniqueTag(t) ==> IsTechniqueId(t)
    {
      ParseTagMeans(raw[i], t);
    }
  }

  /** Tactics and techniques named by the tags of one rule, in order and with repetitions. */
  method ExtractTags(raw: seq<string>) returns (tactics: seq<string>, techniques: seq<string>)
    ensures tactics == Slugs(ParseTags(raw)) && techniques == TechniqueIds(ParseTags(raw))
  {
    tactics, techniques := [], [];
    ghost var tags := ParseTags(raw);
    for i := 0 to |raw|
      invariant tactics == Slugs(tags[..i]) && techniques == TechniqueIds(tags[..i])
    {
      assert tags[..i + 1][..i] == tags[..i];
      match ParseTag(raw[i])
      case TacticTag(slug) => tactics := tactics + [slug];
      case TechniqueTag(id) => techniques := techniques + [id];
      case OtherTag =>
    }
    assert tags[..|raw|] == tags;
  }

  // ----- Kill-chain order -----

  /** Position in the kill chain; anything that is no tactic comes after all tactics. */
  function Height(order: seq<string>, id: string): nat {
    if order == [] || order[0] == id then 0 else 1 + Height(order[1..], id)
  }

  lemma {:induction false} HeightBounds(order: seq<string>, id: string)
    ensures Height(order, id) <= |order|
    ensures Height(order, id) < |order| <==> id in order
  {
    if order != [] && order[0] != id {
      HeightBounds(order[1..], id);
      assert order == [order[0]] + order[1..];
    }
  }

  lemma {:induction false} HeightOfElement(order: seq<string>, i: nat)
    requires i < |order| && forall p, q :: 0 <= p < q < |order| ==> order[p] != order[q]
    ensures Height(order, order[i]) == i
  {
    if i > 0 { HeightOfElement(order[1..], i - 1); }
  }

  ghost predicate Ascending(order: seq<string>, tactics: seq<string>) {
    && (forall p :: 0 <= p < |tactics| ==> tactics[p] in order)
    && forall p, q :: 0 <= p < q < |tactics| ==> Height(order, tactics[p]) < Height(order, tactics[q])
  }

  /** Keeps the tactics that occur, in kill-chain order. */
  method OrderTactics(order: seq<string>, all: set<string>) returns (tactics: seq<string>)
    requires forall p, q :: 0 <= p < q < |order| ==> order[p] != order[q]
    ensures Ascending(order, tactics)
    ensures forall t :: t in tactics <==> t in order && t in all
  {
    tactics := [];
    for i := 0 to |order|
      invariant forall t :: t in tactics <==> t in order[..i] && t in all
      invariant forall p :: 0 <= p < |tactics| ==> tactics[p] in order && Height(order, tactics[p]) < i
      invariant forall p, q :: 0 <= p < q < |tactics| ==> Height(order, tactics[p]) < Height(order, tactics[q])
    {
      HeightOfElement(order, i);
      assert order[..i + 1] == order[..i] + [order[i]];
      if order[i] in all { tactics := tactics + [order[i]]; }
    }
    assert order[..|order|] == order;
  }

  lemma TacticsAreDistinct()
    ensures forall p, q :: 0 <= p < q < |TACTICS| ==> TACTICS[p] != TACTICS[q]
    ensures forall t :: t in TACTICS ==> t != "" && !IsTechniqueId(t)
  {
  }

  // ----- The graph -----

  /** The table row of a technique: the full id, or else its base id. */
  function Lookup(taxonomy: Taxonomy, technique: string): seq<string> {
    var full, base := Upper(technique), Upper(Split(technique, '.')[0]);
    if full in taxonomy && taxonomy[full] != [] then taxonomy[full]
    else if base in taxonomy then taxonomy[base]
    else []
  }

  function Associated(links: map<string, set<string>>, technique: string): set<string> {
    if technique in links then links[technique] else {}
  }

  /** The tactics a technique hangs off: those it was tagged with, else the table's, else the first. */
  function Sources(tactics: seq<string>, technique: string, links: map<string, set<string>>, taxonomy: Taxonomy): set<string> {
    var tagged := set t | t in Associated(links, technique) && t in tactics;
    var listed := set t | t in Lookup(taxonomy, technique) && t in tactics;
    if tagged != {} then tagged else if listed != {} then listed else if tactics != [] then {tactics[0]} else {}
  }

  /** What stands before the first dot of a technique id, and the row that the table has for either. */
  lemma LookupMeans(taxonomy: Taxonomy, technique: string) returns (base: string, rest: string)
    ensures technique == base + rest && '.' !in base && (rest == "" || rest[0] == '.')
    ensures Upper(technique) in taxonomy && taxonomy[Upper(technique)] != [] ==>
              Lookup(taxonomy, technique) == taxonomy[Upper(technique)]
    ensures Upper(technique) !in taxonomy || taxonomy[Upper(technique)] == [] ==>
              Lookup(taxonomy, technique) == if Upper(base) in taxonomy then taxonomy[Upper(base)] else []
  {
    hide Upper;
    base := Split(technique, '.')[0];
    SplitFree(technique, '.');
    JoinOfSplit(technique, '.');
    rest := technique[|base|..];
  }

  /** The tagged tactics if there are any, else the listed ones if there are any, else the first of the chain. */
  lemma SourcesMean(tactics: seq<string>, technique: string, links: map<string, set<string>>, taxonomy: Taxonomy, t: string)
    ensures var sources := Sources(tactics, technique, links, taxonomy);
      if exists s :: s in tactics && technique in links && s in links[technique]
      then t in sources <==> t in tactics && t in links[technique]
      else if exists s :: s in tactics && s in Lookup(taxonomy, technique)
      then t in sources <==> t in tactics && t in Lookup(taxonomy, technique)
      else t in sources <==> tactics != [] && t == tactics[0]
  {
    hide Lookup;
    var tagged := set s | s in Associated(links, technique) && s in tactics;
    var listed := set s | s in Lookup(taxonomy, technique) && s in tactics;
    if s :| s in tactics && technique in links && s in links[technique] { assert s in tagged; }
    if s :| s in tactics && s in Lookup(taxonomy, technique) { assert s in listed; }
    if s :| s in tagged { assert s in tactics && technique in links && s in links[technique]; }
  }

  /** Consecutive tactics; an empty slug starts no edge. */
  function PathEdges(tactics: seq<string>): seq<Edge> {
    if |tactics| < 2 then []
    else
      var n := |tactics| - 1;
      PathEdges(tactics[..n]) + if tactics[n - 1] == "" then [] else [Edge(tactics[n - 1], tactics[n], LeadsTo)]
  }

  function Ids(s: seq<string>): set<string> {
    set t | t in s
  }

  lemma IdsPrefix(s: seq<string>, i: nat)
    requires i < |s|
    ensures Ids(s[..i + 1]) == Ids(s[..i]) + {s[i]}
  {
    assert s[..i + 1] == s[..i] + [s[i]];
  }

  ghost predicate NodesOk(nodes: seq<Node>, ids: set<string>) {
    && (forall p, q :: 0 <= p < q < |nodes| ==> nodes[p].id != nodes[q].id)
    && (forall id :: id in ids <==> exists p :: 0 <= p < |nodes| && nodes[p].id == id)
  }

  /** Exactly the uses-edges the first n techniques ask for. */
  ghost predicate UsesOk(
    uses: seq<Edge>, tactics: seq<string>, techniques: seq<string>, n: nat,
    links: map<string, set<string>>, taxonomy: Taxonomy)
    requires n <= |techniques|
  {
    forall e :: e in uses <==>
      e.kind.Uses? && e.target in techniques[..n] && e.source in Sources(tactics, e.target, links, taxonomy)
  }

  method AddNode(nodes: seq<Node>, ghost ids: set<string>, node: Node) returns (r: seq<Node>)
    requires NodesOk(nodes, ids)
    ensures NodesOk(r, ids + {node.id})
    ensures nodes <= r && forall p :: |nodes| <= p < |r| ==> r[p] == node
    ensures node.id in ids ==> r == nodes
  {
    if exists p :: 0 <= p < |nodes| && nodes[p].id == node.id {
      assert ids + {node.id} == ids;
      r := nodes;
    } else {
      r := nodes + [node];
      assert r[|nodes|].id == node.id;
      assert forall id :: id in ids ==> exists p :: 0 <= p < |nodes| && nodes[p].id == id && r[p] == nodes[p];
    }
  }

  /** Some listing of a set, as iterating over it gives. */
  method Listing(s: set<string>) returns (r: seq<string>)
    ensures forall x :: x in r <==> x in s
    ensures forall p, q :: 0 <= p < q < |r| ==> r[p] != r[q]
  {
    r := [];
    var rest := s;
    while rest != {}
      invariant rest <= s
      invariant forall x :: x in r <==> x in s && x !in rest
      invariant forall p, q :: 0 <= p < q < |r| ==> r[p] != r[q]
      decreases rest
    {
      var x :| x in rest;
      r, rest := r + [x], rest - {x};
    }
  }

  lemma NoNodes()
    ensures NodesOk([], Ids([]))
  {
  }

  method AddTactics(tactics: seq<string>, display: string -> string) returns (nodes: seq<Node>, edges: seq<Edge>)
    ensures NodesOk(nodes, Ids(tactics))
    ensures forall p :: 0 <= p < |nodes| ==> nodes[p] == Node(nodes[p].id, display(nodes[p].id), Tactic)
    ensures edges == PathEdges(tactics)
  {
    hide NodesOk;
    nodes, edges := [], [];
    var previous := "";
    NoNodes();
    assert tactics[..0] == [];
    for i := 0 to |tactics|
      invariant NodesOk(nodes, Ids(tactics[..i]))
      invariant forall p :: 0 <= p < |nodes| ==> nodes[p] == Node(nodes[p].id, display(nodes[p].id), Tactic)
      invariant edges == PathEdges(tactics[..i])
      invariant previous == if i == 0 then "" else tactics[i - 1]
    {
      assert tactics[..i + 1][..i] == tactics[..i];
      IdsPrefix(tactics, i);
      nodes := AddNode(nodes, Ids(tactics[..i]), Node(tactics[i], display(tactics[i]), Tactic));
      if previous != "" { edges := edges + [Edge(previous, tactics[i], LeadsTo)]; }
      previous := tactics[i];
    }
    assert tactics[..|tactics|] == tactics;
  }

  /** The uses-edges of one technique. */
  method LinkTechnique(
    tactics: seq<string>, technique: string, links: map<string, set<string>>, taxonomy: Taxonomy)
    returns (uses: seq<Edge>)
    ensures forall e :: e in uses <==>
              e.kind.Uses? && e.target == technique && e.source in Sources(tactics, technique, links, taxonomy)
  {
    var chosen := Listing(set t | t in Associated(links, technique) && t in tactics);
    if chosen == [] {
      assert (set t | t in Associated(links, technique) && t in tactics) == {};
      chosen := Listing(set t | t in Lookup(taxonomy, technique) && t in tactics);
      if chosen == [] {
        assert (set t | t in Lookup(taxonomy, technique) && t in tactics) == {};
        if tactics != [] { chosen := [tactics[0]]; }
      } else {
        assert chosen[0] in chosen;
      }
    } else {
      assert chosen[0] in chosen;
    }
    assert forall t :: t in chosen <==> t in Sources(tactics, technique, links, taxonomy);
    uses := seq(|chosen|, i requires 0 <= i < |chosen| => Edge(chosen[i], technique, Uses));
    forall e: Edge | e.kind.Uses? && e.target == technique && e.source in chosen ensures e in uses {
      var i :| 0 <= i < |chosen| && chosen[i] == e.source;
      assert uses[i] == e;
    }
  }

  lemma UsesNext(
    uses: seq<Edge>, more: seq<Edge>, tactics: seq<string>, techniques: seq<string>, i: nat,
    links: map<string, set<string>>, taxonomy: Taxonomy)
    requires i < |techniques| && UsesOk(uses, tactics, techniques, i, links, taxonomy)
    requires forall e :: e in more <==>
               e.kind.Uses? && e.target == techniques[i] && e.source in Sources(tactics, techniques[i], links, taxonomy)
    ensures UsesOk(uses + more, tactics, techniques, i + 1, links, taxonomy)
  {
    assert techniques[..i + 1] == techniques[..i] + [techniques[i]];
  }

  lemma NodeIdsIn(nodes: seq<Node>, ids: set<string>)
    requires NodesOk(nodes, ids)
    ensures forall p :: 0 <= p < |nodes| ==> nodes[p].id in ids
  {
  }

  /** Tactics show their display name, techniques their id. */
  predicate Labelled(nodes: seq<Node>, tactics: seq<string>, display: string -> string) {
    forall p :: 0 <= p < |nodes| ==>
      nodes[p] == if nodes[p].id in tactics then Node(nodes[p].id, display(nodes[p].id), Tactic)
                  else Node(nodes[p].id, nodes[p].id, Technique)
  }

  lemma LabelledNext(nodes: seq<Node>, r: seq<Node>, tactics: seq<string>, display: string -> string, technique: string)
    requires Labelled(nodes, tactics, display) && nodes <= r && (technique in tactics ==> r == nodes)
    requires forall p :: |nodes| <= p < |r| ==> r[p] == Node(technique, technique, Technique)
    ensures Labelled(r, tactics, display)
  {
  }

  lemma NoUses(tactics: seq<string>, techniques: seq<string>, links: map<string, set<string>>, taxonomy: Taxonomy)
    ensures UsesOk([], tactics, techniques, 0, links, taxonomy)
  {
  }

  /** Builds the graph; `uses` are the edges after the kill-chain path. */
  method BuildGraph(
    tactics: seq<string>, techniques: seq<string>, links: map<string, set<string>>, taxonomy: Taxonomy,
    display: string -> string)
    returns (nodes: seq<Node>, edges: seq<Edge>, ghost uses: seq<Edge>)
    ensures NodesOk(nodes, Ids(tactics) + Ids(techniques)) && Labelled(nodes, tactics, display)
    ensures edges == PathEdges(tactics) + uses
    ensures UsesOk(uses, tactics, techniques, |techniques|, links, taxonomy)
  {
    hide NodesOk, UsesOk, PathEdges, Sources;
    nodes, edges := AddTactics(tactics, display);
    NodeIdsIn(nodes, Ids(tactics));
    uses := [];
    NoUses(tactics, techniques, links, taxonomy);
    assert Ids(tactics) + Ids(techniques[..0]) == Ids(tactics);
    for i := 0 to |techniques|
      invariant NodesOk(nodes, Ids(tactics) + Ids(techniques[..i])) && Labelled(nodes, tactics, display)
      invariant edges == PathEdges(tactics) + uses
      invariant UsesOk(uses, tactics, techniques, i, links, taxonomy)
    {
      var technique := techniques[i];
      ghost var ids := Ids(tactics) + Ids(techniques[..i]);
      IdsPrefix(techniques, i);
      assert Ids(tactics) + Ids(techniques[..i + 1]) == ids + {technique};
      ghost var before := nodes;
      nodes := AddNode(nodes, ids, Node(technique, technique, Technique));
      LabelledNext(before, nodes, tactics, display, technique);
      var more := LinkTechnique(tactics, technique, links, taxonomy);
      UsesNext(uses, more, tactics, techniques, i, links, taxonomy);
      edges, uses := edges + more, uses + more;
    }
    assert techniques[..|techniques|] == techniques;
  }

  // ----- Shape of the graph -----

  predicate Consecutive(tactics: seq<string>, p: nat, e: Edge) {
    p + 1 < |tactics| && tactics[p] != "" && tactics[p] == e.source && tactics[p + 1] == e.target
  }

  lemma {:induction false} PathEdgesMean(tactics: seq<string>, e: Edge)
    ensures e in PathEdges(tactics) <==> e.kind.LeadsTo? && exists p: nat :: Consecutive(tactics, p, e)
  {
    if |tactics| >= 2 {
      var n := |tactics| - 1;
      PathEdgesMean(tactics[..n], e);
      if p: nat :| Consecutive(tactics, p, e) {
        assert p == n - 1 || Consecutive(tactics[..n], p, e);
      }
      if p: nat :| Consecutive(tactics[..n], p, e) {
        assert Consecutive(tactics, p, e);
      }
      if tactics[n - 1] != "" && e == Edge(tactics[n - 1], tactics[n], LeadsTo) {
        assert Consecutive(tactics, n - 1, e);
      }
    }
  }

  ghost predicate IsWalk(edges: seq<Edge>, walk: seq<string>) {
    |walk| >= 2 && forall p :: 0 <= p < |walk| - 1 ==> Joined(edges, walk, p)
  }

  ghost predicate Joined(edges: seq<Edge>, walk: seq<string>, p: nat)
    requires p < |walk| - 1
  {
    exists e :: e in edges && e.source == walk[p] && e.target == walk[p + 1]
  }

  /** The inputs as chain building prepares them. */
  ghost predicate Prepared(tactics: seq<string>, techniques: seq<string>) {
    Ascending(TACTICS, tactics) && forall t :: t in techniques ==> IsTechniqueId(t)
  }

  lemma SourcesAreTactics(tactics: seq<string>, technique: string, links: map<string, set<string>>, taxonomy: Taxonomy)
    ensures forall t :: t in Sources(tactics, technique, links, taxonomy) ==> t in tactics
    ensures tactics != [] ==> Sources(tactics, technique, links, taxonomy) != {}
  {
  }

  /** Every edge climbs. */
  lemma EdgesClimb(
    tactics: seq<string>, techniques: seq<string>, links: map<string, set<string>>, taxonomy: Taxonomy, uses: seq<Edge>, e: Edge)
    requires Prepared(tactics, techniques) && UsesOk(uses, tactics, techniques, |techniques|, links, taxonomy)
    requires e in PathEdges(tactics) + uses
    ensures Height(TACTICS, e.source) < Height(TACTICS, e.target)
    ensures e.source in tactics && (e.target in tactics || e.target in techniques)
  {
    assert techniques[..|techniques|] == techniques;
    if e in PathEdges(tactics) {
      PathEdgesMean(tactics, e);
      var p: nat :| Consecutive(tactics, p, e);
    } else {
      SourcesAreTactics(tactics, e.target, links, taxonomy);
      TacticsAreDistinct();
      HeightBounds(TACTICS, e.source);
      HeightBounds(TACTICS, e.target);
    }
  }

  lemma {:induction false} WalksClimb(edges: seq<Edge>, walk: seq<string>)
    requires IsWalk(edges, walk)
    requires forall e :: e in edges ==> Height(TACTICS, e.source) < Height(TACTICS, e.target)
    ensures Height(TACTICS, walk[0]) < Height(TACTICS, walk[|walk| - 1])
  {
    var n := |walk| - 1;
    assert Joined(edges, walk, n - 1);
    if n > 1 {
      forall p | 0 <= p < n - 1 ensures Joined(edges, walk[..n], p) { assert Joined(edges, walk, p); }
      WalksClimb(edges, walk[..n]);
    }
  }

  ghost predicate HasNode(nodes: seq<Node>, id: string) {
    exists p :: 0 <= p < |nodes| && nodes[p].id == id
  }

  /** Every edge joins two nodes; no walk returns to where it began. */
  ghost predicate IsDag(nodes: seq<Node>, edges: seq<Edge>) {
    && (forall p, q :: 0 <= p < q < |nodes| ==> nodes[p].id != nodes[q].id)
    && (forall e :: e in edges ==> HasNode(nodes, e.source) && HasNode(nodes, e.target))
    && (forall walk :: IsWalk(edges, walk) ==> walk[0] != walk[|walk| - 1])
  }

  lemma AllEdgesClimb(
    tactics: seq<string>, techniques: seq<string>, links: map<string, set<string>>, taxonomy: Taxonomy, uses: seq<Edge>)
    requires Prepared(tactics, techniques) && UsesOk(uses, tactics, techniques, |techniques|, links, taxonomy)
    ensures forall e :: e in PathEdges(tactics) + uses ==>
              && Height(TACTICS, e.source) < Height(TACTICS, e.target)
              && e.source in tactics && (e.target in tactics || e.target in techniques)
  {
    forall e | e in PathEdges(tactics) + uses
      ensures Height(TACTICS, e.source) < Height(TACTICS, e.target)
      ensures e.source in tactics && (e.target in tactics || e.target in techniques)
    {
      EdgesClimb(tactics, techniques, links, taxonomy, uses, e);
    }
  }

  lemma ClimbingIsDag(nodes: seq<Node>, ids: set<string>, edges: seq<Edge>)
    requires NodesOk(nodes, ids)
    requires forall e :: e in edges ==> Height(TACTICS, e.source) < Height(TACTICS, e.target)
    requires forall e :: e in edges ==> e.source in ids && e.target in ids
    ensures IsDag(nodes, edges)
  {
    forall walk | IsWalk(edges, walk) ensures walk[0] != walk[|walk| - 1] { WalksClimb(edges, walk); }
  }

  /**
   The graph of prepared inputs is a well-formed DAG, tactic and technique ids do not meet, and once
   there is a tactic every technique has an incoming edge.
   */
  lemma GraphIsDag(
    tactics: seq<string>, techniques: seq<string>, links: map<string, set<string>>, taxonomy: Taxonomy,
    nodes: seq<Node>, edges: seq<Edge>, uses: seq<Edge>)
    requires Prepared(tactics, techniques)
    requires NodesOk(nodes, Ids(tactics) + Ids(techniques))
    requires edges == PathEdges(tactics) + uses && UsesOk(uses, tactics, techniques, |techniques|, links, taxonomy)
    ensures IsDag(nodes, edges)
    ensures Ids(tactics) !! Ids(techniques)
    ensures forall t :: t in techniques && tactics != [] ==> exists e :: e in edges && e.target == t
  {
    AllEdgesClimb(tactics, techniques, links, taxonomy, uses);
    ClimbingIsDag(nodes, Ids(tactics) + Ids(techniques), edges);
    DisjointIds(tactics, techniques);
    IncomingEdges(tactics, techniques, links, taxonomy, uses);
    forall t | t in techniques && tactics != [] ensures exists e :: e in edges && e.target == t {
      var e :| e in uses && e.target == t;
      assert e in edges;
    }
  }

  lemma DisjointIds(tactics: seq<string>, techniques: seq<string>)
    requires Prepared(tactics, techniques)
    ensures Ids(tactics) !! Ids(techniques)
  {
    TacticsAreDistinct();
  }

  lemma IncomingEdges(tactics: seq<string>, techniques: seq<string>, links: map<string, set<string>>, taxonomy: Taxonomy, uses: seq<Edge>)
    requires UsesOk(uses, tactics, techniques, |techniques|, links, taxonomy)
    ensures forall t :: t in techniques && tactics != [] ==> exists e :: e in uses && e.target == t
  {
    assert techniques[..|techniques|] == techniques;
    forall t | t in techniques && tactics != [] ensures exists e :: e in uses && e.target == t {
      SourcesAreTactics(tactics, t, links, taxonomy);
      var s :| s in Sources(tactics, t, links, taxonomy);
      assert Edge(s, t, Uses) in uses;
    }
  }
}
