/**
 The chain of custody: hash-linked entries per incident, the verifier, and any number of
 transactions appending concurrently.

 SHA-256 and the keyed HMAC are parameters `sha` and `sign`.  Results that need more than that of
 the hash say so: its output is never empty and has no '|'.  Collisions are not assumed away: where two
 records could only be confused through one, the two entries whose hashed texts collide are returned.
 */
module ChainOfCustody {
  import opened Options
  import opened Delimited
  import opened Decimal

  // ----- Data model -----

  datatype Fields = Fields(
    incident: string, sequence: int, timestamp: string, action: string, actor: string, target: string)

  datatype Entry = Entry(
    id: string, fields: Fields, previousHash: Option<string>, entryHash: string, signature: Option<string>)

  /** `previous_hash or ""` */
  function OrEmpty(h: Option<string>): string {
    if h.Some? then h.value else ""
  }

  /** The seven parts that are joined with '|' and hashed. */
  function HashedParts(f: Fields, previous: Option<string>): seq<string> {
    [f.incident, IntText(f.sequence), f.timestamp, f.action, f.actor, f.target, OrEmpty(previous)]
  }

  function HashedText(f: Fields, previous: Option<string>): string {
    Join(HashedParts(f, previous), '|')
  }

  /** The text in full: seven parts, six pipes, an empty last part for the first entry. */
  lemma HashedTextMeans(f: Fields, previous: Option<string>)
    ensures HashedText(f, previous) ==
            f.incident + "|" + IntText(f.sequence) + "|" + f.timestamp + "|" + f.action + "|" + f.actor + "|" + f.target
            + "|" + if previous.Some? then previous.value else ""
  {
    hide Join;
    var parts := HashedParts(f, previous);
    forall k | 0 < k < 7 ensures Join(parts[..k + 1], '|') == Join(parts[..k], '|') + ['|'] + parts[k] {
      JoinConcat(parts[..k], [parts[k]], '|');
      JoinOne(parts[k]);
      assert parts[..k + 1] == parts[..k] + [parts[k]];
    }
    JoinOne(parts[0]);
    assert parts[..1] == [parts[0]] && parts[..7] == parts;
    assert Join(parts[..2], '|') == parts[0] + "|" + parts[1];
    assert Join(parts[..3], '|') == Join(parts[..2], '|') + "|" + parts[2];
    assert Join(parts[..4], '|') == Join(parts[..3], '|') + "|" + parts[3];
    assert Join(parts[..5], '|') == Join(parts[..4], '|') + "|" + parts[4];
    assert Join(parts[..6], '|') == Join(parts[..5], '|') + "|" + parts[5];
    assert Join(parts[..7], '|') == Join(parts[..6], '|') + "|" + parts[6];
  }

  lemma JoinOne(s: string)
    ensures Join([s], '|') == s
  {
  }

  function ChainHash(sha: string -> string, f: Fields, previous: Option<string>): string {
    sha(HashedText(f, previous))
  }

  // ----- The verifier -----

  datatype Verification = Accepted | BrokenHash | BrokenSignature

  /** The hash carried into position i. */
  function Carried(entries: seq<Entry>, i: nat): Option<string>
    requires i <= |entries|
  {
    if i == 0 then None else Some(entries[i - 1].entryHash)
  }

  predicate HashOk(sha: string -> string, entries: seq<Entry>, i: nat)
    requires i < |entries|
  {
    && entries[i].previousHash == Carried(entries, i)
    && entries[i].entryHash == ChainHash(sha, entries[i].fields, Carried(entries, i))
  }

  /** A missing or empty signature passes: unsigned rows predate signing. */
  predicate SignatureOk(sign: string -> string, e: Entry) {
    e.signature.None? || e.signature.value == "" || e.signature.value == sign(e.entryHash)
  }

  ghost predicate LinkOk(sha: string -> string, sign: string -> string, entries: seq<Entry>, i: nat)
    requires i < |entries|
  {
    HashOk(sha, entries, i) && SignatureOk(sign, entries[i])
  }

  ghost predicate ValidChain(sha: string -> string, sign: string -> string, entries: seq<Entry>) {
    forall i: nat :: i < |entries| ==> LinkOk(sha, sign, entries, i)
  }

  method VerifyEntries(sha: string -> string, sign: string -> string, entries: seq<Entry>)
    returns (r: Verification, n: nat)
    ensures n <= |entries| && ValidChain(sha, sign, entries[..n])
    ensures r.Accepted? <==> ValidChain(sha, sign, entries)
    ensures r.Accepted? ==> n == |entries|
    ensures r.BrokenHash? ==> n < |entries| && !HashOk(sha, entries, n)
    ensures r.BrokenSignature? ==> n < |entries| && HashOk(sha, entries, n) && !SignatureOk(sign, entries[n])
    ensures r.Accepted? ==> forall i: nat :: i < |entries| && entries[i].signature.Some? && entries[i].signature.value != "" ==>
              entries[i].signature.value == sign(entries[i].entryHash)
    ensures (forall i: nat :: i < |entries| ==>
               && HashOk(sha, entries, i)
               && entries[i].signature in {None, Some(""), Some(sign(entries[i].entryHash))}) ==> r.Accepted?
  {
    var previousHash := None;
    n := 0;
    while n < |entries|
      invariant n <= |entries|
      invariant previousHash == Carried(entries, n)
      invariant forall i: nat :: i < n ==> LinkOk(sha, sign, entries, i)
    {
      var entry := entries[n];
      var expected := ChainHash(sha, entry.fields, previousHash);
      if entry.previousHash != previousHash || entry.entryHash != expected {
        assert !LinkOk(sha, sign, entries, n);
        PrefixValid(sha, sign, entries, n);
        return BrokenHash, n;
      }
      if entry.signature.Some? && entry.signature.value != "" && entry.signature.value != sign(entry.entryHash) {
        assert !LinkOk(sha, sign, entries, n);
        PrefixValid(sha, sign, entries, n);
        return BrokenSignature, n;
      }
      previousHash := Some(entry.entryHash);
      n := n + 1;
    }
    assert entries[..n] == entries;
    forall i: nat | i < |entries| && entries[i].signature.Some? && entries[i].signature.value != ""
      ensures entries[i].signature.value == sign(entries[i].entryHash)
    {
      assert LinkOk(sha, sign, entries, i);
    }
    r := Accepted;
  }

  /** A chain is valid when each entry carries the hash before it, its own hash fits, and no signature is forged. */
  lemma ValidChainMeans(sha: string -> string, sign: string -> string, entries: seq<Entry>)
    ensures ValidChain(sha, sign, entries) <==>
            forall i: nat :: i < |entries| ==>
              && entries[i].previousHash == (if i == 0 then None else Some(entries[i - 1].entryHash))
              && entries[i].entryHash == sha(HashedText(entries[i].fields, entries[i].previousHash))
              && entries[i].signature in {None, Some(""), Some(sign(entries[i].entryHash))}
  {
    if ValidChain(sha, sign, entries) {
      forall i: nat | i < |entries|
        ensures entries[i].previousHash == (if i == 0 then None else Some(entries[i - 1].entryHash))
        ensures entries[i].entryHash == sha(HashedText(entries[i].fields, entries[i].previousHash))
        ensures entries[i].signature in {None, Some(""), Some(sign(entries[i].entryHash))}
      {
        assert LinkOk(sha, sign, entries, i);
      }
    } else {
      var i: nat :| i < |entries| && !LinkOk(sha, sign, entries, i);
      assert !(&& entries[i].previousHash == (if i == 0 then None else Some(entries[i - 1].entryHash))
               && entries[i].entryHash == sha(HashedText(entries[i].fields, entries[i].previousHash))
               && entries[i].signature in {None, Some(""), Some(sign(entries[i].entryHash))});
    }
  }

  lemma PrefixValid(sha: string -> string, sign: string -> string, entries: seq<Entry>, n: nat)
    requires n <= |entries|
    requires forall i: nat :: i < n ==> LinkOk(sha, sign, entries, i)
    ensures ValidChain(sha, sign, entries[..n])
  {
    forall i: nat | i < n ensures LinkOk(sha, sign, entries[..n], i) {
      assert LinkOk(sha, sign, entries, i);
    }
  }

  // ----- Tampering -----

  /** Entry i of one list and entry j of another hash different texts to the same value. */
  ghost predicate Collide(sha: string -> string, a: seq<Entry>, i: nat, b: seq<Entry>, j: nat) {
    && i < |a| && j < |b|
    && HashedText(a[i].fields, Carried(a, i)) != HashedText(b[j].fields, Carried(b, j))
    && ChainHash(sha, a[i].fields, Carried(a, i)) == ChainHash(sha, b[j].fields, Carried(b, j))
  }

  /** What is asked of the hash function's output; hexadecimal digests have both properties. */
  ghost predicate HexLike(sha: string -> string) {
    forall x :: sha(x) != "" && '|' !in sha(x)
  }

  predicate PipeFree(f: Fields) {
    '|' !in f.incident && '|' !in f.timestamp && '|' !in f.action && '|' !in f.actor && '|' !in f.target
  }

  /** Hashed fields and links agree; ids and signatures are not hashed. */
  ghost predicate SameRecord(a: seq<Entry>, b: seq<Entry>) {
    && |a| == |b|
    && forall i :: 0 <= i < |a| ==>
         a[i].fields == b[i].fields && a[i].previousHash == b[i].previousHash && a[i].entryHash == b[i].entryHash
  }

  /** The free-text fields stand next to each other in the joined text. */
  predicate TextPipeFree(f: Fields) {
    '|' !in f.timestamp && '|' !in f.action && '|' !in f.actor && '|' !in f.target
  }

  /** Part i of the incident id, cut at its pipes, could be read as the sequence number. */
  ghost predicate NumeralInside(incident: string, i: nat) {
    1 <= i < |Split(incident, '|')| && exists n :: Split(incident, '|')[i] == IntText(n)
  }

  /** Nothing in the joined text can be read differently. */
  ghost predicate Clear(f: Fields) {
    TextPipeFree(f) && forall i: nat :: !NumeralInside(f.incident, i)
  }

  /** Everything behind the incident id. */
  function Tail(f: Fields, p: Option<string>): seq<string> {
    HashedParts(f, p)[1..]
  }

  lemma IncidentThenTail(f: Fields, p: Option<string>)
    ensures HashedText(f, p) == f.incident + ['|'] + Join(Tail(f, p), '|')
    ensures Split(HashedText(f, p), '|') == Split(f.incident, '|') + Split(Join(Tail(f, p), '|'), '|')
  {
    SplitAround(f.incident, '|', Join(Tail(f, p), '|'));
  }

  lemma TailParts(f: Fields, p: Option<string>)
    ensures |Split(Join(Tail(f, p), '|'), '|')| >= 6
    ensures Split(Join(Tail(f, p), '|'), '|')[0] == IntText(f.sequence)
    ensures TextPipeFree(f) && '|' !in OrEmpty(p) ==> Split(Join(Tail(f, p), '|'), '|') == Tail(f, p)
  {
    var tail := Tail(f, p);
    SplitOfParts(tail, '|');
    if TextPipeFree(f) && '|' !in OrEmpty(p) {
      assert Free(tail, '|') by {
        assert tail == [IntText(f.sequence), f.timestamp, f.action, f.actor, f.target, OrEmpty(p)];
      }
      SplitOfJoin(tail, '|');
    }
  }

  lemma TailInjective(f: Fields, p: Option<string>, g: Fields, q: Option<string>)
    requires TextPipeFree(f) && '|' !in OrEmpty(p) && Join(Tail(f, p), '|') == Join(Tail(g, q), '|')
    ensures f.(incident := g.incident) == g && OrEmpty(p) == OrEmpty(q)
  {
    var a, b := Tail(f, p), Tail(g, q);
    assert Free(a, '|');
    JoinInjective(a, b, '|');
    assert a[0] == b[0] && a[1] == b[1] && a[2] == b[2] && a[3] == b[3] && a[4] == b[4] && a[5] == b[5];
    IntRoundTrip(f.sequence);
    IntRoundTrip(g.sequence);
  }

  /** Two ways to cut one list: the front of the second is no longer, and equal if as long. */
  lemma SameCut(a: seq<string>, s: seq<string>, b: seq<string>, t: seq<string>)
    requires a + s == b + t && |s| == 6 <= |t|
    ensures |b| <= |a|
    ensures if |b| == |a| then a == b && s == t else a[|b|] == t[0]
  {
    assert |a| + |s| == |b| + |t|;
    if |b| == |a| {
      assert a == (a + s)[..|a|] && b == (b + t)[..|b|];
      assert s == (a + s)[|a|..] && t == (b + t)[|b|..];
    } else {
      assert a[|b|] == (a + s)[|b|] == (b + t)[|b|] == t[0];
    }
  }

  /** Equal texts have the same incident id, or the longer one hides the other's sequence number. */
  lemma IncidentOrNumeral(f: Fields, p: Option<string>, g: Fields, q: Option<string>)
    requires TextPipeFree(f) && '|' !in OrEmpty(p) && HashedText(f, p) == HashedText(g, q)
    ensures || NumeralInside(f.incident, |Split(g.incident, '|')|)
            || (f.incident == g.incident && Join(Tail(f, p), '|') == Join(Tail(g, q), '|'))
  {
    IncidentThenTail(f, p);
    IncidentThenTail(g, q);
    TailParts(f, p);
    TailParts(g, q);
    var a, s := Split(f.incident, '|'), Split(Join(Tail(f, p), '|'), '|');
    var b, t := Split(g.incident, '|'), Split(Join(Tail(g, q), '|'), '|');
    SameCut(a, s, b, t);
    if |b| == |a| {
      SplitInjective(f.incident, g.incident, '|');
      SplitInjective(Join(Tail(f, p), '|'), Join(Tail(g, q), '|'), '|');
    }
  }

  /** A clear record is determined by its text, against any other record. */
  lemma ClearTextInjective(f: Fields, p: Option<string>, g: Fields, q: Option<string>)
    requires Clear(f) && '|' !in OrEmpty(p) && HashedText(f, p) == HashedText(g, q)
    ensures f == g && OrEmpty(p) == OrEmpty(q)
  {
    IncidentOrNumeral(f, p, g, q);
    TailInjective(f, p, g, q);
  }

  /** Without any pipe a record is clear, so the encoding is injective at it. */
  lemma HashedTextInjective(f: Fields, p: Option<string>, g: Fields, q: Option<string>)
    requires PipeFree(f) && '|' !in OrEmpty(p)
    requires HashedText(f, p) == HashedText(g, q)
    ensures f == g && OrEmpty(p) == OrEmpty(q)
  {
    assert Free([f.incident], '|');
    SplitOfJoin([f.incident], '|');
    ClearTextInjective(f, p, g, q);
  }

  /** One link back: equal last hashes mean equal last entries and equally long pasts, or these two collide. */
  lemma LastLinkCommits(sha: string -> string, a: seq<Entry>, m: nat, b: seq<Entry>, n: nat)
    requires HexLike(sha) && m < |a| && n < |b|
    requires HashOk(sha, a, m) && HashOk(sha, b, n) && a[m].entryHash == b[n].entryHash
    requires m > 0 ==> HashOk(sha, a, m - 1)
    requires n > 0 ==> HashOk(sha, b, n - 1)
    requires Clear(a[m].fields)
    ensures || (a[m].fields == b[n].fields && Carried(a, m) == Carried(b, n) && (m == 0 <==> n == 0))
            || Collide(sha, a, m, b, n)
  {
    if !Collide(sha, a, m, b, n) {
      CarriedIsDigest(sha, a, m);
      CarriedIsDigest(sha, b, n);
      ClearTextInjective(a[m].fields, Carried(a, m), b[n].fields, Carried(b, n));
    }
  }

  /**
   The hash of the last entry commits to the whole list: another accepted list that ends in the
   same hash records exactly the same, or the two returned entries are a collision of the hash.
   */
  lemma {:induction false} LastHashCommits(sha: string -> string, sign: string -> string, a: seq<Entry>, b: seq<Entry>)
    returns (i: nat, j: nat)
    requires HexLike(sha)
    requires ValidChain(sha, sign, a) && ValidChain(sha, sign, b)
    requires a != [] && b != [] && a[|a| - 1].entryHash == b[|b| - 1].entryHash
    requires forall k :: 0 <= k < |a| ==> Clear(a[k].fields)
    ensures SameRecord(a, b) || Collide(sha, a, i, b, j)
  {
    hide Collide, Clear, ChainHash, SignatureOk, HexLike;
    var m, n := |a| - 1, |b| - 1;
    i, j := m, n;
    assert LinkOk(sha, sign, a, m) && LinkOk(sha, sign, b, n);
    assert (m > 0 ==> LinkOk(sha, sign, a, m - 1)) && (n > 0 ==> LinkOk(sha, sign, b, n - 1));
    LastLinkCommits(sha, a, m, b, n);
    if !Collide(sha, a, m, b, n) && m > 0 {
      PrefixValid(sha, sign, a, m);
      PrefixValid(sha, sign, b, n);
      i, j := LastHashCommits(sha, sign, a[..m], b[..n]);
      if Collide(sha, a[..m], i, b[..n], j) {
        CollideInPrefix(sha, a, m, i, b, n, j);
      } else {
        SameRecordExtends(a, b);
      }
    }
  }

  lemma CollideInPrefix(sha: string -> string, a: seq<Entry>, m: nat, i: nat, b: seq<Entry>, n: nat, j: nat)
    requires m <= |a| && n <= |b| && Collide(sha, a[..m], i, b[..n], j)
    ensures Collide(sha, a, i, b, j)
  {
    assert Carried(a[..m], i) == Carried(a, i) && Carried(b[..n], j) == Carried(b, j);
  }

  lemma SameRecordExtends(a: seq<Entry>, b: seq<Entry>)
    requires a != [] && b != [] && SameRecord(a[..|a| - 1], b[..|b| - 1])
    requires var x, y := a[|a| - 1], b[|b| - 1];
      x.fields == y.fields && x.previousHash == y.previousHash && x.entryHash == y.entryHash
    ensures SameRecord(a, b)
  {
    forall i | 0 <= i < |a| - 1
      ensures a[i].fields == b[i].fields && a[i].previousHash == b[i].previousHash && a[i].entryHash == b[i].entryHash
    {
      assert a[i] == a[..|a| - 1][i] && b[i] == b[..|b| - 1][i];
    }
  }

  lemma CarriedIsDigest(sha: string -> string, entries: seq<Entry>, i: nat)
    requires HexLike(sha) && i <= |entries|
    requires i > 0 ==> HashOk(sha, entries, i - 1)
    ensures '|' !in OrEmpty(Carried(entries, i))
    ensures OrEmpty(Carried(entries, i)) == "" <==> i == 0
  {
  }

  /** With an injective hash the accepted record is determined by its last hash. */
  lemma InjectiveHashCommits(sha: string -> string, sign: string -> string, a: seq<Entry>, b: seq<Entry>)
    requires HexLike(sha) && forall x, y :: sha(x) == sha(y) ==> x == y
    requires ValidChain(sha, sign, a) && ValidChain(sha, sign, b)
    requires a != [] && b != [] && a[|a| - 1].entryHash == b[|b| - 1].entryHash
    requires forall k :: 0 <= k < |a| ==> Clear(a[k].fields)
    ensures SameRecord(a, b)
  {
    var i, j := LastHashCommits(sha, sign, a, b);
  }

  ghost predicate Ambiguous(f: Fields, p: Option<string>) {
    exists g :: g != f && HashedText(g, p) == HashedText(f, p)
  }

  /**
   Exactly when the joined text is ambiguous: a different record with the same text, hence the same hash
   under any hash function, exists if and only if some free-text field holds a '|' or the incident id
   holds one that is followed by a number up to its next '|' or its end.
   */
  lemma AmbiguousExactly(f: Fields, p: Option<string>)
    requires '|' !in OrEmpty(p)
    ensures Ambiguous(f, p) <==> !TextPipeFree(f) || exists i: nat :: NumeralInside(f.incident, i)
  {
    if Clear(f) {
      forall g | HashedText(g, p) == HashedText(f, p) ensures g == f {
        ClearTextInjective(f, p, g, p);
      }
    } else if !TextPipeFree(f) {
      var g := Reshuffled(f, p);
    } else {
      var i: nat :| NumeralInside(f.incident, i);
      var g := Renumbered(f, p, i);
    }
  }

  /** Takes the number inside the incident id for the sequence number. */
  lemma Renumbered(f: Fields, p: Option<string>, i: nat) returns (g: Fields)
    requires NumeralInside(f.incident, i)
    ensures g != f && HashedText(g, p) == HashedText(f, p)
  {
    var parts := Split(f.incident, '|');
    var n :| parts[i] == IntText(n);
    var front, back := Join(parts[..i], '|'), parts[i + 1..] + [IntText(f.sequence), f.timestamp];
    g := Fields(front, n, Join(back, '|'), f.action, f.actor, f.target);
    var rest := [f.action, f.actor, f.target, OrEmpty(p)];
    JoinOfSplit(f.incident, '|');
    JoinConcat(parts, [IntText(f.sequence), f.timestamp] + rest, '|');
    assert HashedText(f, p) == Join(parts + ([IntText(f.sequence), f.timestamp] + rest), '|') by {
      assert HashedParts(f, p)[1..] == [IntText(f.sequence), f.timestamp] + rest;
    }
    RegroupedText(parts, i, [IntText(f.sequence), f.timestamp], rest, g, p);
    assert |Split(front, '|')| == i by { FrontParts(f.incident, i); }
  }

  lemma FrontParts(s: string, i: nat)
    requires 1 <= i <= |Split(s, '|')|
    ensures Split(Join(Split(s, '|')[..i], '|'), '|') == Split(s, '|')[..i]
  {
    var parts := Split(s, '|');
    SplitFree(s, '|');
    assert Free(parts[..i], '|');
    SplitOfJoin(parts[..i], '|');
  }

  lemma JoinedInGroups(a: seq<string>, x: string, c: seq<string>, rest: seq<string>)
    requires a != [] && c != [] && rest != []
    ensures Join(a + [x] + c + rest, '|') == Join([Join(a, '|'), x, Join(c, '|')] + rest, '|')
  {
    var groups := [Join(a, '|'), x, Join(c, '|')];
    JoinConcat(a + [x] + c, rest, '|');
    JoinConcat(a + [x], c, '|');
    JoinConcat(a, [x], '|');
    JoinConcat(groups, rest, '|');
    JoinConcat(groups[..2], groups[2..], '|');
    JoinConcat(groups[..1], groups[1..2], '|');
    assert groups == groups[..2] + groups[2..] && groups[..2] == groups[..1] + groups[1..2];
  }

  lemma RegroupedText(parts: seq<string>, i: nat, middle: seq<string>, rest: seq<string>, g: Fields, p: Option<string>)
    requires 1 <= i < |parts| && middle != [] && rest == [g.action, g.actor, g.target, OrEmpty(p)]
    requires g.incident == Join(parts[..i], '|') && IntText(g.sequence) == parts[i]
    requires g.timestamp == Join(parts[i + 1..] + middle, '|')
    ensures HashedText(g, p) == Join(parts + (middle + rest), '|')
  {
    hide Join;
    JoinedInGroups(parts[..i], parts[i], parts[i + 1..] + middle, rest);
    assert parts + (middle + rest) == parts[..i] + [parts[i]] + (parts[i + 1..] + middle) + rest;
    assert HashedParts(g, p) == [g.incident, parts[i], g.timestamp] + rest;
  }

  /** Moves the text on one side of a '|' to the neighbouring field. */
  lemma Reshuffled(f: Fields, p: Option<string>) returns (g: Fields)
    requires !TextPipeFree(f)
    ensures g != f && HashedText(g, p) == HashedText(f, p)
  {
    hide HashedText, IntText;
    if '|' in f.timestamp {
      var a, b := Halves(f.timestamp, '|');
      g := f.(timestamp := a, action := b + "|" + f.action);
      assert g.timestamp + "|" + g.action == f.timestamp + "|" + f.action;
      Neighbours(f, g, p, 2);
    } else if '|' in f.action {
      var a, b := Halves(f.action, '|');
      g := f.(action := a, actor := b + "|" + f.actor);
      assert g.action + "|" + g.actor == f.action + "|" + f.actor;
      Neighbours(f, g, p, 3);
    } else if '|' in f.actor {
      var a, b := Halves(f.actor, '|');
      g := f.(actor := a, target := b + "|" + f.target);
      assert g.actor + "|" + g.target == f.actor + "|" + f.target;
      Neighbours(f, g, p, 4);
    } else {
      var a, b := Halves(f.target, '|');
      g := f.(actor := f.actor + "|" + a, target := b);
      assert g.actor + "|" + g.target == f.actor + "|" + f.target;
      Neighbours(f, g, p, 4);
    }
  }

  lemma Neighbours(f: Fields, g: Fields, p: Option<string>, i: nat)
    requires 2 <= i <= 4 && f.incident == g.incident && f.sequence == g.sequence
    requires var s, t := HashedParts(f, p), HashedParts(g, p);
      && s[i] + "|" + s[i + 1] == t[i] + "|" + t[i + 1]
      && forall k :: 2 <= k < 6 && k != i && k != i + 1 ==> s[k] == t[k]
    ensures HashedText(g, p) == HashedText(f, p)
  {
    hide Join, IntText;
    var s, t := HashedParts(f, p), HashedParts(g, p);
    JoinShift(t, s, '|', i);
  }

  // ----- Concurrent appenders -----

  datatype Payload = Payload(
    id: string, incident: string, timestamp: string, action: string, actor: string, target: string)

  /**
   The table, rows in commit order, and the open transactions, each holding the rows it has built
   from what it read.  Between building and committing any number of other transactions may
   commit, so what an open transaction read may be stale.  Row locks are not relied upon.
   */
  datatype Db = Db(rows: seq<Entry>, open: map<nat, seq<Entry>>)

  datatype Step = Build(tx: nat, payload: Payload) | Commit(tx: nat) | Rollback(tx: nat)

  /** The rows of one incident, in commit order. */
  function RowsOf(rows: seq<Entry>, incident: string): seq<Entry> {
    if rows == [] then []
    else
      var last := rows[|rows| - 1];
      RowsOf(rows[..|rows| - 1], incident) + if last.fields.incident == incident then [last] else []
  }

  /** The row with the highest sequence number. */
  function Highest(rows: seq<Entry>): (r: Option<Entry>)
    ensures r.None? <==> rows == []
    ensures r.Some? ==> r.value in rows && forall e :: e in rows ==> e.fields.sequence <= r.value.fields.sequence
  {
    if rows == [] then None
    else
      var rest := Highest(rows[1..]);
      assert rows == [rows[0]] + rows[1..];
      if rest.Some? && rest.value.fields.sequence >= rows[0].fields.sequence then rest else Some(rows[0])
  }

  function NewEntry(sha: string -> string, sign: string -> string, rows: seq<Entry>, p: Payload): Entry {
    var previous := Highest(RowsOf(rows, p.incident));
    var sequence := if previous.None? then 1 else previous.value.fields.sequence + 1;
    var previousHash := if previous.None? then None else Some(previous.value.entryHash);
    var fields := Fields(p.incident, sequence, p.timestamp, p.action, p.actor, p.target);
    var entryHash := ChainHash(sha, fields, previousHash);
    Entry(p.id, fields, previousHash, entryHash, Some(sign(entryHash)))
  }

  /** Primary key on id, unique constraint on (incident, sequence). */
  predicate Insertable(rows: seq<Entry>, e: Entry) {
    forall r :: r in rows ==>
      && r.id != e.id
      && (r.fields.incident != e.fields.incident || r.fields.sequence != e.fields.sequence)
  }

  /** The rows go in one after the other, each beside the earlier ones. */
  predicate AllInsertable(rows: seq<Entry>, es: seq<Entry>) {
    es == [] ||
    (AllInsertable(rows, es[..|es| - 1]) && Insertable(rows + es[..|es| - 1], es[|es| - 1]))
  }

  /** Two rows that the constraints keep apart: another id, and another number within an incident. */
  ghost predicate Apart(r: Entry, e: Entry) {
    r.id != e.id && (r.fields.incident == e.fields.incident ==> r.fields.sequence != e.fields.sequence)
  }

  /** All rows of a transaction go in exactly when each is apart from the committed ones and from the others. */
  lemma {:induction false} AllInsertableMeans(rows: seq<Entry>, es: seq<Entry>)
    ensures AllInsertable(rows, es) <==>
            && (forall r, e :: r in rows && e in es ==> Apart(r, e))
            && forall i, j :: 0 <= i < j < |es| ==> Apart(es[i], es[j])
  {
    if es != [] {
      var n := |es| - 1;
      AllInsertableMeans(rows, es[..n]);
      assert es == es[..n] + [es[n]];
      LastInsertable(rows, es[..n], es[n]);
    }
  }

  lemma LastInsertable(rows: seq<Entry>, front: seq<Entry>, e: Entry)
    ensures Insertable(rows + front, e) <==>
            (forall r :: r in rows ==> Apart(r, e)) && forall i :: 0 <= i < |front| ==> Apart(front[i], e)
  {
    if Insertable(rows + front, e) {
      forall r | r in rows ensures Apart(r, e) { assert r in rows + front; }
      forall i | 0 <= i < |front| ensures Apart(front[i], e) { assert front[i] in rows + front; }
    }
  }

  /** What the transaction has built so far. */
  function Own(db: Db, tx: nat): seq<Entry> {
    if tx in db.open then db.open[tx] else []
  }

  /** A transaction sees the committed rows and its own; it commits all of its rows or none. */
  function Next(sha: string -> string, sign: string -> string, db: Db, step: Step): Db {
    match step
    case Build(tx, p) =>
      var seen := db.rows + Own(db, tx);
      if exists r :: r in seen && r.id == p.id then db
      else db.(open := db.open[tx := Own(db, tx) + [NewEntry(sha, sign, seen, p)]])
    case Commit(tx) =>
      if AllInsertable(db.rows, Own(db, tx)) then Db(db.rows + Own(db, tx), db.open - {tx})
      else db.(open := db.open - {tx})
    case Rollback(tx) => db.(open := db.open - {tx})
  }

  /** The database after a history of steps of any number of transactions. */
  function After(sha: string -> string, sign: string -> string, steps: seq<Step>): Db {
    if steps == [] then Db([], map[])
    else Next(sha, sign, After(sha, sign, steps[..|steps| - 1]), steps[|steps| - 1])
  }

  /** Numbered 1..n without gap or fork. */
  ghost predicate Numbered(rows: seq<Entry>) {
    forall i :: 0 <= i < |rows| ==> rows[i].fields.sequence == i + 1
  }

  ghost predicate ChainGood(sha: string -> string, sign: string -> string, rows: seq<Entry>, incident: string) {
    Numbered(RowsOf(rows, incident)) && ValidChain(sha, sign, RowsOf(rows, incident))
  }

  /** An open row continues the chain of its incident at some point that exists already. */
  ghost predicate OpenGood(sha: string -> string, sign: string -> string, rows: seq<Entry>, e: Entry) {
    var chain := RowsOf(rows, e.fields.incident);
    && 1 <= e.fields.sequence <= |chain| + 1
    && e.previousHash == Carried(chain, e.fields.sequence - 1)
    && e.entryHash == ChainHash(sha, e.fields, e.previousHash)
    && e.signature == Some(sign(e.entryHash))
  }

  /** Each open row is a good one, as long as the rows built before it can still go in. */
  ghost predicate OpenGoodAll(sha: string -> string, sign: string -> string, rows: seq<Entry>, es: seq<Entry>) {
    forall i: nat :: i < |es| && AllInsertable(rows, es[..i]) ==> OpenGood(sha, sign, rows + es[..i], es[i])
  }

  ghost predicate AllChainsGood(sha: string -> string, sign: string -> string, rows: seq<Entry>) {
    forall incident :: ChainGood(sha, sign, rows, incident)
  }

  ghost predicate Good(sha: string -> string, sign: string -> string, db: Db) {
    && AllChainsGood(sha, sign, db.rows)
    && (forall tx :: tx in db.open ==> OpenGoodAll(sha, sign, db.rows, db.open[tx]))
  }

  lemma RowsOfAppend(rows: seq<Entry>, e: Entry, incident: string)
    ensures RowsOf(rows + [e], incident) ==
            RowsOf(rows, incident) + if e.fields.incident == incident then [e] else []
  {
    assert (rows + [e])[..|rows|] == rows;
  }

  lemma {:induction false} RowsOfMember(rows: seq<Entry>, incident: string, e: Entry)
    ensures e in RowsOf(rows, incident) <==> e in rows && e.fields.incident == incident
  {
    if rows != [] {
      var n := |rows| - 1;
      RowsOfMember(rows[..n], incident, e);
      assert rows == rows[..n] + [rows[n]];
    }
  }

  lemma GreatestIsLast(rows: seq<Entry>, h: Entry)
    requires Numbered(rows) && h in rows
    requires forall e :: e in rows ==> e.fields.sequence <= h.fields.sequence
    ensures h == rows[|rows| - 1]
  {
    var i :| 0 <= i < |rows| && rows[i] == h;
    assert rows[|rows| - 1] in rows;
  }

  lemma HighestIsLast(rows: seq<Entry>)
    requires Numbered(rows) && rows != []
    ensures Highest(rows) == Some(rows[|rows| - 1])
  {
    GreatestIsLast(rows, Highest(rows).value);
  }

  lemma NewEntryGood(sha: string -> string, sign: string -> string, rows: seq<Entry>, p: Payload)
    requires ChainGood(sha, sign, rows, p.incident)
    ensures OpenGood(sha, sign, rows, NewEntry(sha, sign, rows, p))
  {
    var chain := RowsOf(rows, p.incident);
    if chain != [] { HighestIsLast(chain); }
  }

  /** The unique constraint lets through only a row that continues the chain at its end. */
  lemma InsertableIsNext(sha: string -> string, sign: string -> string, rows: seq<Entry>, e: Entry)
    requires ChainGood(sha, sign, rows, e.fields.incident) && OpenGood(sha, sign, rows, e) && Insertable(rows, e)
    ensures e.fields.sequence == |RowsOf(rows, e.fields.incident)| + 1
  {
    var chain := RowsOf(rows, e.fields.incident);
    if e.fields.sequence <= |chain| {
      var clash := chain[e.fields.sequence - 1];
      RowsOfMember(rows, e.fields.incident, clash);
    }
  }

  lemma ChainExtends(sha: string -> string, sign: string -> string, chain: seq<Entry>, e: Entry)
    requires Numbered(chain) && ValidChain(sha, sign, chain)
    requires e.fields.sequence == |chain| + 1
    requires e.previousHash == Carried(chain, |chain|)
    requires e.entryHash == ChainHash(sha, e.fields, e.previousHash) && e.signature == Some(sign(e.entryHash))
    ensures Numbered(chain + [e]) && ValidChain(sha, sign, chain + [e])
  {
    var longer := chain + [e];
    forall i: nat | i < |longer| ensures LinkOk(sha, sign, longer, i) {
      if i < |chain| { assert LinkOk(sha, sign, chain, i); }
    }
  }

  lemma CommitGood(sha: string -> string, sign: string -> string, rows: seq<Entry>, e: Entry, incident: string)
    requires ChainGood(sha, sign, rows, incident) && OpenGood(sha, sign, rows, e) && Insertable(rows, e)
    ensures ChainGood(sha, sign, rows + [e], incident)
  {
    RowsOfAppend(rows, e, incident);
    if e.fields.incident == incident {
      InsertableIsNext(sha, sign, rows, e);
      ChainExtends(sha, sign, RowsOf(rows, incident), e);
    } else {
      assert RowsOf(rows + [e], incident) == RowsOf(rows, incident);
    }
  }

  lemma {:induction false} RowsOfConcat(a: seq<Entry>, b: seq<Entry>, incident: string)
    ensures RowsOf(a + b, incident) == RowsOf(a, incident) + RowsOf(b, incident)
  {
    if b == [] {
      assert a + b == a;
    } else {
      var n := |b| - 1;
      RowsOfConcat(a, b[..n], incident);
      RowsOfConcatStep(a, b[..n], b[n], incident);
      assert b == b[..n] + [b[n]];
    }
  }

  lemma RowsOfConcatStep(a: seq<Entry>, b: seq<Entry>, e: Entry, incident: string)
    requires RowsOf(a + b, incident) == RowsOf(a, incident) + RowsOf(b, incident)
    ensures RowsOf(a + (b + [e]), incident) == RowsOf(a, incident) + RowsOf(b + [e], incident)
  {
    hide RowsOf;
    assert a + (b + [e]) == a + b + [e];
    RowsOfAppend(a + b, e, incident);
    RowsOfAppend(b, e, incident);
  }

  /** A transaction whose rows all go in leaves every chain good. */
  lemma {:induction false} CommitAllGood(sha: string -> string, sign: string -> string, rows: seq<Entry>, es: seq<Entry>)
    requires AllChainsGood(sha, sign, rows) && OpenGoodAll(sha, sign, rows, es) && AllInsertable(rows, es)
    ensures AllChainsGood(sha, sign, rows + es)
  {
    hide ChainGood, OpenGood, Insertable, RowsOf;
    if es == [] {
      assert rows + es == rows;
    } else {
      var n := |es| - 1;
      ShorterOpen(sha, sign, rows, es, n);
      CommitAllGood(sha, sign, rows, es[..n]);
      assert rows + es == rows + es[..n] + [es[n]];
      forall incident ensures ChainGood(sha, sign, rows + es, incident) {
        CommitGood(sha, sign, rows + es[..n], es[n], incident);
      }
    }
  }

  lemma ShorterOpen(sha: string -> string, sign: string -> string, rows: seq<Entry>, es: seq<Entry>, n: nat)
    requires OpenGoodAll(sha, sign, rows, es) && n <= |es|
    ensures OpenGoodAll(sha, sign, rows, es[..n])
  {
    forall i: nat | i < n && AllInsertable(rows, es[..n][..i])
      ensures OpenGood(sha, sign, rows + es[..n][..i], es[..n][i])
    {
      assert es[..n][..i] == es[..i];
    }
  }

  lemma {:induction false} InsertableBefore(rows: seq<Entry>, more: seq<Entry>, es: seq<Entry>)
    requires AllInsertable(rows + more, es)
    ensures AllInsertable(rows, es)
  {
    if es != [] {
      var n := |es| - 1;
      InsertableBefore(rows, more, es[..n]);
      forall r | r in rows + es[..n] ensures r in rows + more + es[..n] {}
    }
  }

  /** Where a good chain is a prefix of another, a row that continues the one continues the other. */
  lemma OpenGoodLonger(sha: string -> string, sign: string -> string, rows: seq<Entry>, longer: seq<Entry>, e: Entry)
    requires OpenGood(sha, sign, rows, e)
    requires RowsOf(rows, e.fields.incident) <= RowsOf(longer, e.fields.incident)
    ensures OpenGood(sha, sign, longer, e)
  {
  }

  /** Two numbered chains from the same start: nothing was put between, or nothing comes behind. */
  lemma BetweenOrBehind(start: seq<Entry>, between: seq<Entry>, behind: seq<Entry>)
    requires Numbered(start + behind) && Numbered(start + between + behind)
    ensures between == [] || behind == []
    ensures start + behind <= start + between + behind
  {
    if behind != [] {
      assert (start + behind)[|start|] == behind[0];
      assert (start + between + behind)[|start| + |between|] == behind[0];
    }
  }

  /** Rows are never changed or removed, so what was read stays a point of the chain. */
  lemma {:induction false} OpenStaysGood(
    sha: string -> string, sign: string -> string, rows: seq<Entry>, more: seq<Entry>, es: seq<Entry>)
    requires AllChainsGood(sha, sign, rows) && AllChainsGood(sha, sign, rows + more)
    requires OpenGoodAll(sha, sign, rows, es)
    ensures OpenGoodAll(sha, sign, rows + more, es)
  {
    forall i: nat | i < |es| && AllInsertable(rows + more, es[..i])
      ensures OpenGood(sha, sign, rows + more + es[..i], es[i])
    {
      var before, incident := es[..i], es[i].fields.incident;
      InsertableBefore(rows, more, before);
      ShorterOpen(sha, sign, rows, es, i);
      OpenStaysGood(sha, sign, rows, more, before);
      CommitAllGood(sha, sign, rows, before);
      CommitAllGood(sha, sign, rows + more, before);
      assert ChainGood(sha, sign, rows + before, incident) && ChainGood(sha, sign, rows + more + before, incident);
      RowsOfConcat(rows, before, incident);
      RowsOfConcat(rows, more, incident);
      RowsOfConcat(rows + more, before, incident);
      BetweenOrBehind(RowsOf(rows, incident), RowsOf(more, incident), RowsOf(before, incident));
      OpenGoodLonger(sha, sign, rows + before, rows + more + before, es[i]);
    }
  }

  lemma BuildGood(sha: string -> string, sign: string -> string, rows: seq<Entry>, own: seq<Entry>, p: Payload)
    requires AllChainsGood(sha, sign, rows) && OpenGoodAll(sha, sign, rows, own)
    ensures OpenGoodAll(sha, sign, rows, own + [NewEntry(sha, sign, rows + own, p)])
  {
    var es := own + [NewEntry(sha, sign, rows + own, p)];
    forall i: nat | i < |es| && AllInsertable(rows, es[..i]) ensures OpenGood(sha, sign, rows + es[..i], es[i]) {
      if i < |own| {
        assert es[..i] == own[..i];
      } else {
        assert es[..i] == own;
        CommitAllGood(sha, sign, rows, own);
        assert ChainGood(sha, sign, rows + own, p.incident);
        NewEntryGood(sha, sign, rows + own, p);
      }
    }
  }

  /** A row built on rows that all go in goes in behind them, unless its id is taken meanwhile. */
  lemma BuiltGoesIn(sha: string -> string, sign: string -> string, rows: seq<Entry>, own: seq<Entry>, p: Payload)
    requires AllChainsGood(sha, sign, rows) && OpenGoodAll(sha, sign, rows, own) && AllInsertable(rows, own)
    requires forall r :: r in rows + own ==> r.id != p.id
    ensures AllInsertable(rows, own + [NewEntry(sha, sign, rows + own, p)])
    ensures NewEntry(sha, sign, rows + own, p).fields.sequence == |RowsOf(rows + own, p.incident)| + 1
  {
    var seen, e := rows + own, NewEntry(sha, sign, rows + own, p);
    var chain := RowsOf(seen, p.incident);
    CommitAllGood(sha, sign, rows, own);
    assert ChainGood(sha, sign, seen, p.incident);
    if chain != [] { HighestIsLast(chain); }
    forall r | r in seen && r.fields.incident == p.incident ensures r.fields.sequence != e.fields.sequence {
      RowsOfMember(seen, p.incident, r);
    }
    assert (own + [e])[..|own|] == own;
  }

  lemma StepGood(sha: string -> string, sign: string -> string, db: Db, step: Step)
    requires Good(sha, sign, db)
    ensures Good(sha, sign, Next(sha, sign, db, step))
  {
    match step
    case Build(tx, p) =>
      assert OpenGoodAll(sha, sign, db.rows, Own(db, tx));
      BuildGood(sha, sign, db.rows, Own(db, tx), p);
    case Commit(tx) =>
      var own := Own(db, tx);
      if AllInsertable(db.rows, own) {
        assert OpenGoodAll(sha, sign, db.rows, own);
        CommitAllGood(sha, sign, db.rows, own);
        forall t | t in db.open ensures OpenGoodAll(sha, sign, db.rows + own, db.open[t]) {
          OpenStaysGood(sha, sign, db.rows, own, db.open[t]);
        }
      }
    case Rollback(_) =>
  }

  lemma {:induction false} AfterGood(sha: string -> string, sign: string -> string, steps: seq<Step>)
    ensures Good(sha, sign, After(sha, sign, steps))
  {
    if steps != [] {
      AfterGood(sha, sign, steps[..|steps| - 1]);
      StepGood(sha, sign, After(sha, sign, steps[..|steps| - 1]), steps[|steps| - 1]);
    }
  }

  /**
   Whatever the interleaving of builds, commits and rollbacks, the committed entries of every
   incident are numbered 1..n, and any listing of them by ascending sequence is that chain and is
   accepted by the verifier.
   */
  lemma AppendersKeepEveryChain(
    sha: string -> string, sign: string -> string, steps: seq<Step>, incident: string, listing: seq<Entry>)
    requires var rows := RowsOf(After(sha, sign, steps).rows, incident);
      multiset(listing) == multiset(rows) && BySequence(listing)
    ensures listing == RowsOf(After(sha, sign, steps).rows, incident)
    ensures Numbered(listing) && ValidChain(sha, sign, listing)
  {
    AfterGood(sha, sign, steps);
    var rows := RowsOf(After(sha, sign, steps).rows, incident);
    assert ChainGood(sha, sign, After(sha, sign, steps).rows, incident);
    SortedIsUnique(rows, listing);
  }

  ghost predicate BySequence(rows: seq<Entry>) {
    forall i, j :: 0 <= i < j < |rows| ==> rows[i].fields.sequence <= rows[j].fields.sequence
  }

  lemma LastRowsAgree(rows: seq<Entry>, listing: seq<Entry>)
    requires Numbered(rows) && rows != [] && BySequence(listing) && multiset(listing) == multiset(rows)
    ensures |listing| == |rows| && listing[|rows| - 1] == rows[|rows| - 1]
  {
    assert |multiset(listing)| == |multiset(rows)|;
    var last := listing[|listing| - 1];
    assert last in multiset(rows);
    forall e | e in rows ensures e.fields.sequence <= last.fields.sequence {
      assert e in multiset(listing);
      var i :| 0 <= i < |listing| && listing[i] == e;
    }
    GreatestIsLast(rows, last);
  }

  lemma WithoutLast(rows: seq<Entry>)
    requires rows != []
    ensures multiset(rows[..|rows| - 1]) == multiset(rows) - multiset{rows[|rows| - 1]}
  {
    assert rows == rows[..|rows| - 1] + [rows[|rows| - 1]];
  }

  lemma {:induction false} SortedIsUnique(rows: seq<Entry>, listing: seq<Entry>)
    requires Numbered(rows) && BySequence(listing) && multiset(listing) == multiset(rows)
    ensures listing == rows
  {
    if rows == [] {
      assert |multiset(listing)| == 0;
    } else {
      LastRowsAgree(rows, listing);
      var n := |rows| - 1;
      var r, l := rows[..n], listing[..n];
      assert multiset(l) == multiset(r) by {
        WithoutLast(rows);
        WithoutLast(listing);
      }
      SortedIsUnique(r, l);
      assert rows == r + [rows[n]] && listing == l + [rows[n]];
    }
  }

  /** A commit adds all rows of its transaction or none, a rollback none; both end it.  A taken id builds nothing. */
  lemma StepsMean(sha: string -> string, sign: string -> string, db: Db, tx: nat, p: Payload)
    ensures var after := Next(sha, sign, db, Commit(tx));
      && tx !in after.open && (forall t :: t in db.open && t != tx ==> t in after.open && after.open[t] == db.open[t])
      && after.rows == if AllInsertable(db.rows, Own(db, tx)) then db.rows + Own(db, tx) else db.rows
    ensures var after := Next(sha, sign, db, Rollback(tx));
      && tx !in after.open && (forall t :: t in db.open && t != tx ==> t in after.open && after.open[t] == db.open[t])
      && after.rows == db.rows
    ensures (exists r :: r in db.rows + Own(db, tx) && r.id == p.id) ==> Next(sha, sign, db, Build(tx, p)) == db
  {
    hide AllInsertable, NewEntry;
    assert AllInsertable(db.rows, Own(db, tx)) || Next(sha, sign, db, Commit(tx)).rows == db.rows;
  }

  /** The entry records what the payload says. */
  ghost predicate Records(e: Entry, p: Payload) {
    && e.id == p.id && e.fields.incident == p.incident && e.fields.timestamp == p.timestamp
    && e.fields.action == p.action && e.fields.actor == p.actor && e.fields.target == p.target
  }

  ghost predicate FromPayload(steps: seq<Step>, e: Entry) {
    exists k :: 0 <= k < |steps| && steps[k].Build? && Records(e, steps[k].payload)
  }

  lemma {:induction false} FromPayloadLonger(steps: seq<Step>, step: Step, e: Entry)
    requires FromPayload(steps, e)
    ensures FromPayload(steps + [step], e)
  {
    var k :| 0 <= k < |steps| && steps[k].Build? && Records(e, steps[k].payload);
    assert (steps + [step])[k] == steps[k];
  }

  lemma NewEntryRecords(sha: string -> string, sign: string -> string, rows: seq<Entry>, p: Payload)
    ensures Records(NewEntry(sha, sign, rows, p), p)
  {
  }

  /** Every row, committed or still open, records the payload of some request. */
  lemma {:induction false} RowsRecordPayloads(sha: string -> string, sign: string -> string, steps: seq<Step>)
    ensures forall e :: e in After(sha, sign, steps).rows ==> FromPayload(steps, e)
    ensures forall tx, e :: tx in After(sha, sign, steps).open && e in After(sha, sign, steps).open[tx] ==> FromPayload(steps, e)
  {
    hide NewEntry, FromPayload, AllInsertable;
    if steps != [] {
      var n := |steps| - 1;
      var front, step, db := steps[..n], steps[n], After(sha, sign, steps[..n]);
      RowsRecordPayloads(sha, sign, front);
      assert steps == front + [step];
      forall e | FromPayload(front, e) ensures FromPayload(steps, e) { FromPayloadLonger(front, step, e); }
      if step.Build? { BuiltRecords(sha, sign, steps, db.rows + Own(db, step.tx)); }
    }
  }

  lemma BuiltRecords(sha: string -> string, sign: string -> string, steps: seq<Step>, rows: seq<Entry>)
    requires steps != [] && steps[|steps| - 1].Build?
    ensures FromPayload(steps, NewEntry(sha, sign, rows, steps[|steps| - 1].payload))
  {
    NewEntryRecords(sha, sign, rows, steps[|steps| - 1].payload);
  }

  /** An entry built and committed with nothing in between is there, last, if its id was free. */
  lemma AppendedAlone(sha: string -> string, sign: string -> string, steps: seq<Step>, tx: nat, p: Payload)
    requires var db := After(sha, sign, steps); tx !in db.open && forall r :: r in db.rows ==> r.id != p.id
    ensures var rows := After(sha, sign, steps).rows;
      After(sha, sign, steps + [Build(tx, p), Commit(tx)]).rows == rows + [NewEntry(sha, sign, rows, p)]
  {
    hide NewEntry, AllInsertable;
    var db := After(sha, sign, steps);
    AfterGood(sha, sign, steps);
    var built := steps + [Build(tx, p)];
    assert built[..|steps|] == steps;
    assert db.rows + [] == db.rows;
    assert After(sha, sign, built) == db.(open := db.open[tx := [] + [NewEntry(sha, sign, db.rows, p)]]);
    NothingIsInsertable(db.rows);
    BuiltGoesIn(sha, sign, db.rows, [], p);
    var committed := steps + [Build(tx, p), Commit(tx)];
    assert committed[..|built|] == built;
  }

  lemma NothingIsInsertable(rows: seq<Entry>)
    ensures AllInsertable(rows, [])
  {
  }

  /** History is append-only: later states keep the committed rows as a prefix. */
  lemma {:induction false} RowsOnlyGrow(sha: string -> string, sign: string -> string, steps: seq<Step>, more: seq<Step>)
    ensures After(sha, sign, steps).rows <= After(sha, sign, steps + more).rows
  {
    if more == [] {
      assert steps + more == steps;
    } else {
      var n := |more| - 1;
      RowsOnlyGrow(sha, sign, steps, more[..n]);
      assert (steps + more)[..|steps + more| - 1] == steps + more[..n];
    }
  }
}
