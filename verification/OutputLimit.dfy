/**
 Cutting a command's output to a number of bytes and of lines: the longest prefix within both caps.
 The byte cap is a product in 64-bit arithmetic, and the last results say when that matters.
 */
module OutputLimit {
  import opened Options
  import opened Bytes
  import opened Delimited

  const NEWLINE: byte := 0x0A
  const MEGABYTE := 1024 * 1024

  datatype Outcome = Panics | Output(content: seq<byte>)

  /** The byte cap in bytes, as the product comes out; None when there is none. */
  function ByteCap(maxSizeMB: int): Option<int> {
    if maxSizeMB > 0 then Some(Signed64(maxSizeMB * MEGABYTE)) else None
  }

  /** The byte cap that is meant. */
  function MeantCap(maxSizeMB: int): Option<int> {
    if maxSizeMB > 0 then Some(maxSizeMB * MEGABYTE) else None
  }

  function LineCount(s: seq<byte>): nat {
    Occurrences(s, NEWLINE) + 1
  }

  predicate Within(s: seq<byte>, maxLines: int, cap: Option<int>) {
    && (cap.Some? ==> |s| <= cap.value)
    && (maxLines > 0 ==> LineCount(s) <= maxLines)
  }

  /** The caps in plain terms, below the size at which the product wraps: bytes, and lines split at line feeds. */
  lemma WithinMeans(s: seq<byte>, maxLines: int, maxSizeMB: int)
    requires maxSizeMB < 0x800_0000_0000
    ensures Within(s, maxLines, ByteCap(maxSizeMB)) <==>
            && (maxSizeMB > 0 ==> |s| <= maxSizeMB * 1_048_576)
            && (maxLines > 0 ==> |Split(s, 10)| <= maxLines)
    ensures MeantCap(maxSizeMB) == ByteCap(maxSizeMB)
  {
    SplitLength<byte>(s, 10);
    assert maxSizeMB > 0 ==> Signed64(maxSizeMB * MEGABYTE) == maxSizeMB * 1_048_576;
  }

  /** The longest prefix of the content within the caps. */
  ghost predicate Longest(content: seq<byte>, maxLines: int, cap: Option<int>, r: seq<byte>) {
    && r <= content && Within(r, maxLines, cap)
    && forall q :: q <= content && Within(q, maxLines, cap) ==> q <= r
  }

  /** Go's slice bounds check fails on a negative cap. */
  ghost predicate Yields(content: seq<byte>, maxLines: int, maxSizeMB: int, r: Outcome) {
    var cap := ByteCap(maxSizeMB);
    if cap.Some? && cap.value < 0 then r.Panics? else r.Output? && Longest(content, maxLines, cap, r.content)
  }

  // ----- Splitting and joining against prefixes -----

  lemma {:induction false} JoinTake<T>(parts: seq<seq<T>>, sep: T, k: nat)
    requires 0 < k < |parts|
    ensures Join(parts, sep) == Join(parts[..k], sep) + [sep] + Join(parts[k..], sep)
  {
    if k > 1 {
      JoinTake(parts[1..], sep, k - 1);
      assert parts[1..][..k - 1] == parts[..k][1..] && parts[1..][k - 1..] == parts[k..];
    } else {
      assert parts[..1] == [parts[0]];
    }
  }

  lemma OccurrencesOfPrefix<T>(q: seq<T>, s: seq<T>, x: T)
    requires q <= s
    ensures Occurrences(q, x) <= Occurrences(s, x)
  {
    OccurrencesConcat(q, s[|q|..], x);
    assert q + s[|q|..] == s;
  }

  lemma PrefixOrder<T>(p: seq<T>, q: seq<T>, s: seq<T>)
    requires p <= s && q <= s && |p| <= |q|
    ensures p <= q
  {
    assert p == s[..|p|] == q[..|p|];
  }

  /** The first k lines are the longest prefix with at most k lines. */
  lemma FirstLines(s: seq<byte>, k: nat)
    requires 0 < k < |Split(s, NEWLINE)|
    ensures var r := Join(Split(s, NEWLINE)[..k], NEWLINE);
      && r <= s && LineCount(r) == k
      && forall q :: q <= s && LineCount(q) <= k ==> q <= r
  {
    var lines := Split(s, NEWLINE);
    var r := Join(lines[..k], NEWLINE);
    JoinOfSplit(s, NEWLINE);
    JoinTake(lines, NEWLINE, k);
    SplitFree(s, NEWLINE);
    assert Free(lines[..k], NEWLINE);
    SeparatorsOfJoin(lines[..k], NEWLINE);
    var next := r + [NEWLINE];
    assert next <= s;
    OccurrencesConcat(r, [NEWLINE], NEWLINE);
    forall q | q <= s && LineCount(q) <= k ensures q <= r {
      if |q| > |r| {
        PrefixOrder(next, q, s);
        OccurrencesOfPrefix(next, q, NEWLINE);
        assert false;
      }
      PrefixOrder(q, r, s);
    }
  }

  lemma LinesOfSplit(s: seq<byte>)
    ensures LineCount(s) == |Split(s, NEWLINE)|
  {
    var lines := Split(s, NEWLINE);
    JoinOfSplit(s, NEWLINE);
    SplitFree(s, NEWLINE);
    SeparatorsOfJoin(lines, NEWLINE);
  }

  // ----- The limiter -----

  method LimitLines(content: seq<byte>, maxLines: int) returns (r: seq<byte>)
    ensures Longest(content, maxLines, None, r)
  {
    r := content;
    if maxLines > 0 {
      var lines := Split(content, NEWLINE);
      LinesOfSplit(content);
      if |lines| > maxLines {
        FirstLines(content, maxLines);
        r := Join(lines[..maxLines], NEWLINE);
      }
    }
  }

  method LimitOutput(content: seq<byte>, maxLines: int, maxSizeMB: int) returns (r: Outcome)
    ensures Yields(content, maxLines, maxSizeMB, r)
  {
    var cut := content;
    if maxSizeMB > 0 {
      var limit := Signed64(maxSizeMB * 1024 * 1024);
      if |cut| > limit {
        if limit < 0 { return Panics; }
        cut := cut[..limit];
      }
    }
    var limited := LimitLines(cut, maxLines);
    CapsCombine(content, cut, maxLines, ByteCap(maxSizeMB), limited);
    r := Output(limited);
  }

  lemma CapsCombine(content: seq<byte>, cut: seq<byte>, maxLines: int, cap: Option<int>, r: seq<byte>)
    requires Longest(cut, maxLines, None, r)
    requires cap.Some? ==> cap.value >= 0
    requires cut == if cap.Some? && |content| > cap.value then content[..cap.value] else content
    ensures Longest(content, maxLines, cap, r)
  {
    PrefixTransitive(r, cut, content);
    forall q | q <= content && Within(q, maxLines, cap) ensures q <= r {
      PrefixOrder(q, cut, content);
      assert Within(q, maxLines, None);
    }
  }

  // ----- What follows -----

  /** There is one answer. */
  lemma LongestUnique(content: seq<byte>, maxLines: int, cap: Option<int>, r: seq<byte>, r': seq<byte>)
    requires Longest(content, maxLines, cap, r) && Longest(content, maxLines, cap, r')
    ensures r == r'
  {
    assert r <= r' && r' <= r;
  }

  /** Limiting again changes nothing. */
  lemma Idempotent(content: seq<byte>, maxLines: int, maxSizeMB: int, once: Outcome, twice: Outcome)
    requires Yields(content, maxLines, maxSizeMB, once) && once.Output?
    requires Yields(once.content, maxLines, maxSizeMB, twice)
    ensures twice == once
  {
    var r := once.content;
    assert r <= r && Within(r, maxLines, ByteCap(maxSizeMB));
    assert r <= twice.content <= r;
  }

  /** The result is the longest prefix within the caps that are meant. */
  ghost predicate Promised(content: seq<byte>, maxLines: int, maxSizeMB: int, r: Outcome) {
    r.Output? && Longest(content, maxLines, MeantCap(maxSizeMB), r.content)
  }

  const OVERFLOW_MB := 0x800_0000_0000

  /** Every size a caller may configure, and any below 2^43 MB, is cut as promised. */
  lemma PromiseKept(content: seq<byte>, maxLines: int, maxSizeMB: int, r: Outcome)
    requires maxSizeMB < OVERFLOW_MB && Yields(content, maxLines, maxSizeMB, r)
    ensures Promised(content, maxLines, maxSizeMB, r)
  {
    assert maxSizeMB > 0 ==> maxSizeMB * MEGABYTE < TWO_63;
  }

  /** Content of a given length. */
  function Filled(n: nat): (r: seq<byte>)
    ensures |r| == n
  {
    seq(n, _ => 0)
  }

  /**
   The promise holds for all content exactly below 2^43 MB; from there on the product wraps, and the
   call panics or cuts content that is within the cap.
   */
  lemma PromiseExact(maxSizeMB: int)
    requires maxSizeMB < TWO_63
    ensures (forall content, r :: |content| < TWO_63 && Yields(content, 0, maxSizeMB, r) ==>
               Promised(content, 0, maxSizeMB, r)) <==> maxSizeMB < OVERFLOW_MB
  {
    if maxSizeMB < OVERFLOW_MB {
      forall content, r | Yields(content, 0, maxSizeMB, r) ensures Promised(content, 0, maxSizeMB, r) {
        PromiseKept(content, 0, maxSizeMB, r);
      }
    } else {
      var meant := maxSizeMB * MEGABYTE;
      var cap := Signed64(meant);
      assert cap < TWO_63 <= meant;
      if cap < 0 {
        assert Yields([], 0, maxSizeMB, Panics) && !Promised([], 0, maxSizeMB, Panics);
      } else {
        CutTooShort(maxSizeMB, cap);
      }
    }
  }

  lemma CutTooShort(maxSizeMB: int, cap: nat)
    requires maxSizeMB > 0 && ByteCap(maxSizeMB) == Some(cap) && cap + 1 < TWO_63 <= maxSizeMB * MEGABYTE
    ensures exists content, r :: |content| < TWO_63 && Yields(content, 0, maxSizeMB, r) && !Promised(content, 0, maxSizeMB, r)
  {
    var content := Filled(cap + 1);
    var r := content[..cap];
    CapsCombine(content, r, 0, Some(cap), r);
    assert Yields(content, 0, maxSizeMB, Output(r));
    assert content <= content && Within(content, 0, MeantCap(maxSizeMB)) && !(content <= r);
  }
}
