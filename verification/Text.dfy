/** Options, separator-joined text and decimal numerals, shared by several components. */
module Options {
  datatype Option<+T> = None | Some(value: T)
}

/** ASCII case mapping, substring tests and the dictionary order of strings. */
module Strings {

  function LowerChar(c: char): char {
    if 'A' <= c <= 'Z' then c + ('a' - 'A') else c
  }

  function UpperChar(c: char): char {
    if 'a' <= c <= 'z' then c - ('a' - 'A') else c
  }

  function Lower(s: string): (r: string)
    ensures |r| == |s| && forall i :: 0 <= i < |s| ==> r[i] == LowerChar(s[i])
  {
    seq(|s|, i requires 0 <= i < |s| => LowerChar(s[i]))
  }

  function Upper(s: string): (r: string)
    ensures |r| == |s| && forall i :: 0 <= i < |s| ==> r[i] == UpperChar(s[i])
  {
    seq(|s|, i requires 0 <= i < |s| => UpperChar(s[i]))
  }

  /** The letters from A to Z and from a to z, 32 apart; no other character has a case. */
  lemma CaseMeans(c: char)
    ensures LowerChar(c) as int == c as int + if 65 <= c as int <= 90 then 32 else 0
    ensures UpperChar(c) as int == c as int - if 97 <= c as int <= 122 then 32 else 0
  {
  }

  predicate Contains(s: string, needle: string) {
    exists i :: 0 <= i <= |s| - |needle| && s[i..][..|needle|] == needle
  }

  /** The needle stands somewhere in the text. */
  lemma ContainsMeans(s: string, needle: string)
    ensures Contains(s, needle) <==> exists a, b :: s == a + needle + b
  {
    if Contains(s, needle) {
      var i :| 0 <= i <= |s| - |needle| && s[i..][..|needle|] == needle;
      assert s == s[..i] + needle + s[i..][|needle|..];
    }
    if a, b :| s == a + needle + b {
      assert s[|a|..][..|needle|] == needle;
    }
  }

  /** The ASCII characters that Python's strip() takes off. */
  predicate IsSpace(c: char) {
    c == ' ' || '\t' <= c <= '\r' || 28 <= c as int <= 31
  }

  lemma SpaceMeans(c: char)
    ensures IsSpace(c) <==> c as int in {9, 10, 11, 12, 13, 28, 29, 30, 31, 32}
  {
  }

  function Strip(s: string): string {
    if s == "" then ""
    else if IsSpace(s[0]) then Strip(s[1..])
    else if IsSpace(s[|s| - 1]) then Strip(s[..|s| - 1])
    else s
  }

  /** Nothing but white space is taken off, and none is left at either end. */
  lemma {:induction false} StripMeans(s: string) returns (a: string, b: string)
    ensures s == a + Strip(s) + b
    ensures (forall c :: c in a ==> IsSpace(c)) && (forall c :: c in b ==> IsSpace(c))
    ensures Strip(s) != "" ==> !IsSpace(Strip(s)[0]) && !IsSpace(Strip(s)[|Strip(s)| - 1])
  {
    a, b := "", "";
    if s != "" && IsSpace(s[0]) {
      a, b := StripMeans(s[1..]);
      a := [s[0]] + a;
    } else if s != "" && IsSpace(s[|s| - 1]) {
      a, b := StripMeans(s[..|s| - 1]);
      assert s == s[..|s| - 1] + [s[|s| - 1]];
      b := b + [s[|s| - 1]];
    }
  }

  /** Code point by code point, a proper prefix first. */
  predicate LexLe(a: string, b: string) {
    a == [] || (b != [] && (a[0] < b[0] || (a[0] == b[0] && LexLe(a[1..], b[1..]))))
  }

  /** The first string is a prefix of the second, or smaller where they first differ. */
  lemma {:induction false} LexMeans(a: string, b: string)
    ensures LexLe(a, b) <==> a <= b || exists k: nat :: k < |a| && k < |b| && a[..k] == b[..k] && a[k] < b[k]
  {
    if a != [] && b != [] {
      LexMeans(a[1..], b[1..]);
      if a[0] == b[0] {
        assert a <= b <==> a[1..] <= b[1..] by { assert a == [a[0]] + a[1..] && b == [b[0]] + b[1..]; }
        if k: nat :| k < |a[1..]| && k < |b[1..]| && a[1..][..k] == b[1..][..k] && a[1..][k] < b[1..][k] {
          assert a[..k + 1] == [a[0]] + a[1..][..k] && b[..k + 1] == [b[0]] + b[1..][..k];
          assert a[k + 1] < b[k + 1];
        }
        if k: nat :| k < |a| && k < |b| && a[..k] == b[..k] && a[k] < b[k] {
          assert k > 0;
          assert a[1..][..k - 1] == a[..k][1..] && b[1..][..k - 1] == b[..k][1..];
          assert a[1..][k - 1] < b[1..][k - 1];
        }
      } else {
        assert a[..0] == b[..0];
        forall k: nat | 0 < k < |a| && k < |b| ensures a[..k] != b[..k] { assert a[..k][0] == a[0] && b[..k][0] == b[0]; }
      }
    }
  }

  lemma {:induction false} LexLeTotal(a: string, b: string)
    ensures LexLe(a, b) || LexLe(b, a)
  {
    if a != [] && b != [] && a[0] == b[0] { LexLeTotal(a[1..], b[1..]); }
  }

  lemma {:induction false} LexLeTransitive(a: string, b: string, c: string)
    requires LexLe(a, b) && LexLe(b, c)
    ensures LexLe(a, c)
  {
    if a != [] && a[0] == b[0] && b[0] == c[0] { LexLeTransitive(a[1..], b[1..], c[1..]); }
  }
}

/** Joining with a separator and splitting at it, as Python's and Go's string libraries do. */
module Delimited {

  lemma PrefixTransitive<T>(p: seq<T>, q: seq<T>, s: seq<T>)
    requires p <= q <= s
    ensures p <= s
  {
  }

  function Join<T>(parts: seq<seq<T>>, sep: T): seq<T>
    requires parts != []
  {
    if |parts| == 1 then parts[0] else parts[0] + [sep] + Join(parts[1..], sep)
  }

  /** One more element in front of a split text. */
  function SplitStep<T(==)>(x: T, sep: T, rest: seq<seq<T>>): seq<seq<T>>
    requires rest != []
  {
    if x == sep then [[]] + rest else [[x] + rest[0]] + rest[1..]
  }

  function Split<T(==)>(s: seq<T>, sep: T): (r: seq<seq<T>>)
    ensures r != []
  {
    if s == [] then [[]] else SplitStep(s[0], sep, Split(s[1..], sep))
  }

  function Occurrences<T(==)>(s: seq<T>, x: T): nat {
    if s == [] then 0 else (if s[0] == x then 1 else 0) + Occurrences(s[1..], x)
  }

  ghost predicate Free<T>(parts: seq<seq<T>>, sep: T) {
    forall i :: 0 <= i < |parts| ==> sep !in parts[i]
  }

  lemma {:induction false} OccurrencesConcat<T>(a: seq<T>, b: seq<T>, x: T)
    ensures Occurrences(a + b, x) == Occurrences(a, x) + Occurrences(b, x)
  {
    if a == [] {
      assert a + b == b;
    } else {
      OccurrencesConcat(a[1..], b, x);
      assert (a + b)[1..] == a[1..] + b;
    }
  }

  lemma {:induction false} OccurrencesZero<T>(s: seq<T>, x: T)
    ensures Occurrences(s, x) == 0 <==> x !in s
  {
    if s != [] {
      OccurrencesZero(s[1..], x);
      assert s == [s[0]] + s[1..];
    }
  }

  /** Splitting loses nothing. */
  lemma {:induction false} JoinOfSplit<T>(s: seq<T>, sep: T)
    ensures Join(Split(s, sep), sep) == s
  {
    if s != [] {
      JoinOfSplit(s[1..], sep);
      var rest := Split(s[1..], sep);
      if s[0] == sep {
        assert ([[]] + rest)[1..] == rest;
      } else if |rest| > 1 {
        var r := [[s[0]] + rest[0]] + rest[1..];
        assert r[1..] == rest[1..];
        assert Join(r, sep) == [s[0]] + rest[0] + [sep] + Join(rest[1..], sep);
      }
    }
  }

  lemma {:induction false} SplitOfConcat<T>(a: seq<T>, sep: T, s: seq<T>)
    requires sep !in a
    ensures Split(a + [sep] + s, sep) == [a] + Split(s, sep)
    ensures Split(a, sep) == [a]
  {
    var whole := a + [sep] + s;
    if a == [] {
      assert whole[1..] == s;
    } else {
      SplitOfConcat(a[1..], sep, s);
      assert whole[1..] == a[1..] + [sep] + s;
      assert [a[0]] + a[1..] == a;
    }
  }

  lemma {:induction false} SplitFree<T>(s: seq<T>, sep: T)
    ensures Free(Split(s, sep), sep)
  {
    if s != [] { SplitFree(s[1..], sep); }
  }

  lemma StepConcat<T>(x: T, sep: T, front: seq<seq<T>>, back: seq<seq<T>>)
    requires front != []
    ensures SplitStep(x, sep, front + back) == SplitStep(x, sep, front) + back
  {
    assert (front + back)[0] == front[0] && (front + back)[1..] == front[1..] + back;
  }

  /** Splitting distributes over a separator. */
  lemma {:induction false} SplitAround<T>(a: seq<T>, sep: T, b: seq<T>)
    ensures Split(a + [sep] + b, sep) == Split(a, sep) + Split(b, sep)
  {
    var whole := a + [sep] + b;
    if a == [] {
      assert whole[1..] == b;
    } else {
      SplitAround(a[1..], sep, b);
      assert whole[1..] == a[1..] + [sep] + b;
      StepConcat(a[0], sep, Split(a[1..], sep), Split(b, sep));
    }
  }

  /** Splitting undoes joining when no part holds the separator. */
  lemma {:induction false} SplitOfJoin<T>(parts: seq<seq<T>>, sep: T)
    requires parts != [] && Free(parts, sep)
    ensures Split(Join(parts, sep), sep) == parts
  {
    if |parts| == 1 {
      SplitOfConcat(parts[0], sep, []);
    } else {
      SplitOfJoin(parts[1..], sep);
      SplitOfConcat(parts[0], sep, Join(parts[1..], sep));
    }
  }

  /** A joined text has at least |parts| - 1 separators, and no more only if no part adds any. */
  lemma {:induction false} SeparatorsOfJoin<T>(parts: seq<seq<T>>, sep: T)
    requires parts != []
    ensures Occurrences(Join(parts, sep), sep) >= |parts| - 1
    ensures Occurrences(Join(parts, sep), sep) == |parts| - 1 <==> Free(parts, sep)
  {
    OccurrencesZero(parts[0], sep);
    if |parts| > 1 {
      var tail := parts[1..];
      SeparatorsOfJoin(tail, sep);
      OccurrencesConcat(parts[0] + [sep], Join(tail, sep), sep);
      OccurrencesConcat(parts[0], [sep], sep);
      assert Free(parts, sep) <==> sep !in parts[0] && Free(tail, sep) by {
        assert forall i :: 0 <= i < |tail| ==> tail[i] == parts[i + 1];
      }
    }
  }

  /** Joining is injective at a separator-free list; nothing is asked of the other one. */
  lemma JoinInjective<T>(p: seq<seq<T>>, q: seq<seq<T>>, sep: T)
    requires p != [] && |p| == |q| && Free(p, sep) && Join(p, sep) == Join(q, sep)
    ensures p == q
  {
    SeparatorsOfJoin(p, sep);
    SeparatorsOfJoin(q, sep);
    SplitOfJoin(p, sep);
    SplitOfJoin(q, sep);
  }

  /** Joining a concatenation. */
  lemma {:induction false} JoinConcat<T>(p: seq<seq<T>>, q: seq<seq<T>>, sep: T)
    requires p != [] && q != []
    ensures Join(p + q, sep) == Join(p, sep) + [sep] + Join(q, sep)
  {
    assert (p + q)[1..] == p[1..] + q;
    if |p| > 1 { JoinConcat(p[1..], q, sep); }
  }

  /** Splitting is injective. */
  lemma SplitInjective<T>(s: seq<T>, t: seq<T>, sep: T)
    requires Split(s, sep) == Split(t, sep)
    ensures s == t
  {
    JoinOfSplit(s, sep);
    JoinOfSplit(t, sep);
  }

  lemma {:induction false} SplitLength<T>(s: seq<T>, sep: T)
    ensures |Split(s, sep)| == Occurrences(s, sep) + 1
  {
    if s != [] { SplitLength(s[1..], sep); }
  }

  /** A text of several separated parts splits into at least as many, the first of them first if it is free. */
  lemma SplitOfParts<T>(parts: seq<seq<T>>, sep: T)
    requires |parts| > 1 && sep !in parts[0]
    ensures |Split(Join(parts, sep), sep)| >= |parts|
    ensures Split(Join(parts, sep), sep)[0] == parts[0]
  {
    SplitLength(Join(parts, sep), sep);
    SeparatorsOfJoin(parts, sep);
    SplitOfConcat(parts[0], sep, Join(parts[1..], sep));
  }

  lemma Halves<T>(s: seq<T>, sep: T) returns (a: seq<T>, b: seq<T>)
    requires sep in s
    ensures s == a + [sep] + b
  {
    var k :| 0 <= k < |s| && s[k] == sep;
    a, b := s[..k], s[k + 1..];
  }

  /** Moving text across one separator does not show in the joined text. */
  lemma {:induction false} JoinShift<T>(p: seq<seq<T>>, q: seq<seq<T>>, sep: T, i: nat)
    requires |p| == |q| && i + 1 < |p|
    requires p[..i] == q[..i] && p[i + 2..] == q[i + 2..]
    requires p[i] + [sep] + p[i + 1] == q[i] + [sep] + q[i + 1]
    ensures Join(p, sep) == Join(q, sep)
  {
    if i > 0 {
      assert p[0] == p[..i][0] == q[..i][0] == q[0];
      assert p[1..][..i - 1] == p[..i][1..] == q[..i][1..] == q[1..][..i - 1];
      assert p[1..][i - 1 + 2..] == p[i + 2..] && q[1..][i - 1 + 2..] == q[i + 2..];
      JoinShift(p[1..], q[1..], sep, i - 1);
    } else if |p| > 2 {
      assert p[1..][1..] == p[2..] == q[2..] == q[1..][1..];
      var rest := [sep] + Join(p[2..], sep);
      calc {
        Join(p, sep);
        p[0] + [sep] + Join(p[1..], sep);
        p[0] + [sep] + (p[1] + [sep] + Join(p[2..], sep));
        p[0] + [sep] + p[1] + rest;
        q[0] + [sep] + q[1] + rest;
        q[0] + [sep] + (q[1] + [sep] + Join(q[2..], sep));
        q[0] + [sep] + Join(q[1..], sep);
        Join(q, sep);
      }
    }
  }
}

/** Decimal numerals of integers, as Python's str() writes them. */
module Decimal {

  function NatText(n: nat): (s: string)
    ensures s != [] && forall c :: c in s ==> '0' <= c <= '9'
  {
    var digit := ['0' + (n % 10) as char];
    if n < 10 then digit else NatText(n / 10) + digit
  }

  /** Decimal: one more digit on the right, no leading zero. */
  lemma NatTextMeans(n: nat, d: nat)
    requires d < 10
    ensures NatText(10 * n + d) == (if n == 0 then "" else NatText(n)) + ["0123456789"[d]]
  {
    assert (10 * n + d) % 10 == d && (10 * n + d) / 10 == n;
    assert "0123456789"[d] == '0' + d as char;
  }

  lemma IntTextMeans(i: int)
    ensures i >= 0 ==> IntText(i) == NatText(i)
    ensures i < 0 ==> IntText(i) == "-" + NatText(-i)
  {
  }

  function IntText(i: int): string {
    if i < 0 then "-" + NatText(-i) else NatText(i)
  }

  function NatValue(s: string): int {
    if s == [] then 0 else 10 * NatValue(s[..|s| - 1]) + (s[|s| - 1] as int - '0' as int)
  }

  lemma {:induction false} NatRoundTrip(n: nat)
    ensures NatValue(NatText(n)) == n
  {
    var s := NatText(n);
    if n >= 10 {
      NatRoundTrip(n / 10);
      assert s[..|s| - 1] == NatText(n / 10);
    } else {
      assert s[..0] == [];
    }
  }

  /** Reading the numeral back, sign first. */
  function IntValue(s: string): int {
    if s != [] && s[0] == '-' then -NatValue(s[1..]) else NatValue(s)
  }

  lemma IntRoundTrip(i: int)
    ensures IntValue(IntText(i)) == i
  {
    var s := IntText(i);
    if i < 0 {
      NatRoundTrip(-i);
      assert s[1..] == NatText(-i);
    } else {
      NatRoundTrip(i);
      assert s[0] in s;
    }
  }
}
