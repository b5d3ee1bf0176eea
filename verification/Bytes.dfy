/** Bytes, little-endian integers and Go's 64-bit integer arithmetic. */
module Bytes {

  type byte = b: int | 0 <= b < 256

  const TWO_16 := 0x1_0000
  const TWO_32 := 0x1_0000_0000
  const TWO_63 := 0x8000_0000_0000_0000
  const TWO_64 := 0x1_0000_0000_0000_0000

  function Le16(b: seq<byte>, at: nat): (r: nat)
    requires at + 2 <= |b|
    ensures r < TWO_16
  {
    b[at] as int + 256 * b[at + 1] as int
  }

  function Le32(b: seq<byte>, at: nat): (r: nat)
    requires at + 4 <= |b|
    ensures r < TWO_32
  {
    Le16(b, at) + TWO_16 * Le16(b, at + 2)
  }

  function Le64(b: seq<byte>, at: nat): (r: nat)
    requires at + 8 <= |b|
    ensures r < TWO_64
  {
    Le32(b, at) + TWO_32 * Le32(b, at + 4)
  }

  /** Little-endian: the byte at offset k weighs 256 to the power of k. */
  lemma LittleEndian(b: seq<byte>, at: nat)
    ensures at + 2 <= |b| ==> Le16(b, at) == b[at] as int + 256 * b[at + 1] as int
    ensures at + 4 <= |b| ==>
              Le32(b, at) == b[at] as int + 0x100 * b[at + 1] as int + 0x1_0000 * b[at + 2] as int + 0x100_0000 * b[at + 3] as int
    ensures at + 8 <= |b| ==> Le64(b, at) == Le32(b, at) + 0x1_0000_0000 * Le32(b, at + 4)
  {
  }

  function Put16(n: nat): (r: seq<byte>)
    requires n < TWO_16
    ensures |r| == 2 && Le16(r, 0) == n
  {
    [n % 256, n / 256]
  }

  function Put32(n: nat): (r: seq<byte>)
    requires n < TWO_32
    ensures |r| == 4 && Le32(r, 0) == n
  {
    var r := Put16(n % TWO_16) + Put16(n / TWO_16);
    assert r[..2] == Put16(n % TWO_16) && r[2..] == Put16(n / TWO_16);
    r
  }

  function Put64(n: nat): (r: seq<byte>)
    requires n < TWO_64
    ensures |r| == 8 && Le64(r, 0) == n
  {
    var low, high := Put32(n % TWO_32), Put32(n / TWO_32);
    var r := low + high;
    assert Le32(r, 0) == Le32(low, 0) && Le32(r, 4) == Le32(high, 0);
    r
  }

  /** The signed value of the low 64 bits, as a wrapping product or a conversion to int64 gives. */
  function Signed64(n: int): (r: int)
    ensures -TWO_63 <= r < TWO_63
    ensures r == n <==> -TWO_63 <= n < TWO_63
  {
    var low := n % TWO_64;
    if low < TWO_63 then low else low - TWO_64
  }

  /** Two's complement: the value differs from the integer by whole turns of 2^64. */
  lemma SignedIsCongruent(n: int)
    ensures -0x8000_0000_0000_0000 <= Signed64(n) < 0x8000_0000_0000_0000
    ensures (n - Signed64(n)) % 0x1_0000_0000_0000_0000 == 0
  {
    var turns := n / TWO_64;
    assert n == turns * TWO_64 + n % TWO_64;
    assert n - Signed64(n) == (if n % TWO_64 < TWO_63 then turns else turns + 1) * 0x1_0000_0000_0000_0000;
  }
}

/** UTF-16 code units, the text a decoder makes of them and its UTF-8 bytes. */
module WideText {
  import opened Bytes

  type unit = u: int | 0 <= u < 0x1_0000

  predicate Surrogate(u: unit) { 0xD800 <= u < 0xE000 }

  /** The bytes of one code point; a lone surrogate is none and is replaced by U+FFFD. */
  function Utf8(u: unit): (r: seq<byte>)
    ensures r != []
  {
    if u < 0x80 then [u]
    else if u < 0x800 then [0xC0 + u / 64, 0x80 + u % 64]
    else if Surrogate(u) then [0xEF, 0xBF, 0xBD]
    else [0xE0 + u / 4096, 0x80 + u / 64 % 64, 0x80 + u % 64]
  }

  /**
   UTF-8: one, two or three bytes, lead and continuation bytes in their ranges, from which the code point is
   read; lone surrogates become the replacement character.
   */
  lemma Utf8Means(u: unit)
    ensures var b := Utf8(u);
      && (u < 0x80 ==> b == [u])
      && (0x80 <= u < 0x800 ==>
            |b| == 2 && 0xC0 <= b[0] < 0xE0 && 0x80 <= b[1] < 0xC0 && u == (b[0] as int - 0xC0) * 64 + (b[1] as int - 0x80))
      && (0xD800 <= u <= 0xDFFF ==> b == [0xEF, 0xBF, 0xBD])
      && (u >= 0x800 && !(0xD800 <= u <= 0xDFFF) ==>
            && |b| == 3 && 0xE0 <= b[0] < 0xF0 && 0x80 <= b[1] < 0xC0 && 0x80 <= b[2] < 0xC0
            && u == (b[0] as int - 0xE0) * 4096 + (b[1] as int - 0x80) * 64 + (b[2] as int - 0x80))
  {
  }

  function Utf8All(units: seq<unit>): seq<byte> {
    if units == [] then [] else Utf8All(units[..|units| - 1]) + Utf8(units[|units| - 1])
  }

  /** The text up to the first zero. */
  function UpToZero<T(==)>(s: seq<T>, zero: T): seq<T> {
    if s == [] || s[0] == zero then [] else [s[0]] + UpToZero(s[1..], zero)
  }

  /** The longest prefix without a zero. */
  lemma {:induction false} UpToZeroMeans<T>(s: seq<T>, zero: T)
    ensures var r := UpToZero(s, zero); r <= s && zero !in r && (|r| < |s| ==> s[|r|] == zero)
  {
    if s != [] && s[0] != zero {
      UpToZeroMeans(s[1..], zero);
      var r := UpToZero(s[1..], zero);
      assert s == [s[0]] + s[1..];
      assert zero !in [s[0]] + r;
    }
  }

  lemma UpToZeroWhole<T>(s: seq<T>, zero: T)
    requires zero !in s
    ensures UpToZero(s, zero) == s
  {
    UpToZeroMeans(s, zero);
  }

  /** Whole code units; a last odd byte is dropped. */
  function Units(b: seq<byte>): (r: seq<unit>)
    ensures |r| == |b| / 2 && forall i :: 0 <= i < |r| ==> r[i] == Le16(b, 2 * i)
  {
    seq(|b| / 2, i requires 0 <= i < |b| / 2 => Le16(b, 2 * i))
  }

  function PutUnits(units: seq<unit>): (r: seq<byte>)
    ensures |r| == 2 * |units|
  {
    if units == [] then [] else PutUnits(units[..|units| - 1]) + Put16(units[|units| - 1])
  }

  lemma {:induction false} UnitsRoundTrip(units: seq<unit>)
    ensures Units(PutUnits(units)) == units
  {
    if units != [] {
      var n := |units| - 1;
      var head, last := PutUnits(units[..n]), Put16(units[n]);
      UnitsRoundTrip(units[..n]);
      var b := head + last;
      forall i | 0 <= i < |units| ensures Units(b)[i] == units[i] {
        if i < n {
          assert Le16(b, 2 * i) == Le16(head, 2 * i) == Units(head)[i];
        } else {
          assert Le16(b, 2 * n) == Le16(last, 0);
        }
      }
    }
  }

  /** The decoder: units up to the first zero, as UTF-8. */
  method DecodeUtf16(b: seq<byte>) returns (text: seq<byte>)
    ensures text == Utf8All(UpToZero(Units(b), 0))
  {
    var whole := if |b| % 2 != 0 then b[..|b| - 1] else b;
    var runes: seq<unit> := [];
    var i := 0;
    while i + 1 < |whole|
      invariant i == 2 * |runes| && i <= |whole|
      invariant runes == Units(b)[..|runes|] && 0 !in runes
    {
      var r := Le16(whole, i);
      assert r == Units(b)[|runes|];
      if r == 0 { break; }
      runes := runes + [r];
      i := i + 2;
    }
    FirstZero(Units(b), |runes|, 0);
    text := Utf8All(runes);
  }

  lemma {:induction false} FirstZero<T>(s: seq<T>, n: nat, zero: T)
    requires n <= |s| && zero !in s[..n] && (n == |s| || s[n] == zero)
    ensures UpToZero(s, zero) == s[..n]
  {
    if n > 0 {
      assert s[1..][..n - 1] == s[..n][1..] && s[0] == s[..n][0];
      FirstZero(s[1..], n - 1, zero);
    }
  }

  ghost predicate NoSurrogate(units: seq<unit>) {
    forall u :: u in units ==> !Surrogate(u)
  }

  lemma Utf8Start(u: unit)
    ensures var b := Utf8(u);
      && |b| == (if b[0] < 0x80 then 1 else if b[0] < 0xE0 then 2 else 3)
      && (b[0] < 0x80 || b[0] >= 0xC0)
  {
  }

  /** The code point its bytes stand for. */
  function CodeOf(b: seq<byte>): int
    requires 1 <= |b| <= 3
  {
    if |b| == 1 then b[0] as int
    else if |b| == 2 then (b[0] as int - 0xC0) * 64 + (b[1] as int - 0x80)
    else (b[0] as int - 0xE0) * 4096 + (b[1] as int - 0x80) * 64 + (b[2] as int - 0x80)
  }

  lemma CodeOfUtf8(u: unit)
    requires !Surrogate(u)
    ensures CodeOf(Utf8(u)) == u
  {
    assert u == u / 64 * 64 + u % 64;
    assert u / 64 == u / 4096 * 64 + u / 64 % 64;
  }

  lemma {:induction false} Utf8Front(units: seq<unit>)
    requires units != []
    ensures Utf8All(units) == Utf8(units[0]) + Utf8All(units[1..])
  {
    var n := |units| - 1;
    if n > 0 {
      Utf8Front(units[..n]);
      assert units[..n][1..] == units[1..][..n - 1];
    }
  }

  /** Different texts without lone surrogates have different bytes. */
  lemma {:induction false} Utf8Injective(a: seq<unit>, b: seq<unit>)
    requires NoSurrogate(a) && NoSurrogate(b) && Utf8All(a) == Utf8All(b)
    ensures a == b
  {
    hide Utf8, CodeOf;
    if a != [] { Utf8Front(a); }
    if b != [] { Utf8Front(b); }
    if a != [] && b != [] {
      Utf8Start(a[0]);
      Utf8Start(b[0]);
      var p, q := Utf8(a[0]), Utf8(b[0]);
      assert p[0] == Utf8All(a)[0] == q[0];
      assert p == Utf8All(a)[..|p|] == q;
      CodeOfUtf8(a[0]);
      CodeOfUtf8(b[0]);
      assert Utf8All(a[1..]) == Utf8All(a)[|p|..] == Utf8All(b[1..]);
      Utf8Injective(a[1..], b[1..]);
      assert a == [a[0]] + a[1..] && b == [b[0]] + b[1..];
    }
  }
}
