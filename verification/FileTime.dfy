/**
 Conversion of FILETIME, Chrome and Firefox timestamps to instants in nanoseconds since 1970; the
 rendered text shows whole seconds.
 */
module FileTime {
  import opened Options
  import opened Bytes

  /** 100 ns intervals, and microseconds, from 1601 to 1970. */
  const EPOCH := 116_444_736_000_000_000
  const EPOCH_MICROS := 11_644_473_600_000_000

  const NANOS := 1_000_000_000

  /** The largest distance from the epoch that is converted exactly. */
  const LAST_EXACT := 92_233_720_368_547_758

  /** From 1601 to 1970 it is 369 years, 89 of them leap years. */
  lemma EpochMeans()
    ensures EPOCH == (369 * 365 + 89) * 24 * 60 * 60 * 10_000_000
    ensures EPOCH_MICROS == (369 * 365 + 89) * 24 * 60 * 60 * 1_000_000
  {
  }

  /** `time.Unix(sec, nsec)` */
  function Unix(sec: int, nsec: int): int { sec * NANOS + nsec }

  function FromFileTime(ft: nat): Option<int>
    requires ft < TWO_64
  {
    if ft == 0 then None
    else if ft < EPOCH then None
    else Some(Unix(0, Signed64((ft - EPOCH) * 100 % TWO_64)))
  }

  function FromChrome(t: int): Option<int>
    requires -TWO_63 <= t < TWO_63
  {
    if t <= 0 then None
    else
      var usec := Signed64(t - EPOCH_MICROS);
      if usec <= 0 then None else Some(Unix(usec / 1_000_000, usec % 1_000_000 * 1000))
  }

  function FromFirefox(t: int): Option<int>
    requires -TWO_63 <= t < TWO_63
  {
    if t <= 0 then None else Some(Unix(t / 1_000_000, t % 1_000_000 * 1000))
  }

  /** Times before 1970, and for Chrome and Firefox 1970 itself, have no instant. */
  lemma NoInstant(ft: nat, t: int)
    requires ft < TWO_64 && -TWO_63 <= t < TWO_63
    ensures FromFileTime(ft).None? <==> ft < 116_444_736_000_000_000
    ensures FromChrome(t).None? <==> t <= 11_644_473_600_000_000
    ensures FromFirefox(t).None? <==> t <= 0
  {
  }

  /** What the text shows: the second the instant lies in. */
  function Shown(instant: Option<int>): Option<int> {
    if instant.Some? then Some(instant.value / NANOS) else None
  }

  lemma ShownMeans(t: int, second: int)
    ensures Shown(None) == None
    ensures Shown(Some(t)) == Some(second) <==> second * 1_000_000_000 <= t < (second + 1) * 1_000_000_000
  {
  }

  /** The conversion is exact up to the point where the product leaves int64, and nowhere after. */
  lemma FileTimeExact(ft: nat)
    requires EPOCH <= ft < TWO_64
    ensures FromFileTime(ft) == Some(100 * (ft - EPOCH)) <==> ft - EPOCH <= LAST_EXACT
  {
    var product := (ft - EPOCH) * 100;
    assert Signed64(product % TWO_64) == Signed64(product);
  }

  /** Later FILETIMEs give later instants as long as both are exact; one step further wraps into the past. */
  lemma FileTimeMonotone(a: nat, b: nat)
    requires EPOCH <= a < b && b - EPOCH <= LAST_EXACT
    ensures FromFileTime(a).value < FromFileTime(b).value
    ensures FromFileTime(EPOCH + LAST_EXACT + 1).value < 0 <= FromFileTime(a).value
  {
    FileTimeExact(a);
    FileTimeExact(b);
  }

  /** Wrapping moves an instant by a multiple of 2^64 ns, which is more than a second. */
  lemma WrapShows(ft: nat)
    requires EPOCH <= ft < TWO_64
    ensures Shown(FromFileTime(ft)) == Some(100 * (ft - EPOCH) / NANOS) <==> ft - EPOCH <= LAST_EXACT
  {
    var exact := 100 * (ft - EPOCH);
    var stored := FromFileTime(ft).value;
    FileTimeExact(ft);
    if ft - EPOCH > LAST_EXACT {
      assert stored < TWO_63 <= exact;
      assert stored == Signed64(exact);
      assert exact - stored >= TWO_64 by { WholeTurns(exact); }
    }
  }

  lemma WholeTurns(n: int)
    requires n >= TWO_63
    ensures n - Signed64(n) >= TWO_64
  {
    var turns := n / TWO_64;
    assert n == turns * TWO_64 + n % TWO_64;
  }

  /** Chrome counts microseconds from the same origin: both agree to the second exactly where FILETIME is exact. */
  lemma ChromeAgrees(t: int)
    requires EPOCH_MICROS < t && 10 * t < TWO_64
    ensures Shown(FromFileTime(10 * t)) == Shown(FromChrome(t)) <==> 10 * t - EPOCH <= LAST_EXACT
    ensures 10 * t - EPOCH <= LAST_EXACT ==> FromFileTime(10 * t) == FromChrome(t)
  {
    ChromeExact(t);
    FileTimeExact(10 * t);
    WrapShows(10 * t);
  }

  /** The split into seconds and nanoseconds loses nothing. */
  lemma ChromeExact(t: int)
    requires EPOCH_MICROS < t < TWO_63
    ensures FromChrome(t) == Some(1000 * (t - EPOCH_MICROS))
  {
    var usec := t - EPOCH_MICROS;
    assert Signed64(usec) == usec;
    assert usec == usec / 1_000_000 * 1_000_000 + usec % 1_000_000;
  }

  /** Firefox counts from 1970: shifting by the epoch gives Chrome's timestamp of the same instant. */
  lemma FirefoxIsShiftedChrome(t: int)
    requires 0 < t < TWO_63 - EPOCH_MICROS
    ensures FromFirefox(t) == FromChrome(t + EPOCH_MICROS) == Some(1000 * t)
  {
    ChromeExact(t + EPOCH_MICROS);
    assert t == t / 1_000_000 * 1_000_000 + t % 1_000_000;
  }
}
