/** The prefetch parser: fixed offsets behind one length check, and up to eight run times. */
module Prefetch {
  import opened Options
  import opened Bytes
  import opened WideText
  import FileTime

  datatype Entry = Entry(
    exeName: seq<byte>, hash: nat, version: nat, runCount: nat, lastRunTime: Option<int>, runTimes: seq<Option<int>>)

  datatype Parsed = NotDecompressed | TooSmall | BadSignature | Unsupported(version: nat) | Prefetch(entry: Entry)

  const SIZE := 0xD4
  const SIGNATURE: seq<byte> := [0x53, 0x43, 0x43, 0x41]
  const COMPRESSED: seq<byte> := [0x4D, 0x41, 0x4D]
  const NAME := 0x10
  const NAME_END := 0x4C
  const SLOTS := 8

  /** MAM files are decompressed first; how is a parameter. */
  function Unpacked(data: seq<byte>, decompress: (seq<byte>, nat) -> Option<seq<byte>>): Option<seq<byte>> {
    if |data| >= 8 && data[..3] == COMPRESSED then decompress(data[8..], Le32(data, 4)) else Some(data)
  }

  /** "MAM" in front says that the file is compressed; its size follows at byte 4 and the content at byte 8. */
  lemma UnpackedMeans(data: seq<byte>, decompress: (seq<byte>, nat) -> Option<seq<byte>>)
    ensures |data| >= 8 && data[0] as char == 'M' && data[1] as char == 'A' && data[2] as char == 'M' ==>
              Unpacked(data, decompress) == decompress(data[8..], Le32(data, 4))
    ensures |data| < 8 || data[0] as char != 'M' || data[1] as char != 'A' || data[2] as char != 'M' ==>
              Unpacked(data, decompress) == Some(data)
  {
  }

  function Slot(data: seq<byte>, i: nat): nat
    requires |data| >= SIZE && i < SLOTS
  {
    Le64(data, 0x80 + i * 8)
  }

  function Slots(data: seq<byte>): (r: seq<nat>)
    requires |data| >= SIZE
    ensures |r| == SLOTS && forall i :: 0 <= i < SLOTS ==> r[i] == Slot(data, i) < TWO_64
  {
    seq(SLOTS, i requires 0 <= i < SLOTS => Slot(data, i))
  }

  /** The recorded FILETIMEs up to the first empty slot. */
  function Recorded(data: seq<byte>): seq<nat>
    requires |data| >= SIZE
  {
    UpToZero(Slots(data), 0)
  }

  ghost predicate Converted(fileTimes: seq<nat>, runTimes: seq<Option<int>>) {
    && |runTimes| == |fileTimes|
    && forall i :: 0 <= i < |fileTimes| ==> fileTimes[i] < TWO_64 && runTimes[i] == FileTime.FromFileTime(fileTimes[i])
  }

  /** Where a version keeps its run count and its last run time. */
  predicate Counters(data: seq<byte>, e: Entry)
    requires |data| >= SIZE
  {
    match e.version
    case 17 => e.runCount == Le32(data, 0x90) && e.lastRunTime == FileTime.FromFileTime(Le64(data, 0x78)) && e.runTimes == []
    case 23 => e.runCount == Le32(data, 0x98) && e.lastRunTime == FileTime.FromFileTime(Le64(data, 0x80)) && e.runTimes == []
    case 26 => e.runCount == Le32(data, 0x98) && e.lastRunTime == FileTime.FromFileTime(Le64(data, 0x80)) && e.runTimes == []
    case _ => e.version == 30 && e.runCount == Le32(data, 0xD0) &&
              e.lastRunTime == if e.runTimes == [] then None else e.runTimes[0]
  }

  /** The offsets of run count and last run time by version; version 30 shows its latest run. */
  lemma CountersMean(data: seq<byte>, e: Entry)
    requires |data| >= 212 && Counters(data, e)
    ensures e.version in {17, 23, 26, 30}
    ensures e.runCount == Le32(data, if e.version == 17 then 144 else if e.version == 30 then 208 else 152)
    ensures e.version == 17 ==> e.lastRunTime == FileTime.FromFileTime(Le64(data, 120))
    ensures e.version in {23, 26} ==> e.lastRunTime == FileTime.FromFileTime(Le64(data, 128))
    ensures e.version == 30 && e.runTimes != [] ==> e.lastRunTime == e.runTimes[0]
    ensures e.version == 30 && e.runTimes == [] ==> e.lastRunTime == None
    ensures e.version != 30 ==> e.runTimes == []
  {
  }

  method ReadRunTimes(data: seq<byte>) returns (runTimes: seq<Option<int>>)
    requires |data| >= SIZE
    ensures Converted(Recorded(data), runTimes)
  {
    runTimes := [];
    var i := 0;
    while i < 8
      invariant i == |runTimes| <= SLOTS && 0 !in Slots(data)[..i]
      invariant Converted(Slots(data)[..i], runTimes)
    {
      var off := 0x80 + i * 8;
      if off + 8 > |data| { break; }
      var ft := Le64(data, off);
      assert ft == Slots(data)[i];
      if ft == 0 { break; }
      runTimes := runTimes + [FileTime.FromFileTime(ft)];
      i := i + 1;
    }
    FirstZero(Slots(data), i, 0);
  }

  method ParsePrefetch(raw: seq<byte>, decompress: (seq<byte>, nat) -> Option<seq<byte>>, nameFromPath: seq<byte>)
    returns (r: Parsed)
    ensures r.NotDecompressed? <==> Unpacked(raw, decompress).None?
    ensures r.TooSmall? <==> Unpacked(raw, decompress).Some? && |Unpacked(raw, decompress).value| < 212
    ensures r.BadSignature? || r.Unsupported? || r.Prefetch? ==>
              var data := Unpacked(raw, decompress).value;
              && (r.BadSignature? <==> data[4..8] != ['S' as byte, 'C' as byte, 'C' as byte, 'A' as byte])
              && (r.Unsupported? ==> r.version == Le32(data, 0) && r.version !in {17, 23, 26, 30})
              && (r.Prefetch? ==>
                    && r.entry.version == Le32(data, 0) && r.entry.hash == Le32(data, 0x4C) && Counters(data, r.entry)
                    && (r.entry.version == 30 ==> Converted(Recorded(data), r.entry.runTimes))
                    && var name := Utf8All(UpToZero(Units(data[16..76]), 0));
                       r.entry.exeName == if name == [] then nameFromPath else name)
  {
    var unpacked := Unpacked(raw, decompress);
    if unpacked.None? { return NotDecompressed; }
    var data := unpacked.value;
    if |data| < SIZE { return TooSmall; }
    if data[4..8] != SIGNATURE { return BadSignature; }
    var version := Le32(data, 0);
    var exeName := DecodeUtf16(data[NAME..NAME_END]);
    if exeName == [] { exeName := nameFromPath; }
    var entry := Entry(exeName, Le32(data, 0x4C), version, 0, None, []);
    if version == 17 {
      entry := entry.(runCount := Le32(data, 0x90), lastRunTime := FileTime.FromFileTime(Le64(data, 0x78)));
    } else if version == 23 || version == 26 {
      entry := entry.(runCount := Le32(data, 0x98), lastRunTime := FileTime.FromFileTime(Le64(data, 0x80)));
    } else if version == 30 {
      var runTimes := ReadRunTimes(data);
      entry := entry.(runCount := Le32(data, 0xD0), runTimes := runTimes);
      if |runTimes| > 0 { entry := entry.(lastRunTime := runTimes[0]); }
    } else {
      return Unsupported(version);
    }
    r := Prefetch(entry);
  }

  /** Every slot before the first empty one is recorded, in order; what follows an empty slot is not. */
  lemma RecordedMeans(data: seq<byte>, i: nat)
    requires |data| >= SIZE
    ensures |Recorded(data)| <= 8
    ensures i < |Recorded(data)| <==> i < 8 && forall j: nat :: j <= i && j < 8 ==> Slot(data, j) != 0
    ensures i < |Recorded(data)| ==> Recorded(data)[i] == Le64(data, 128 + 8 * i)
  {
    var slots, r := Slots(data), Recorded(data);
    UpToZeroMeans(slots, 0);
    assert forall j :: 0 <= j < |r| ==> r[j] == slots[j] && r[j] in r;
    if i < |r| {
      forall j: nat | j <= i && j < SLOTS ensures Slot(data, j) != 0 { assert slots[j] == r[j] != 0; }
    } else if i < SLOTS {
      assert slots[|r|] == Slot(data, |r|) == 0;
    }
  }

  function Zeros(n: nat): (r: seq<byte>)
    ensures |r| == n && forall i :: 0 <= i < n ==> r[i] == 0
  {
    seq(n, _ => 0)
  }

  lemma PaddedUnit(name: seq<byte>, pad: seq<byte>, i: nat)
    requires |name| % 2 == 0 && |pad| % 2 == 0 && i < (|name| + |pad|) / 2
    ensures Units(name + pad)[i] == if 2 * i < |name| then Units(name)[i] else Units(pad)[i - |name| / 2]
  {
  }

  /** A name padded with zeros to its field is read back exactly. */
  lemma NameRoundTrip(name: seq<unit>, field: seq<byte>)
    requires |name| <= 30 && 0 !in name
    requires field == PutUnits(name) + Zeros(60 - 2 * |name|)
    ensures UpToZero(Units(field), 0) == name
  {
    hide Units, UpToZero, PutUnits;
    UnitsRoundTrip(name);
    var n, pad := |name|, Zeros(NAME_END - NAME - 2 * |name|);
    forall i: nat | i < n ensures Units(field)[i] == name[i] { PaddedUnit(PutUnits(name), pad, i); }
    assert Units(field)[..n] == name;
    if n < |Units(field)| {
      PaddedUnit(PutUnits(name), pad, n);
      assert Units(pad)[0] == 0;
    }
    FirstZero(Units(field), n, 0);
  }
}
