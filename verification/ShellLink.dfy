/**
 The Windows shell-link parser: a cursor moved over arbitrary bytes by sizes the file itself states.
 Every index below is proved to be in bounds for every file.  A link laid out as sections 2.1, 2.2 and
 2.4 of MS-SHLLINK prescribe is read back exactly, whatever its ID list and LinkInfo blocks hold.
 */
module ShellLink {
  import opened Options
  import opened Bytes
  import opened WideText
  import FileTime

  const HEADER := 0x4C

  // Numbers of the link-flag bits.
  const HAS_ID_LIST: nat := 0
  const HAS_LINK_INFO: nat := 1
  const HAS_NAME: nat := 2
  const HAS_RELATIVE_PATH: nat := 3
  const HAS_WORKING_DIR: nat := 4
  const HAS_ARGUMENTS: nat := 5
  const IS_UNICODE: nat := 7

  /** Whether the numbered bit is set; bit 0 is the lowest. */
  predicate Bit(flags: nat, number: nat)
    decreases number, flags
  {
    if number == 0 then flags % 2 == 1 else Bit(flags / 2, number - 1)
  }

  const DRIVE_TYPES: seq<string> := ["Unknown", "NoRootDir", "Removable", "Fixed", "Remote", "CDROM", "RAMDisk"]

  /** Instants are nanoseconds since 1970; texts are UTF-8 or the raw bytes of an ANSI string. */
  datatype LinkEntry = LinkEntry(
    targetPath: seq<byte>, targetSize: nat, created: Option<int>, modified: Option<int>, accessed: Option<int>,
    workingDir: seq<byte>, arguments: seq<byte>, driveType: string, volumeLabel: seq<byte>)

  datatype Parsed = TooSmall | BadHeader | Link(entry: LinkEntry)

  // ----- Where the cursor goes -----

  function Flags(data: seq<byte>): nat
    requires |data| >= HEADER
  {
    Le32(data, 0x14)
  }

  /** The cursor after the ID list; None when the file ends inside its size field. */
  function PastIdList(data: seq<byte>): (r: Option<nat>)
    requires |data| >= HEADER
    ensures r.Some? ==> HEADER <= r.value < HEADER + 2 + TWO_16
  {
    if !Bit(Flags(data), HAS_ID_LIST) then Some(HEADER)
    else if HEADER + 2 > |data| then None
    else Some(HEADER + 2 + Le16(data, HEADER))
  }

  function PastLinkInfo(data: seq<byte>): (r: Option<nat>)
    requires |data| >= HEADER
    ensures r.Some? ==> HEADER <= r.value < HEADER + 2 + TWO_16 + TWO_32
  {
    var start := PastIdList(data);
    if start.None? then None
    else if !Bit(Flags(data), HAS_LINK_INFO) then start
    else if start.value + 4 > |data| then None
    else Some(start.value + Le32(data, start.value))
  }

  /** The LinkInfo block, when it is there in full and long enough to be read. */
  function LinkInfo(data: seq<byte>): (r: Option<seq<byte>>)
    requires |data| >= HEADER
    ensures r.Some? ==> |r.value| >= 28
  {
    var start := PastIdList(data);
    if start.None? || !Bit(Flags(data), HAS_LINK_INFO) || start.value + 4 > |data| then None
    else
      var size := Le32(data, start.value);
      if size >= 28 && start.value + size <= |data| then Some(data[start.value..start.value + size]) else None
  }

  /** The block is read if the file holds all of it and it has 28 bytes or more. */
  lemma LinkInfoMeans(data: seq<byte>, start: nat)
    requires |data| >= 76 && PastIdList(data) == Some(start) && Bit(Le32(data, 20), 1) && start + 4 <= |data|
    ensures var size := Le32(data, start);
      && PastLinkInfo(data) == Some(start + size)
      && LinkInfo(data) == if 28 <= size <= |data| - start then Some(data[start..start + size]) else None
  {
  }

  /** Bytes as text: UTF-16 up to the first zero, or as they are. */
  function TextOf(b: seq<byte>, unicode: bool): seq<byte> {
    if unicode then Utf8All(UpToZero(Units(b), 0)) else b
  }

  function SizeOf(count: nat, unicode: bool): nat {
    if unicode then count * 2 else count
  }

  /** A text and the cursor behind it. */
  datatype Item = Item(text: seq<byte>, next: nat)

  /** A counted string; a truncated one is empty and still skipped. */
  function Counted(data: seq<byte>, pos: nat, unicode: bool): (r: Item)
    ensures pos <= r.next <= pos + 2 + 2 * TWO_16
  {
    if pos + 2 > |data| then Item([], pos)
    else
      var start := pos + 2;
      var end := start + SizeOf(Le16(data, pos), unicode);
      if end > |data| then Item([], end) else Item(TextOf(data[start..end], unicode), end)
  }

  lemma CountRead(front: seq<byte>, count: nat, rest: seq<byte>)
    requires count < TWO_16
    ensures Le16(front + Put16(count) + rest, |front|) == count
  {
    var data := front + Put16(count) + rest;
    assert data[|front|] == Put16(count)[0] && data[|front| + 1] == Put16(count)[1];
  }

  /** A count of characters, two bytes each in Unicode, and that many; what the file cuts off is not reported. */
  lemma CountedMeans(front: seq<byte>, count: nat, rest: seq<byte>, unicode: bool)
    requires count < TWO_16
    ensures var size := if unicode then 2 * count else count;
      var item := Counted(front + Put16(count) + rest, |front|, unicode);
      && item.next == |front| + 2 + size
      && (size <= |rest| && !unicode ==> item.text == rest[..size])
      && (size <= |rest| && unicode ==> item.text == Utf8All(UpToZero(Units(rest[..size]), 0)))
      && (size > |rest| ==> item.text == [])
    ensures Counted(front, |front|, unicode) == Item([], |front|)
  {
    hide Le16, Put16, UpToZero, Units, Utf8All;
    var data := front + Put16(count) + rest;
    CountRead(front, count, rest);
    var size := if unicode then 2 * count else count;
    if size <= |rest| { assert data[|front| + 2..|front| + 2 + size] == rest[..size]; }
  }

  /** An optional string: absent ones do not move the cursor. */
  function Optional(data: seq<byte>, pos: nat, bit: nat): (r: Item)
    requires |data| >= HEADER
    ensures pos <= r.next <= pos + 2 + 2 * TWO_16
  {
    if Bit(Flags(data), bit) then Counted(data, pos, Bit(Flags(data), IS_UNICODE)) else Item([], pos)
  }

  datatype Strings = Strings(workingDir: seq<byte>, arguments: seq<byte>, end: nat)

  /** Name and relative path are skipped, working directory and arguments kept. */
  function StringsOf(data: seq<byte>): Option<Strings>
    requires |data| >= HEADER
  {
    var start := PastLinkInfo(data);
    if start.None? then None
    else
      var name := Optional(data, start.value, HAS_NAME);
      var path := Optional(data, name.next, HAS_RELATIVE_PATH);
      var dir := Optional(data, path.next, HAS_WORKING_DIR);
      var arguments := Optional(data, dir.next, HAS_ARGUMENTS);
      Some(Strings(dir.text, arguments.text, arguments.next))
  }

  /** No file drives the cursor near the end of a 64-bit int, so the additions never wrap. */
  lemma CursorFits(data: seq<byte>)
    requires |data| >= HEADER
    ensures StringsOf(data).Some? ==> StringsOf(data).value.end < 2 * TWO_32
  {
  }

  // ----- Fields of the LinkInfo block, at the offsets the parser reads them -----

  predicate HasLocalPath(li: seq<byte>)
    requires |li| >= 28
  {
    Bit(Le32(li, 4), 0)
  }

  function TextAt(b: seq<byte>, offset: nat): seq<byte> {
    if offset < |b| then UpToZero(b[offset..], 0) else []
  }

  function VolumeId(li: seq<byte>): (r: Option<seq<byte>>)
    requires |li| >= 28
    ensures r.Some? ==> |r.value| >= 16
  {
    if HasLocalPath(li) && Le32(li, 8) + 16 <= |li| then Some(li[Le32(li, 8)..]) else None
  }

  /** What a LinkInfo block contributes to the entry. */
  predicate Contributes(li: seq<byte>, driveType: string, volume: seq<byte>, path: seq<byte>)
    requires |li| >= 28
  {
    && path == (if HasLocalPath(li) then TextAt(li, Le32(li, 12)) else [])
    && match VolumeId(li)
       case None => driveType == "" && volume == []
       case Some(vol) =>
         && driveType == (if Le32(vol, 4) < |DRIVE_TYPES| then DRIVE_TYPES[Le32(vol, 4)] else "")
         && volume == TextAt(vol, Le32(vol, 12))
  }

  lemma LowBit(li: seq<byte>)
    requires |li| >= 28
    ensures HasLocalPath(li) <==> li[4] % 2 == 1
  {
    LittleEndian(li, 4);
  }

  lemma Le32Behind(b: seq<byte>, from: nat, at: nat)
    requires from <= |b| && at + 4 <= |b[from..]|
    ensures Le32(b[from..], at) == Le32(b, from + at)
  {
  }

  /** The name of the drive type that the volume block states, by its number. */
  lemma DriveTypeMeans(li: seq<byte>, driveType: string, volume: seq<byte>, path: seq<byte>)
    requires |li| >= 28 && Contributes(li, driveType, volume, path)
    requires li[4] % 2 == 1 && Le32(li, 8) + 16 <= |li|
    ensures var number := Le32(li, Le32(li, 8) + 4);
      && (number == 0 ==> driveType == "Unknown") && (number == 1 ==> driveType == "NoRootDir")
      && (number == 2 ==> driveType == "Removable") && (number == 3 ==> driveType == "Fixed")
      && (number == 4 ==> driveType == "Remote") && (number == 5 ==> driveType == "CDROM")
      && (number == 6 ==> driveType == "RAMDisk") && (number > 6 ==> driveType == "")
  {
    var vol := li[Le32(li, 8)..];
    assert VolumeId(li) == Some(vol);
    assert Le32(vol, 4) == Le32(li, Le32(li, 8) + 4);
  }

  /**
   Path and label are the bytes from their stated offsets up to the first zero, the label counted from the volume
   block; without the low bit of byte 4 nothing is reported.
   */
  lemma ContributesMeans(li: seq<byte>, driveType: string, volume: seq<byte>, path: seq<byte>)
    requires |li| >= 28 && Contributes(li, driveType, volume, path)
    ensures li[4] % 2 == 0 ==> driveType == "" && volume == [] && path == []
    ensures li[4] % 2 == 1 && Le32(li, 12) < |li| ==> path == UpToZero(li[Le32(li, 12)..], 0)
    ensures li[4] % 2 == 1 && Le32(li, 8) + 16 <= |li| && Le32(li, 8) + Le32(li, Le32(li, 8) + 12) < |li| ==>
              volume == UpToZero(li[Le32(li, 8) + Le32(li, Le32(li, 8) + 12)..], 0)
    ensures Le32(li, 8) + 16 > |li| ==> driveType == "" && volume == []
  {
    hide Le16, UpToZero;
    LowBit(li);
    if HasLocalPath(li) && Le32(li, 8) + 16 <= |li| {
      var vol := li[Le32(li, 8)..];
      Le32Behind(li, Le32(li, 8), 12);
      if Le32(vol, 12) < |vol| { assert vol[Le32(vol, 12)..] == li[Le32(li, 8) + Le32(vol, 12)..]; }
    }
  }

  method NullTerminated(b: seq<byte>) returns (r: seq<byte>)
    ensures r == UpToZero(b, 0)
  {
    var end := 0;
    while end < |b| && b[end] != 0
      invariant end <= |b| && 0 !in b[..end]
    {
      end := end + 1;
    }
    FirstZero(b, end, 0);
    r := b[..end];
  }

  method ReadLinkInfo(li: seq<byte>) returns (driveType: string, volume: seq<byte>, path: seq<byte>)
    requires |li| >= 28
    ensures Contributes(li, driveType, volume, path)
  {
    driveType, volume, path := "", [], [];
    if Bit(Le32(li, 4), 0) {
      var volOffset := Le32(li, 8);
      if volOffset + 16 <= |li| {
        var vol := li[volOffset..];
        var driveTypeIdx := Le32(vol, 4);
        if driveTypeIdx < |DRIVE_TYPES| { driveType := DRIVE_TYPES[driveTypeIdx]; }
        var labelOffset := Le32(vol, 12);
        if labelOffset < |vol| { volume := NullTerminated(vol[labelOffset..]); }
      }
      var pathOffset := Le32(li, 12);
      if pathOffset < |li| { path := NullTerminated(li[pathOffset..]); }
    }
  }

  // ----- The parser -----

  method ReadCountedString(data: seq<byte>, pos: nat, unicode: bool) returns (text: seq<byte>, next: nat)
    ensures Item(text, next) == Counted(data, pos, unicode)
  {
    text, next := [], pos;
    if next + 2 > |data| { return; }
    var count := Le16(data, next);
    next := next + 2;
    if unicode {
      var byteLen := count * 2;
      if next + byteLen > |data| {
        next := next + byteLen;
        return;
      }
      text := DecodeUtf16(data[next..next + byteLen]);
      next := next + byteLen;
      return;
    }
    if next + count > |data| {
      next := next + count;
      return;
    }
    text := data[next..next + count];
    next := next + count;
  }

  /** The header fields of an entry. */
  predicate HeaderOk(data: seq<byte>, e: LinkEntry)
    requires |data| >= HEADER
  {
    && e.targetSize == Le32(data, 0x34)
    && e.created == FileTime.FromFileTime(Le64(data, 0x1C))
    && e.accessed == FileTime.FromFileTime(Le64(data, 0x24))
    && e.modified == FileTime.FromFileTime(Le64(data, 0x2C))
  }

  predicate StringsOk(data: seq<byte>, e: LinkEntry)
    requires |data| >= HEADER
  {
    match StringsOf(data)
    case None => e.workingDir == [] && e.arguments == []
    case Some(s) => e.workingDir == s.workingDir && e.arguments == s.arguments
  }

  predicate InfoIs(data: seq<byte>, driveType: string, volume: seq<byte>, path: seq<byte>)
    requires |data| >= HEADER
  {
    match LinkInfo(data)
    case None => driveType == "" && volume == [] && path == []
    case Some(li) => Contributes(li, driveType, volume, path)
  }

  method SkipIdList(data: seq<byte>) returns (more: bool, pos: nat)
    requires |data| >= HEADER
    ensures PastIdList(data) == if more then Some(pos) else None
  {
    more, pos := true, HEADER;
    if Bit(Le32(data, 0x14), HAS_ID_LIST) {
      if pos + 2 > |data| { return false, pos; }
      pos := pos + 2 + Le16(data, pos);
    }
  }

  /** `more` is false when the file ends inside the size field. */
  method SkipLinkInfo(data: seq<byte>, start: nat)
    returns (more: bool, pos: nat, driveType: string, volume: seq<byte>, path: seq<byte>)
    requires |data| >= HEADER && PastIdList(data) == Some(start)
    ensures PastLinkInfo(data) == if more then Some(pos) else None
    ensures InfoIs(data, driveType, volume, path)
  {
    hide Le16, Le32;
    more, pos, driveType, volume, path := true, start, "", [], [];
    if Bit(Le32(data, 0x14), HAS_LINK_INFO) {
      if pos + 4 > |data| {
        more := false;
        return;
      }
      var size := Le32(data, pos);
      if size >= 28 && pos + size <= |data| {
        var li := data[pos..pos + size];
        assert LinkInfo(data) == Some(li);
        driveType, volume, path := ReadLinkInfo(li);
      }
      pos := pos + size;
    }
  }

  method ReadStrings(data: seq<byte>, start: nat) returns (dir: seq<byte>, arguments: seq<byte>)
    requires |data| >= HEADER && PastLinkInfo(data) == Some(start)
    ensures dir == StringsOf(data).value.workingDir && arguments == StringsOf(data).value.arguments
  {
    var linkFlags := Le32(data, 0x14);
    var isUnicode := Bit(linkFlags, IS_UNICODE);
    var skipped, pos := [], start;
    dir, arguments := [], [];
    if Bit(linkFlags, HAS_NAME) { skipped, pos := ReadCountedString(data, pos, isUnicode); }
    if Bit(linkFlags, HAS_RELATIVE_PATH) { skipped, pos := ReadCountedString(data, pos, isUnicode); }
    if Bit(linkFlags, HAS_WORKING_DIR) { dir, pos := ReadCountedString(data, pos, isUnicode); }
    if Bit(linkFlags, HAS_ARGUMENTS) { arguments, pos := ReadCountedString(data, pos, isUnicode); }
  }

  method ParseLink(data: seq<byte>) returns (r: Parsed)
    ensures r.TooSmall? <==> |data| < HEADER
    ensures r.BadHeader? <==> |data| >= HEADER && Le32(data, 0) != HEADER
    ensures r.Link? ==> HeaderOk(data, r.entry) && StringsOk(data, r.entry)
    ensures r.Link? ==> InfoIs(data, r.entry.driveType, r.entry.volumeLabel, r.entry.targetPath)
  {
    if |data| < HEADER { return TooSmall; }
    if Le32(data, 0) != HEADER { return BadHeader; }
    var entry := LinkEntry(
      [], Le32(data, 0x34), FileTime.FromFileTime(Le64(data, 0x1C)), FileTime.FromFileTime(Le64(data, 0x2C)),
      FileTime.FromFileTime(Le64(data, 0x24)), [], [], "", []);
    var more, pos := SkipIdList(data);
    if !more { return Link(entry); }
    var driveType, volume, path;
    more, pos, driveType, volume, path := SkipLinkInfo(data, pos);
    entry := entry.(driveType := driveType, volumeLabel := volume, targetPath := path);
    if !more { return Link(entry); }
    var dir, arguments := ReadStrings(data, pos);
    r := Link(entry.(workingDir := dir, arguments := arguments));
  }

  // ----- Links laid out as the format prescribes -----

  /** A StringData item: UTF-16 or bytes, by the IsUnicode flag. */
  datatype Text = Wide(units: seq<unit>) | Narrow(chars: seq<byte>) {
    function Count(): nat { if Wide? then |units| else |chars| }

    function Payload(): seq<byte> { if Wide? then PutUnits(units) else chars }

    /** The bytes the parser should report. */
    function Reported(): seq<byte> { if Wide? then Utf8All(UpToZero(units, 0)) else chars }
  }

  datatype Layout = Layout(
    classId: seq<byte>, attributes: nat, created: nat, accessed: nat, written: nat, size: nat, trailer: seq<byte>,
    unicode: bool, hasIcon: bool, higherFlags: nat,
    idList: Option<seq<byte>>, linkInfo: Option<seq<byte>>,
    name: Option<Text>, relativePath: Option<Text>, workingDir: Option<Text>, arguments: Option<Text>,
    rest: seq<byte>)

  predicate TextOk(t: Option<Text>, unicode: bool) {
    t.Some? ==> t.value.Wide? == unicode && t.value.Count() < TWO_16
  }

  predicate LayoutOk(k: Layout) {
    && |k.classId| == 16 && |k.trailer| == 20
    && k.attributes < TWO_32 && k.size < TWO_32 && k.higherFlags < 0x100_0000
    && k.created < TWO_64 && k.accessed < TWO_64 && k.written < TWO_64
    && (k.idList.Some? ==> |k.idList.value| < TWO_16)
    && (k.linkInfo.Some? ==> |k.linkInfo.value| + 4 < TWO_32)
    && TextOk(k.name, k.unicode) && TextOk(k.relativePath, k.unicode)
    && TextOk(k.workingDir, k.unicode) && TextOk(k.arguments, k.unicode)
  }

  /** Bits from the lowest up, then the bits above them. */
  function Pack(bits: seq<bool>, higher: nat): nat {
    if bits == [] then higher else (if bits[0] then 1 else 0) + 2 * Pack(bits[1..], higher)
  }

  function Present(k: Layout): seq<bool> {
    [k.idList.Some?, k.linkInfo.Some?, k.name.Some?, k.relativePath.Some?,
     k.workingDir.Some?, k.arguments.Some?, k.hasIcon, k.unicode]
  }

  function FlagsOf(k: Layout): (r: nat)
    requires LayoutOk(k)
    ensures r < TWO_32
  {
    PackBound(Present(k), k.higherFlags, 0x100_0000);
    assert Doubled(0x100_0000, 8) == TWO_32;
    Pack(Present(k), k.higherFlags)
  }

  function Doubled(n: nat, times: nat): nat {
    if times == 0 then n else 2 * Doubled(n, times - 1)
  }

  lemma {:induction false} PackBound(bits: seq<bool>, higher: nat, bound: nat)
    requires higher < bound
    ensures Pack(bits, higher) < Doubled(bound, |bits|)
  {
    if bits != [] { PackBound(bits[1..], higher, bound); }
  }

  function Header(k: Layout): (r: seq<byte>)
    requires LayoutOk(k)
    ensures |r| == HEADER
  {
    Put32(HEADER) + k.classId + Put32(FlagsOf(k)) + Put32(k.attributes) + Put64(k.created) + Put64(k.accessed) +
    Put64(k.written) + Put32(k.size) + k.trailer
  }

  function IdListBytes(k: Layout): seq<byte>
    requires LayoutOk(k)
  {
    if k.idList.Some? then Put16(|k.idList.value|) + k.idList.value else []
  }

  /** The size field counts itself. */
  function LinkInfoBytes(k: Layout): seq<byte>
    requires LayoutOk(k)
  {
    if k.linkInfo.Some? then Put32(|k.linkInfo.value| + 4) + k.linkInfo.value else []
  }

  function TextBytes(t: Option<Text>, unicode: bool): seq<byte>
    requires TextOk(t, unicode)
  {
    if t.Some? then Put16(t.value.Count()) + t.value.Payload() else []
  }

  function Encode(k: Layout): seq<byte>
    requires LayoutOk(k)
  {
    Header(k) + IdListBytes(k) + LinkInfoBytes(k) + TextBytes(k.name, k.unicode) +
    TextBytes(k.relativePath, k.unicode) + TextBytes(k.workingDir, k.unicode) +
    TextBytes(k.arguments, k.unicode) + k.rest
  }

  function Expected(t: Option<Text>): seq<byte> {
    if t.Some? then t.value.Reported() else []
  }

  // ----- Reading back -----

  lemma {:induction false} PackBit(bits: seq<bool>, higher: nat, i: nat)
    requires i < |bits|
    ensures Bit(Pack(bits, higher), i) == bits[i]
  {
    if i > 0 { PackBit(bits[1..], higher, i - 1); }
  }

  lemma FlagBit(k: Layout, i: nat)
    requires LayoutOk(k) && i < |Present(k)|
    ensures Bit(FlagsOf(k), i) == Present(k)[i]
  {
    PackBit(Present(k), k.higherFlags, i);
  }

  lemma ReadHeader(k: Layout, data: seq<byte>)
    requires LayoutOk(k) && Header(k) <= data
    ensures Le32(data, 0) == HEADER && Flags(data) == FlagsOf(k) && Le32(data, 0x34) == k.size
    ensures Le64(data, 0x1C) == k.created && Le64(data, 0x24) == k.accessed && Le64(data, 0x2C) == k.written
  {
    hide Le16, Le32, Le64, Put32, Put64, FlagsOf;
    var h0 := Put32(HEADER) + k.classId;
    var h1 := h0 + Put32(FlagsOf(k)) + Put32(k.attributes);
    var h2 := h1 + Put64(k.created);
    var h3 := h2 + Put64(k.accessed);
    var h4 := h3 + Put64(k.written);
    Le32Field([], Put32(HEADER), data);
    Le32Field(h0, Put32(FlagsOf(k)), data);
    Le64Field(h1, Put64(k.created), data);
    Le64Field(h2, Put64(k.accessed), data);
    Le64Field(h3, Put64(k.written), data);
    Le32Field(h4, Put32(k.size), data);
  }

  lemma Le32Field(before: seq<byte>, field: seq<byte>, data: seq<byte>)
    requires |field| == 4 && before + field <= data
    ensures Le32(data, |before|) == Le32(field, 0)
  {
    assert field == data[|before|..|before| + 4];
  }

  lemma Le64Field(before: seq<byte>, field: seq<byte>, data: seq<byte>)
    requires |field| == 8 && before + field <= data
    ensures Le64(data, |before|) == Le64(field, 0)
  {
    assert field == data[|before|..|before| + 8];
  }

  /** The item lies in the file at the position. */
  predicate Holds(data: seq<byte>, pos: nat, item: seq<byte>) {
    pos + |item| <= |data| && forall i :: 0 <= i < |item| ==> data[pos + i] == item[i]
  }

  lemma HoldsLe16(data: seq<byte>, pos: nat, size: seq<byte>, payload: seq<byte>)
    requires |size| == 2 && Holds(data, pos, size + payload)
    ensures Le16(data, pos) == Le16(size, 0)
    ensures Holds(data, pos + 2, payload)
  {
    var item := size + payload;
    assert data[pos] == item[0] && data[pos + 1] == item[1];
    forall i | 0 <= i < |payload| ensures data[pos + 2 + i] == payload[i] { assert item[2 + i] == payload[i]; }
  }

  lemma TextRoundTrip(t: Text)
    ensures TextOf(t.Payload(), t.Wide?) == t.Reported()
    ensures |t.Payload()| == SizeOf(t.Count(), t.Wide?)
  {
    if t.Wide? { UnitsRoundTrip(t.units); }
  }

  lemma CountedAt(data: seq<byte>, pos: nat, count: nat, payload: seq<byte>, unicode: bool)
    requires pos + 2 <= |data| && Le16(data, pos) == count
    requires |payload| == SizeOf(count, unicode) && Holds(data, pos + 2, payload)
    ensures Counted(data, pos, unicode) == Item(TextOf(payload, unicode), pos + 2 + |payload|)
  {
    assert data[pos + 2..pos + 2 + |payload|] == payload;
  }

  /** A counted string anywhere in a file is read back, and the cursor lands behind it. */
  lemma CountedRoundTrip(data: seq<byte>, pos: nat, t: Text)
    requires t.Count() < TWO_16 && Holds(data, pos, Put16(t.Count()) + t.Payload())
    ensures Counted(data, pos, t.Wide?) == Item(t.Reported(), pos + 2 + |t.Payload()|)
  {
    HoldsLe16(data, pos, Put16(t.Count()), t.Payload());
    TextRoundTrip(t);
    CountedAt(data, pos, t.Count(), t.Payload(), t.Wide?);
  }

  /** The same for an optional item; an absent one leaves the cursor where it is. */
  lemma OptionalRoundTrip(data: seq<byte>, pos: nat, t: Option<Text>, bit: nat, unicode: bool)
    requires |data| >= HEADER && TextOk(t, unicode)
    requires Bit(Flags(data), bit) == t.Some? && Bit(Flags(data), IS_UNICODE) == unicode
    requires Holds(data, pos, TextBytes(t, unicode))
    ensures Optional(data, pos, bit) == Item(Expected(t), pos + |TextBytes(t, unicode)|)
  {
    if t.Some? { CountedRoundTrip(data, pos, t.value); }
  }

  lemma IdListSkipped(k: Layout, data: seq<byte>)
    requires LayoutOk(k) && |data| >= HEADER && Flags(data) == FlagsOf(k)
    requires Holds(data, HEADER, IdListBytes(k))
    ensures PastIdList(data) == Some(HEADER + |IdListBytes(k)|)
  {
    FlagBit(k, HAS_ID_LIST);
    if k.idList.Some? { HoldsLe16(data, HEADER, Put16(|k.idList.value|), k.idList.value); }
  }

  /** The blocks before the strings are stepped over whatever they contain. */
  lemma BlocksSkipped(k: Layout, data: seq<byte>)
    requires LayoutOk(k) && |data| >= HEADER && Flags(data) == FlagsOf(k)
    requires Holds(data, HEADER, IdListBytes(k)) && Holds(data, HEADER + |IdListBytes(k)|, LinkInfoBytes(k))
    ensures PastLinkInfo(data) == Some(HEADER + |IdListBytes(k)| + |LinkInfoBytes(k)|)
  {
    FlagBit(k, HAS_LINK_INFO);
    IdListSkipped(k, data);
    if k.linkInfo.Some? { HoldsLe32(data, HEADER + |IdListBytes(k)|, Put32(|k.linkInfo.value| + 4), k.linkInfo.value); }
  }

  lemma HoldsLe32(data: seq<byte>, pos: nat, size: seq<byte>, payload: seq<byte>)
    requires |size| == 4 && Holds(data, pos, size + payload)
    ensures Le32(data, pos) == Le32(size, 0)
  {
    var item := size + payload;
    assert forall i :: 0 <= i < 4 ==> item[i] == size[i];
    assert size == data[pos..pos + 4];
    assert data[..pos] + size == data[..pos + 4];
    Le32Field(data[..pos], size, data);
  }

  lemma SkippedStrings(k: Layout, data: seq<byte>, at: nat, n: nat, p: nat)
    requires LayoutOk(k) && |data| >= HEADER && Flags(data) == FlagsOf(k)
    requires n == |TextBytes(k.name, k.unicode)| && p == |TextBytes(k.relativePath, k.unicode)|
    requires Holds(data, at, TextBytes(k.name, k.unicode)) && Holds(data, at + n, TextBytes(k.relativePath, k.unicode))
    ensures Optional(data, at, HAS_NAME) == Item(Expected(k.name), at + n)
    ensures Optional(data, at + n, HAS_RELATIVE_PATH) == Item(Expected(k.relativePath), at + n + p)
  {
    hide Holds, Counted, Optional, TextBytes, FlagsOf, Expected;
    FlagBit(k, HAS_NAME);
    FlagBit(k, HAS_RELATIVE_PATH);
    FlagBit(k, IS_UNICODE);
    OptionalRoundTrip(data, at, k.name, HAS_NAME, k.unicode);
    OptionalRoundTrip(data, at + n, k.relativePath, HAS_RELATIVE_PATH, k.unicode);
  }

  lemma KeptStrings(k: Layout, data: seq<byte>, at: nat, d: nat, a: nat)
    requires LayoutOk(k) && |data| >= HEADER && Flags(data) == FlagsOf(k)
    requires d == |TextBytes(k.workingDir, k.unicode)| && a == |TextBytes(k.arguments, k.unicode)|
    requires Holds(data, at, TextBytes(k.workingDir, k.unicode)) && Holds(data, at + d, TextBytes(k.arguments, k.unicode))
    ensures Optional(data, at, HAS_WORKING_DIR) == Item(Expected(k.workingDir), at + d)
    ensures Optional(data, at + d, HAS_ARGUMENTS) == Item(Expected(k.arguments), at + d + a)
  {
    hide Holds, Counted, Optional, TextBytes, FlagsOf, Expected;
    FlagBit(k, HAS_WORKING_DIR);
    FlagBit(k, HAS_ARGUMENTS);
    FlagBit(k, IS_UNICODE);
    OptionalRoundTrip(data, at, k.workingDir, HAS_WORKING_DIR, k.unicode);
    OptionalRoundTrip(data, at + d, k.arguments, HAS_ARGUMENTS, k.unicode);
  }

  /** Every part lies where the parts before it end. */
  predicate Parts(
    data: seq<byte>, h: seq<byte>, i: seq<byte>, l: seq<byte>, n: seq<byte>, p: seq<byte>, d: seq<byte>, a: seq<byte>,
    rest: seq<byte>)
  {
    var at := |h| + |i| + |l|;
    && |data| == at + |n| + |p| + |d| + |a| + |rest|
    && h <= data && Holds(data, |h|, i) && Holds(data, |h| + |i|, l)
    && Holds(data, at, n) && Holds(data, at + |n|, p)
    && Holds(data, at + |n| + |p|, d) && Holds(data, at + |n| + |p| + |d|, a)
  }

  lemma PartsOfConcat(
    h: seq<byte>, i: seq<byte>, l: seq<byte>, n: seq<byte>, p: seq<byte>, d: seq<byte>, a: seq<byte>, rest: seq<byte>)
    ensures Parts(h + i + l + n + p + d + a + rest, h, i, l, n, p, d, a, rest)
    ensures h <= h + i + l + n + p + d + a + rest
  {
  }

  predicate LaidOut(k: Layout, data: seq<byte>)
    requires LayoutOk(k)
  {
    Parts(data, Header(k), IdListBytes(k), LinkInfoBytes(k), TextBytes(k.name, k.unicode),
          TextBytes(k.relativePath, k.unicode), TextBytes(k.workingDir, k.unicode), TextBytes(k.arguments, k.unicode), k.rest)
  }

  lemma EncodeIsLaidOut(k: Layout)
    requires LayoutOk(k)
    ensures LaidOut(k, Encode(k)) && Header(k) <= Encode(k)
  {
    hide Parts, TextBytes, Header, LinkInfoBytes, IdListBytes;
    PartsOfConcat(
      Header(k), IdListBytes(k), LinkInfoBytes(k), TextBytes(k.name, k.unicode), TextBytes(k.relativePath, k.unicode),
      TextBytes(k.workingDir, k.unicode), TextBytes(k.arguments, k.unicode), k.rest);
  }

  lemma Chained(data: seq<byte>, start: nat, name: nat, path: nat, dir: Item, last: Item)
    requires |data| >= HEADER && PastLinkInfo(data) == Some(start)
    requires Optional(data, start, HAS_NAME).next == name && Optional(data, name, HAS_RELATIVE_PATH).next == path
    requires Optional(data, path, HAS_WORKING_DIR) == dir && Optional(data, dir.next, HAS_ARGUMENTS) == last
    ensures StringsOf(data) == Some(Strings(dir.text, last.text, last.next))
  {
  }

  lemma ReadLaidOut(k: Layout, data: seq<byte>)
    requires LayoutOk(k) && LaidOut(k, data) && Flags(data) == FlagsOf(k)
    ensures StringsOf(data) == Some(Strings(Expected(k.workingDir), Expected(k.arguments), |data| - |k.rest|))
  {
    hide Holds, Counted, Optional, TextBytes, LinkInfoBytes, IdListBytes, FlagsOf, PastLinkInfo, StringsOf, Expected;
    var n, p := |TextBytes(k.name, k.unicode)|, |TextBytes(k.relativePath, k.unicode)|;
    var d, a := |TextBytes(k.workingDir, k.unicode)|, |TextBytes(k.arguments, k.unicode)|;
    var at := HEADER + |IdListBytes(k)| + |LinkInfoBytes(k)|;
    BlocksSkipped(k, data);
    SkippedStrings(k, data, at, n, p);
    KeptStrings(k, data, at + n + p, d, a);
    Chained(data, at, at + n, at + n + p, Item(Expected(k.workingDir), at + n + p + d),
            Item(Expected(k.arguments), at + n + p + d + a));
  }

  /**
   Round trip: the parser accepts the link, reads back its times and size, and reports working directory
   and arguments as they were laid out.
   */
  lemma LinkRoundTrip(k: Layout)
    requires LayoutOk(k)
    ensures var data := Encode(k);
      && |data| >= HEADER && Le32(data, 0) == HEADER && Le32(data, 0x34) == k.size
      && Le64(data, 0x1C) == k.created && Le64(data, 0x24) == k.accessed && Le64(data, 0x2C) == k.written
      && StringsOf(data) == Some(Strings(Expected(k.workingDir), Expected(k.arguments), |data| - |k.rest|))
  {
    hide *;
    EncodeIsLaidOut(k);
    ReadHeader(k, Encode(k));
    ReadLaidOut(k, Encode(k));
  }

  /** What the parser's contract comes to on such a link. */
  lemma LinkReported(k: Layout, e: LinkEntry)
    requires LayoutOk(k) && |Encode(k)| >= HEADER && HeaderOk(Encode(k), e) && StringsOk(Encode(k), e)
    ensures e.workingDir == Expected(k.workingDir) && e.arguments == Expected(k.arguments) && e.targetSize == k.size
    ensures e.created == FileTime.FromFileTime(k.created)
    ensures e.accessed == FileTime.FromFileTime(k.accessed) && e.modified == FileTime.FromFileTime(k.written)
  {
    hide Encode, StringsOf, Expected, LayoutOk;
    LinkRoundTrip(k);
  }

  /** Without zeros and surrogates a reported text determines the one laid out. */
  lemma ReportedFaithful(a: Text, b: Text)
    requires a.Wide? && b.Wide? && 0 !in a.units && 0 !in b.units && NoSurrogate(a.units) && NoSurrogate(b.units)
    ensures a.Reported() == Utf8All(a.units)
    ensures a.Reported() == b.Reported() ==> a == b
  {
    UpToZeroWhole(a.units, 0);
    UpToZeroWhole(b.units, 0);
    if a.Reported() == b.Reported() { Utf8Injective(a.units, b.units); }
  }
}
