/** Copying a sequence from and to a device, and reading it for streaming
    (src/ptrim-lib.cc: download, upload, streamData). */
module Sequence {
  import opened Prelude
  import opened Device
  import opened Color
  import opened SequenceText

  // ----------------------------------------------------------------- download

  /** What the device answers for slot k: slots it does not have read as zero. */
  function SlotRead(m: Memory, k: nat): (slot: seq<Byte>)
    requires WellFormed(m)
    ensures |slot| == SLOT_LENGTH
  {
    if k < SLOTS then m.slots[k] else seq(SLOT_LENGTH, i => 0)
  }

  function DownloadedSlot(k: nat, slot: seq<Byte>): string
    requires |slot| == SLOT_LENGTH
  {
    SlotLine(k, HoldDigit(slot), FadeDigit(slot), [Hex(slot[..12])])
  }

  function BlankSlot(k: nat): string { SlotLine(k, '0', '0', [BLACK]) }

  function SlotsToGet(m: Memory, blank: bool): nat { if blank then m.active else SLOTS }

  /** Line i of a download: three header lines, then the slots; a short download
      gets only the active slots and fills up with black ones. */
  function DownloadedLine(m: Memory, blank: bool, i: nat): (line: string)
    requires WellFormed(m)
    ensures |line| >= 2
  {
    if i == 0 then TITLE
    else if i == 1 then SIMPLE + END_OF_LINE
    else if i == 2 then "Active Slots: " + Decimal2(m.active) + END_OF_LINE
    else if i - 3 < SlotsToGet(m, blank) then DownloadedSlot(i - 3, SlotRead(m, i - 3))
    else if i - 3 < SLOTS then BlankSlot(i - 3)
    else END_OF_LINE
  }

  function DownloadLength(m: Memory, blank: bool): nat {
    3 + (if SlotsToGet(m, blank) > SLOTS then SlotsToGet(m, blank) else SLOTS) + 1
  }

  function Downloaded(m: Memory, blank: bool): (lines: seq<string>)
    requires WellFormed(m)
    ensures |lines| == DownloadLength(m, blank)
    ensures forall i | 0 <= i < |lines| :: lines[i] == DownloadedLine(m, blank, i)
  {
    seq(DownloadLength(m, blank), i requires i >= 0 => DownloadedLine(m, blank, i))
  }

  function Trimmed(line: string): string
    requires |line| >= 2
  {
    line[..|line| - 2]
  }

  /** What the server sends of a download: the lines before the last, without their line ends. */
  function SentLines(m: Memory, blank: bool): (lines: seq<string>)
    requires WellFormed(m)
    ensures |lines| == DownloadLength(m, blank) - 1
    ensures forall i | 0 <= i < |lines| :: lines[i] == Trimmed(DownloadedLine(m, blank, i))
  {
    seq(DownloadLength(m, blank) - 1, i requires i >= 0 => Trimmed(DownloadedLine(m, blank, i)))
  }

  /** Prints bytes as upper-case digits. */
  method PrintHex(bytes: seq<Byte>) returns (text: string)
    ensures text == Hex(bytes)
  {
    text := "";
    for j := 0 to |bytes|
      invariant text == Hex(bytes[..j])
    {
      HexOneMore(bytes, j);
      text := text + [HexDigit(bytes[j] / 16), HexDigit(bytes[j] % 16)];
    }
    assert bytes[..|bytes|] == bytes;
  }

  method ReadSlot(p: PlasmaTrim, k: Byte) returns (slot: seq<Byte>)
    requires p.Valid()
    modifies p
    ensures p.Valid() && p.memory == old(p.memory) && slot == SlotRead(p.memory, k)
  {
    var cmd := new Byte[REPORT_LENGTH](_ => 0);
    cmd[0], cmd[1] := 0x07, k;
    p.HidWrite(cmd);
    slot := p.reply[2..15];
  }

  /** Reads slot k from the device and prints its line. */
  method DownloadSlot(p: PlasmaTrim, k: Byte) returns (line: string)
    requires p.Valid()
    modifies p
    ensures p.Valid() && p.memory == old(p.memory) && line == DownloadedSlot(k, SlotRead(p.memory, k))
  {
    hide Hex, Decimal2, SlotRead;
    var slot := ReadSlot(p, k);
    var hold, fade := slot[12] / 16 + 48, slot[12] % 16 + 48;
    var holdChar := (if hold > 0x39 then hold + 7 else hold) as char;
    var fadeChar := (if fade > 0x39 then fade + 7 else fade) as char;
    var color := PrintHex(slot[..12]);
    line := "slot " + Decimal2(k) + [' ', holdChar, ' ', fadeChar, ' ', '-', ' '] + color + "\r\n";
  }

  /** The first n buffers hold the download's first n lines, the others are empty. */
  predicate DownloadsTo(m: Memory, blank: bool, lines: seq<string>, n: nat)
    requires WellFormed(m)
  {
    && n <= |lines| && (forall i | 0 <= i < n :: lines[i] == DownloadedLine(m, blank, i))
    && forall i | n <= i < |lines| :: lines[i] == ""
  }

  lemma DownloadsOneMore(m: Memory, blank: bool, lines: seq<string>, n: nat)
    requires WellFormed(m) && DownloadsTo(m, blank, lines, n) && n < |lines|
    ensures DownloadsTo(m, blank, lines[n := DownloadedLine(m, blank, n)], n + 1)
  {
  }

  method DownloadHeader(fileData: array<string>, m: Memory, blank: bool)
    requires WellFormed(m) && fileData.Length >= 260
    modifies fileData
    ensures DownloadsTo(m, blank, fileData[..], 3)
  {
    for i := 0 to fileData.Length
      invariant forall k | 0 <= k < i :: fileData[k] == ""
    {
      fileData[i] := "";
    }
    fileData[0] := "PlasmaTrim RGB-8 Sequence\r\n";
    fileData[1] := "Version: Simple Sequence Format" + "\r\n";
    fileData[2] := "Active Slots: " + Decimal2(m.active) + "\r\n";
  }

  /** The slots that were not fetched are printed black, and an empty line ends the file. */
  method DownloadBlanks(fileData: array<string>, slotsToGet: nat, ghost m: Memory, ghost blank: bool)
    requires WellFormed(m) && fileData.Length >= 260 && slotsToGet == SlotsToGet(m, blank)
    requires DownloadsTo(m, blank, fileData[..], 3 + slotsToGet)
    modifies fileData
    ensures DownloadsTo(m, blank, fileData[..], DownloadLength(m, blank))
  {
    hide DownloadedSlot, SlotRead, SlotLine, DownloadsTo;
    var lineNumber := slotsToGet;
    while lineNumber < SLOTS
      invariant slotsToGet <= lineNumber && (lineNumber <= SLOTS || lineNumber == slotsToGet)
      invariant DownloadsTo(m, blank, fileData[..], 3 + lineNumber)
    {
      ghost var lines := fileData[..];
      fileData[3 + lineNumber] := SlotLine(lineNumber, '0', '0', ["000000000000000000000000"]);
      DownloadsOneMore(m, blank, lines, 3 + lineNumber);
      assert fileData[..] == lines[3 + lineNumber := DownloadedLine(m, blank, 3 + lineNumber)];
      lineNumber := lineNumber + 1;
    }
    ghost var lines := fileData[..];
    fileData[3 + lineNumber] := "\r\n";
    DownloadsOneMore(m, blank, lines, 3 + lineNumber);
    assert fileData[..] == lines[3 + lineNumber := DownloadedLine(m, blank, 3 + lineNumber)];
  }

  /** Writes the whole sequence into the line buffers. */
  method Download(p: PlasmaTrim, fileData: array<string>, blank: bool)
    requires p.Valid() && fileData.Length >= 260
    modifies p, fileData
    ensures p.Valid() && p.memory == old(p.memory)
    ensures DownloadsTo(p.memory, blank, fileData[..], DownloadLength(p.memory, blank))
  {
    hide DownloadedSlot, BlankSlot, SlotRead, DownloadsTo;
    var activeSlots := p.GetActiveSlots();
    var slotsToGet := if blank then activeSlots else SLOTS;
    DownloadHeader(fileData, p.memory, blank);
    for i := 0 to slotsToGet
      invariant p.Valid() && p.memory == old(p.memory)
      invariant DownloadsTo(p.memory, blank, fileData[..], 3 + i)
    {
      var line := DownloadSlot(p, i);
      ghost var lines := fileData[..];
      fileData[3 + i] := line;
      assert fileData[..] == lines[3 + i := line];
      DownloadsOneMore(p.memory, blank, lines, 3 + i);
    }
    DownloadBlanks(fileData, slotsToGet, p.memory, blank);
  }

  // ------------------------------------------------------------------- upload

  /** The line that ends a sequence. */
  predicate Ends(line: string) { CharAt(line, 0) in {'\r', '\n', '\0'} }

  /** How many lines come before the end; line numbers are unsigned chars. */
  function LineCount(fileData: seq<string>): (n: nat)
    ensures n <= |fileData| && (n < |fileData| ==> Ends(fileData[n]))
    ensures forall k | 0 <= k < n :: !Ends(fileData[k])
  {
    if fileData == [] || Ends(fileData[0]) then 0 else 1 + LineCount(fileData[1..])
  }

  lemma {:induction false} CountIs(fileData: seq<string>, n: nat)
    requires n < |fileData| && Ends(fileData[n]) && forall k | 0 <= k < n :: !Ends(fileData[k])
    ensures LineCount(fileData) == n
  {
    if LineCount(fileData) < n { assert Ends(fileData[LineCount(fileData)]); }
  }

  predicate IsMultiple(fileData: seq<string>) { LineCount(fileData) > 1 && VersionOf(fileData[1]).Multiple? }

  predicate Rejected(fileData: seq<string>) { LineCount(fileData) > 1 && VersionOf(fileData[1]).Unknown? }

  /** The files upload can finish with: an end within 256 lines and, in the
      multiple format, at least one device. */
  predicate Readable(fileData: seq<string>) {
    && LineCount(fileData) < |fileData| && LineCount(fileData) < 256
    && (IsMultiple(fileData) && LineCount(fileData) > 2 ==> HasDevices(fileData[2]))
  }

  /** The header in force before line n is looked at. */
  function HeaderBefore(fileData: seq<string>, n: nat, blank: bool, id: Byte): Header
    requires Readable(fileData) && n <= LineCount(fileData) && id < 255
  {
    if n > 2 then ReadHeader(fileData[2], IsMultiple(fileData), blank, id)
    else NO_HEADER.(multi := n > 1 && IsMultiple(fileData))
  }

  /** Whether line n is one of those to load. */
  predicate InRange(h: Header, n: nat) { 2 + h.loopStart < n < 3 + h.toLoad + h.loopStart }

  /** The shift is switched on by line 103 if that line is loaded. */
  function Shift(h: Header, n: nat): nat {
    if n >= FIRST_SHIFTED && InRange(h, FIRST_SHIFTED) then 1 else 0
  }

  /** Slot k after the lines before n were treated, given slot k before. */
  function Loaded(fileData: seq<string>, h: Header, n: nat, k: nat, before: seq<Byte>): seq<Byte>
    requires n <= |fileData| && h.deviceNum >= 1
  {
    var line := k + 3 + h.loopStart;
    if k < h.toLoad && line < n then SlotOf(fileData[line], h.deviceNum, Shift(h, line)) else before
  }

  predicate SlotAfter(fileData: seq<string>, h: Header, n: nat, k: nat, before: seq<Byte>, after: seq<Byte>)
    requires n <= |fileData| && h.deviceNum >= 1
  {
    after == Loaded(fileData, h, n, k, before)
  }

  predicate SlotsAfter(fileData: seq<string>, h: Header, n: nat, before: seq<seq<Byte>>, after: seq<seq<Byte>>)
    requires n <= |fileData| && h.deviceNum >= 1 && |before| == |after|
  {
    forall k | 0 <= k < |before| :: SlotAfter(fileData, h, n, k, before[k], after[k])
  }

  /** Copies a device's column out of a line. */
  method CopyColumn(line: string, deviceNum: nat, offset: nat) returns (color: array<char>)
    requires deviceNum >= 1
    ensures fresh(color) && color[..] == Column(line, deviceNum, offset) + ['\0']
  {
    color := new char[25](_ => '\0');
    for i := 14 to 38
      invariant forall j | 0 <= j < i - 14 :: color[j] == Column(line, deviceNum, offset)[j]
      invariant color[24] == '\0'
    {
      color[i - 14] := CharAt(line, i + 27 * (deviceNum - 1) + offset);
    }
  }

  /** The command that writes a slot. */
  method SlotCommand(k: Byte, rawColor: array<Byte>, time: Byte) returns (cmd: array<Byte>)
    requires rawColor.Length >= 12
    ensures fresh(cmd) && cmd.Length == REPORT_LENGTH && cmd[0] == 0x06 && cmd[1] == k
    ensures cmd[2..15] == rawColor[..12] + [time]
  {
    cmd := new Byte[REPORT_LENGTH](_ => 0);
    cmd[0] := 0x06;
    cmd[1] := k;
    for i := 0 to 12
      modifies cmd
      invariant cmd[0] == 0x06 && cmd[1] == k && cmd[2..i + 2] == rawColor[..i]
    {
      cmd[i + 2] := rawColor[i];
    }
    cmd[14] := time;
  }

  lemma TextFits(buffer: seq<char>)
    requires |buffer| == 25 && buffer[24] == '\0'
    ensures '\0' in buffer && |Text(buffer)| < 256
  {
    assert buffer[24] in buffer;
  }

  /** Sends one slot line to the device as slot k. */
  method UploadSlot(p: PlasmaTrim, line: string, k: Byte, deviceNum: nat, offset: nat)
    requires p.Valid() && deviceNum >= 1
    modifies p
    ensures p.Valid() && p.memory == old(p.memory).(slots := p.memory.slots)
    ensures forall i | 0 <= i < SLOTS && i != k :: p.memory.slots[i] == old(p.memory).slots[i]
    ensures k < SLOTS ==> p.memory.slots[k] == SlotOf(line, deviceNum, offset)
  {
    hide Text, ColorCells, ColorBytes, TimeByte, Column;
    var color := CopyColumn(line, deviceNum, offset);
    TextFits(color[..]);
    var rawColor := MakeColor(color, false);
    var cmd := SlotCommand(k, rawColor, TimeByte(CharAt(line, 8 + offset), CharAt(line, 10 + offset)));
    assert cmd[..][2..15] == cmd[2..15];
    p.HidWrite(cmd);
  }

  function Darkened(m: Memory): Memory {
    m.(playing := false, shown := seq(COLOR_LENGTH, i => 0), level := m.brightness)
  }

  lemma ZeroDigits(k: nat)
    requires k < 48
    ensures StandardDigit("000", true, k) == '0' && Pair('0', '0') == 0
  {
  }

  lemma ZerosAreBlack()
    ensures NoSpaces("000") == "000" && ColorBytes("000", true) == seq(COLOR_LENGTH, i => 0)
  {
    hide StandardDigit, Pair, NoSpaces;
    NoSpacesKeeps("000");
    forall k | 0 <= k < COLOR_LENGTH ensures ColorBytes("000", true)[k] == 0 {
      ZeroDigits(2 * k);
      ZeroDigits(2 * k + 1);
    }
  }

  lemma ThreeZeros(buffer: seq<char>)
    requires |buffer| == 25 && buffer[0] == buffer[1] == buffer[2] == '0' && buffer[3] == '\0'
    ensures Text(buffer) == "000" && '\0' in buffer && ColorCells(buffer) == NoSpaces("000")
  {
    ZerosAreBlack();
    assert buffer[3] in buffer;
    var text := Text(buffer);
    assert |text| < |buffer| && buffer[|text|] == '\0';
  }

  /** The device goes dark before an upload. */
  method GoDark(p: PlasmaTrim)
    requires p.Valid()
    modifies p
    ensures p.Valid() && p.memory == Darkened(old(p.memory))
  {
    hide ColorBytes, NoSpaces, Text;
    p.Stop();
    var color := new char[25](i => if i < 3 then '0' else '\0');
    TextFits(color[..]);
    ThreeZeros(color[..]);
    ZerosAreBlack();
    var rgb := MakeColor(color, true);
    var level := p.GetBrightness();
    p.SetColor(rgb[..24], level);
    assert rgb[..24] == seq(COLOR_LENGTH, i => 0);
  }

  /** Reduces the device's number into the columns the file has. */
  method Wrapped(id: Byte, devices: Byte) returns (deviceNum: Byte)
    requires id < 255 && devices > 0
    ensures deviceNum == WrapDevice(id + 1, devices)
  {
    deviceNum := id + 1;
    while deviceNum > devices
      invariant deviceNum > 0 && WrapDevice(deviceNum, devices) == WrapDevice(id + 1, devices)
    {
      deviceNum := deviceNum - devices;
    }
  }

  /** The digits of a multiple header's slot count. */
  method CountSlots(line: string) returns (active: Byte)
    ensures active == ParseDigits(line, 80, 0)
  {
    active := 0;
    var i := 80;
    while i < |line| && '0' <= line[i] <= '9'
      invariant ParseDigits(line, i, active) == ParseDigits(line, 80, 0)
      decreases |line| - i
    {
      active := (active * 10 + (line[i] as int - 48)) % 256;
      i := i + 1;
    }
  }

  method TakeHeader(line: string, multi: bool, blank: bool, id: Byte) returns (h: Header)
    requires id < 255 && (multi ==> HasDevices(line))
    ensures h == ReadHeader(line, multi, blank, id)
  {
    var activeDevices: Byte, deviceNum: Byte, loopStart: Byte, activeSlots: Byte, slotsToLoad: Byte := 0, 1, 0, 0, 76;
    if multi {
      activeDevices := TwoDigits(line, 35);
      deviceNum := Wrapped(id, activeDevices);
      loopStart := (TwoDigits(line, 52) - 1) % 256;
      activeSlots := CountSlots(line);
    } else {
      activeSlots := TwoDigits(line, 14);
    }
    if blank && activeSlots - loopStart < 76 {
      slotsToLoad := (activeSlots - loopStart) % 256;
    }
    if activeDevices == 0 {
      activeDevices := activeDevices + 1;
    }
    h := Header(multi, activeDevices, deviceNum, loopStart, activeSlots, slotsToLoad);
  }

  /** Header, shift and device memory once the lines before n were treated. */
  predicate Treated(fileData: seq<string>, n: nat, blank: bool, id: Byte, dark: Memory, m: Memory, h: Header, offset: nat)
    requires Readable(fileData) && n <= LineCount(fileData) && id < 255 && WellFormed(dark) && WellFormed(m)
  {
    && h == HeaderBefore(fileData, n, blank, id)
    && offset == (if n > 0 then Shift(h, n - 1) else 0)
    && m == dark.(slots := m.slots)
    && SlotsAfter(fileData, h, n, dark.slots, m.slots)
  }

  lemma NoSlotYet(fileData: seq<string>, h: Header, n: nat, slots: seq<seq<Byte>>)
    requires n <= 3 && n <= |fileData| && h.deviceNum >= 1
    ensures SlotsAfter(fileData, h, n, slots, slots)
  {
    hide SlotOf, Column;
  }

  /** One more line that is not loaded changes no slot. */
  lemma LineNotLoaded(fileData: seq<string>, h: Header, n: nat, before: seq<seq<Byte>>, after: seq<seq<Byte>>)
    requires n < |fileData| && h.deviceNum >= 1 && |before| == |after|
    requires SlotsAfter(fileData, h, n, before, after) && !InRange(h, n)
    ensures SlotsAfter(fileData, h, n + 1, before, after)
  {
    hide SlotOf, Column;
    forall k | 0 <= k < |before| ensures SlotAfter(fileData, h, n + 1, k, before[k], after[k]) {
      assert SlotAfter(fileData, h, n, k, before[k], after[k]);
    }
  }

  /** A loaded line changes its own slot. */
  lemma LineLoaded(fileData: seq<string>, h: Header, n: nat, before: seq<seq<Byte>>, mid: seq<seq<Byte>>, after: seq<seq<Byte>>)
    requires n < |fileData| && h.deviceNum >= 1 && |before| == |mid| == |after| == SLOTS
    requires SlotsAfter(fileData, h, n, before, mid) && InRange(h, n)
    requires forall i | 0 <= i < SLOTS && i != n - 3 - h.loopStart :: after[i] == mid[i]
    requires var k, shift := n - 3 - h.loopStart, Shift(h, n);
             k < SLOTS ==> after[k] == SlotOf(fileData[n], h.deviceNum, shift)
    ensures SlotsAfter(fileData, h, n + 1, before, after)
  {
    hide SlotOf, Column;
    forall k | 0 <= k < SLOTS ensures SlotAfter(fileData, h, n + 1, k, before[k], after[k]) {
      assert SlotAfter(fileData, h, n, k, before[k], mid[k]);
    }
  }

  /** A slot line: sent if it is in range, with the shift once line 103 came. */
  method TreatSlotLine(p: PlasmaTrim, fileData: seq<string>, n: Byte, blank: bool, id: Byte, h: Header, offset: nat, ghost dark: Memory)
    returns (offset': nat)
    requires p.Valid() && Readable(fileData) && 2 < n < LineCount(fileData) && id < 255 && WellFormed(dark)
    requires Treated(fileData, n, blank, id, dark, p.memory, h, offset)
    modifies p
    ensures p.Valid() && Treated(fileData, n + 1, blank, id, dark, p.memory, h, offset')
  {
    hide SlotOf, Column;
    offset' := offset;
    ghost var mid := p.memory.slots;
    if 2 + h.loopStart < n < 3 + h.toLoad + h.loopStart {
      if n == 103 {
        offset' := 1;
      }
      UploadSlot(p, fileData[n], n - 3 - h.loopStart, h.deviceNum, offset');
      LineLoaded(fileData, h, n, dark.slots, mid, p.memory.slots);
    } else {
      LineNotLoaded(fileData, h, n, dark.slots, p.memory.slots);
    }
  }

  /** The version and header lines. */
  method TreatHeaderLine(fileData: seq<string>, n: nat, blank: bool, id: Byte, h: Header, ghost dark: Memory)
    returns (ok: bool, h': Header)
    requires Readable(fileData) && n <= 2 && n < LineCount(fileData) && id < 255 && WellFormed(dark)
    requires Treated(fileData, n, blank, id, dark, dark, h, 0) && (n == 2 ==> !Rejected(fileData))
    ensures ok <==> !(n == 1 && Rejected(fileData))
    ensures ok ==> Treated(fileData, n + 1, blank, id, dark, dark, h', 0)
  {
    ok, h' := true, h;
    if n == 1 {
      ok := !VersionOf(fileData[1]).Unknown?;
      if VersionOf(fileData[1]).Multiple? {
        h' := h.(multi := true);
      }
    } else if n == 2 {
      h' := TakeHeader(fileData[2], h.multi, blank, id);
    }
    NoSlotYet(fileData, h', n + 1, dark.slots);
  }

  /** The memory after an upload. A file of unknown version leaves the slots alone. */
  predicate Uploaded(fileData: seq<string>, blank: bool, id: Byte, before: Memory, after: Memory)
    requires Readable(fileData) && id < 255 && WellFormed(before) && WellFormed(after)
  {
    var h := HeaderBefore(fileData, LineCount(fileData), blank, id);
    if Rejected(fileData) then after == Darkened(before)
    else
      && after == Darkened(before).(playing := true, slots := after.slots,
                                    active := MakeActive((h.active - h.loopStart) % 256))
      && SlotsAfter(fileData, h, LineCount(fileData), before.slots, after.slots)
  }

  /** A file that upload can finish with. */
  type File = f: seq<string> | Readable(f) witness [""]

  /** The memory that an upload leaves. */
  function AfterUpload(fileData: seq<string>, blank: bool, id: Byte, m: Memory): (r: Memory)
    requires Readable(fileData) && id < 255 && WellFormed(m)
    ensures WellFormed(r)
    ensures r.playing == !Rejected(fileData) && r.name == m.name && r.brightness == m.brightness
  {
    var h := HeaderBefore(fileData, LineCount(fileData), blank, id);
    if Rejected(fileData) then Darkened(m)
    else Darkened(m).(playing := true, active := MakeActive((h.active - h.loopStart) % 256),
                      slots := seq(SLOTS, k requires 0 <= k < SLOTS =>
                                 Loaded(fileData, h, LineCount(fileData), k, m.slots[k])))
  }

  /** There is one memory that an upload can leave. */
  lemma UploadedExactly(fileData: seq<string>, blank: bool, id: Byte, before: Memory, after: Memory)
    requires Readable(fileData) && id < 255 && WellFormed(before) && WellFormed(after)
    ensures Uploaded(fileData, blank, id, before, after) <==> after == AfterUpload(fileData, blank, id, before)
  {
    hide Loaded;
    var h := HeaderBefore(fileData, LineCount(fileData), blank, id);
    if Uploaded(fileData, blank, id, before, after) && !Rejected(fileData) {
      forall k | 0 <= k < SLOTS ensures after.slots[k] == AfterUpload(fileData, blank, id, before).slots[k] {
        assert SlotAfter(fileData, h, LineCount(fileData), k, before.slots[k], after.slots[k]);
      }
    }
  }

  /** Every upload leaves the unit dark at its saved brightness; one of unknown version
      leaves it stopped and its sequence as it was. */
  lemma UploadDarkens(fileData: seq<string>, blank: bool, id: Byte, m: Memory)
    requires Readable(fileData) && id < 255 && WellFormed(m)
    ensures var r := AfterUpload(fileData, blank, id, m);
            && (forall c | c in r.shown :: c == 0) && r.level == m.brightness && (r.playing <==> !Rejected(fileData))
            && (Rejected(fileData) ==> r.slots == m.slots && r.active == m.active)
  {
    hide Loaded, HeaderBefore;
  }

  /** Programs a device from a file. */
  method Upload(p: PlasmaTrim, fileData: seq<string>, blank: bool, id: Byte) returns (result: int)
    requires p.Valid() && Readable(fileData) && id < 255
    modifies p
    ensures p.Valid() && Uploaded(fileData, blank, id, old(p.memory), p.memory)
    ensures result == if Rejected(fileData) then -1 else 0
  {
    GoDark(p);
    ghost var dark := p.memory;
    var lineNumber: Byte, offset, h := 0, 0, NO_HEADER;
    NoSlotYet(fileData, h, 0, dark.slots);
    while !Ends(fileData[lineNumber])
      invariant lineNumber <= LineCount(fileData) && p.Valid()
      invariant lineNumber <= 2 ==> p.memory == dark && offset == 0
      invariant lineNumber > 1 ==> !Rejected(fileData)
      invariant Treated(fileData, lineNumber, blank, id, dark, p.memory, h, offset)
      decreases |fileData| - lineNumber
    {
      if lineNumber <= 2 {
        var ok;
        ok, h := TreatHeaderLine(fileData, lineNumber, blank, id, h, dark);
        if !ok {
          return -1;
        }
      } else {
        offset := TreatSlotLine(p, fileData, lineNumber, blank, id, h, offset, dark);
      }
      lineNumber := lineNumber + 1;
    }
    p.SetActiveSlots((h.active - h.loopStart) % 256);
    p.Start();
    result := 0;
  }
}
