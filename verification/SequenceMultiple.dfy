/** Sequence files for several devices: what upload writes from them, and that
    the reader for streaming finds the same (src/ptrim-lib.cc). */
module SequenceMultiple {
  import opened Arithmetic
  import opened Prelude
  import opened Device
  import opened Color
  import opened SequenceText
  import opened Sequence

  // ---------------------------------------------------------------- streamData

  /** What streamData keeps of a file: colour, hold and fade character for each slot. */
  datatype Stream = Stream(loopStart: nat, slot: seq<string>, hold: seq<char>, fade: seq<char>)

  /** streamData knows only version lines with their line end. */
  function StrictVersion(line: string): Version {
    if line == MULTIPLE + END_OF_LINE then Multiple else if line == SIMPLE + END_OF_LINE then Simple else Unknown
  }

  /** Line numbers are unsigned chars; a multiple header must have devices. */
  predicate Streamable(lines: seq<string>) {
    && |lines| < 256
    && (|lines| > 2 && StrictVersion(lines[1]).Multiple? ==> HasDevices(lines[2]))
  }

  function StreamHeader(lines: seq<string>, id: Byte): Header
    requires Streamable(lines) && id < 255
  {
    if |lines| > 2 then ReadHeader(lines[2], StrictVersion(lines[1]).Multiple?, false, id) else NO_HEADER
  }

  function StreamShift(line: nat): nat { if line >= FIRST_SHIFTED then 1 else 0 }

  /** One place on, from the last slot back to the first. */
  function NextPlace(s: nat, count: nat): (r: nat)
    requires s < count
    ensures r < count && r == (s + 1) % count
  {
    if s + 1 == count then
      QuotientRemainder(count, 1, 0);
      0
    else
      SmallRemainder(s + 1, count);
      s + 1
  }

  /** Slot s of the stream comes from line s + 3; its fade time goes one place on. */
  predicate StreamedSlot(lines: seq<string>, h: Header, r: Stream, s: nat)
    requires s < h.active && |r.slot| == |r.hold| == |r.fade| == h.active && h.deviceNum >= 1
  {
    if s + 3 < |lines| then
      var o := StreamShift(s + 3);
      && r.slot[s] == Column(lines[s + 3], h.deviceNum, o)
      && r.hold[s] == CharAt(lines[s + 3], 8 + o)
      && r.fade[NextPlace(s, h.active)] == CharAt(lines[s + 3], 10 + o)
    else
      r.slot[s] == "" && r.hold[s] == '\0' && r.fade[NextPlace(s, h.active)] == '\0'
  }

  predicate Streamed(lines: seq<string>, h: Header, r: Stream)
    requires h.deviceNum >= 1
  {
    && r.loopStart == h.loopStart && |r.slot| == |r.hold| == |r.fade| == h.active
    && forall s | 0 <= s < h.active :: StreamedSlot(lines, h, r, s)
  }

  lemma TwoStepDigit(acc: Byte, d: int)
    requires 0 <= d < 10
    ensures (acc * 10 % 256 + d) % 256 == (acc * 10 + d) % 256
  {
    var q, r := acc * 10 / 256, acc * 10 % 256;
    if r + d < 256 {
      QuotientRemainder(256, q, r + d);
    } else {
      QuotientRemainder(256, q + 1, r + d - 256);
    }
  }

  /** streamData's count of the slots multiplies and adds in two unsigned char steps. */
  method StreamCount(line: string) returns (activeSlots: Byte)
    ensures activeSlots == ParseDigits(line, 80, 0)
  {
    activeSlots := 0;
    var i := 80;
    while i < |line| && 47 < line[i] as int < 58
      invariant ParseDigits(line, i, activeSlots) == ParseDigits(line, 80, 0)
      decreases |line| - i
    {
      TwoStepDigit(activeSlots, line[i] as int - 48);
      activeSlots := activeSlots * 10 % 256;
      activeSlots := (activeSlots + (line[i] as int - 48)) % 256;
      i := i + 1;
    }
  }

  method StreamDevice(id: Byte, activeDevices: Byte) returns (deviceNum: Byte)
    requires id < 255 && activeDevices > 0
    ensures deviceNum == WrapDevice(id + 1, activeDevices)
  {
    deviceNum := id + 1;
    while deviceNum > activeDevices
      invariant deviceNum > 0 && WrapDevice(deviceNum, activeDevices) == WrapDevice(id + 1, activeDevices)
    {
      deviceNum := deviceNum - activeDevices;
    }
  }

  /** streamData's own reading of a header line agrees with upload's. */
  method StreamHeaderLine(line: string, multi: bool, id: Byte)
    returns (activeSlots: Byte, deviceNum: Byte, loopStart: Byte)
    requires id < 255 && (multi ==> HasDevices(line))
    ensures var h := ReadHeader(line, multi, false, id);
            activeSlots == h.active && deviceNum == h.deviceNum && loopStart == h.loopStart
  {
    activeSlots, deviceNum, loopStart := 0, 1, 0;
    if multi {
      activeSlots := StreamCount(line);
      deviceNum := StreamDevice(id, TwoDigits(line, 35));
      loopStart := (TwoDigits(line, 52) - 1) % 256;
    } else {
      activeSlots := TwoDigits(line, 14);
    }
  }

  /** A stream with slot s filled from a line. */
  function WithSlot(r: Stream, h: Header, s: nat, line: string, o: nat): Stream
    requires s < h.active && |r.slot| == |r.hold| == |r.fade| == h.active && h.deviceNum >= 1
  {
    r.(slot := r.slot[s := Column(line, h.deviceNum, o)],
       hold := r.hold[s := CharAt(line, 8 + o)],
       fade := r.fade[NextPlace(s, h.active) := CharAt(line, 10 + o)])
  }

  /** One more line fills its slot of the stream. */
  lemma OneMoreSlot(lines: seq<string>, n: nat, h: Header, r: Stream, more: Stream)
    requires 3 <= n < |lines| && n < 3 + h.active && h.deviceNum >= 1 && Streamed(lines[..n], h, r)
    requires more == WithSlot(r, h, n - 3, lines[n], StreamShift(n))
    ensures Streamed(lines[..n + 1], h, more)
  {
    var upTo := lines[..n + 1];
    forall s: nat | s < h.active ensures StreamedSlot(upTo, h, more, s) {
      assert StreamedSlot(lines[..n], h, r, s);
    }
  }

  /** Lines behind the last slot change nothing. */
  lemma OneMoreLine(lines: seq<string>, n: nat, h: Header, r: Stream)
    requires 3 + h.active <= n < |lines| && h.deviceNum >= 1 && Streamed(lines[..n], h, r)
    ensures Streamed(lines[..n + 1], h, r)
  {
    var upTo := lines[..n + 1];
    forall s: nat | s < h.active ensures StreamedSlot(upTo, h, r, s) {
      assert StreamedSlot(lines[..n], h, r, s);
    }
  }

  lemma NothingStreamed(lines: seq<string>, h: Header)
    requires |lines| == 3 && h.deviceNum >= 1
    ensures Streamed(lines, h, Stream(h.loopStart, seq(h.active, i => ""), seq(h.active, i => '\0'),
                                      seq(h.active, i => '\0')))
  {
  }

  /** Line n goes to slot n - 3; its fade time goes one place on. */
  method StreamSlot(slot: array<string>, holdTime: array<char>, fadeTime: array<char>,
                    line: string, n: nat, h: Header, offset: nat)
    requires slot.Length == holdTime.Length == fadeTime.Length == h.active && holdTime != fadeTime
    requires 3 <= n < 3 + h.active && h.deviceNum >= 1
    modifies slot, holdTime, fadeTime
    ensures Stream(h.loopStart, slot[..], holdTime[..], fadeTime[..])
         == WithSlot(Stream(h.loopStart, old(slot[..]), old(holdTime[..]), old(fadeTime[..])), h, n - 3, line, offset)
  {
    hide Column, CharAt;
    slot[n - 3] := Column(line, h.deviceNum, offset);
    if n - 2 == h.active {
      fadeTime[0] := CharAt(line, 10 + offset);
    } else {
      fadeTime[n - 2] := CharAt(line, 10 + offset);
    }
    holdTime[n - 3] := CharAt(line, 8 + offset);
  }

  /** The slot lines: colour and hold in place, fade moved on by one. */
  method StreamSlots(lines: seq<string>, h: Header)
    returns (slot: array<string>, holdTime: array<char>, fadeTime: array<char>)
    requires 3 <= |lines| < 256 && h.deviceNum >= 1
    ensures Streamed(lines, h, Stream(h.loopStart, slot[..], holdTime[..], fadeTime[..]))
  {
    slot := new string[h.active](_ => "");
    holdTime := new char[h.active](_ => '\0');
    fadeTime := new char[h.active](_ => '\0');
    assert holdTime != fadeTime;
    var offset := 0;
    NothingStreamed(lines[..3], h);
    hide Streamed, Column, CharAt, WithSlot;
    for n := 3 to |lines|
      invariant offset == (if n > FIRST_SHIFTED then 1 else 0)
      invariant Streamed(lines[..n], h, Stream(h.loopStart, slot[..], holdTime[..], fadeTime[..]))
    {
      ghost var r := Stream(h.loopStart, slot[..], holdTime[..], fadeTime[..]);
      if n + 1 > 103 {
        offset := 1;
      }
      if n < 3 + h.active {
        StreamSlot(slot, holdTime, fadeTime, lines[n], n, h, offset);
        OneMoreSlot(lines, n, h, r, Stream(h.loopStart, slot[..], holdTime[..], fadeTime[..]));
      } else {
        OneMoreLine(lines, n, h, r);
      }
    }
    assert lines[..|lines|] == lines;
  }

  /** Of a header only the count, the column and the loop start matter to a stream. */
  lemma StreamedUnder(lines: seq<string>, h: Header, other: Header, r: Stream)
    requires h.deviceNum >= 1 && Streamed(lines, h, r)
    requires (other.active, other.deviceNum, other.loopStart) == (h.active, h.deviceNum, h.loopStart)
    ensures Streamed(lines, other, r)
  {
    hide Column, CharAt;
    forall s: nat | s < other.active ensures StreamedSlot(lines, other, r, s) {
      assert StreamedSlot(lines, h, r, s);
    }
  }

  /** Reads a file for streaming; nothing if its version is not known. */
  method ReadStream(lines: seq<string>, id: Byte) returns (r: Option<Stream>)
    requires Streamable(lines) && id < 255
    ensures r == None <==> |lines| > 1 && StrictVersion(lines[1]).Unknown?
    ensures r.Some? ==> Streamed(lines, StreamHeader(lines, id), r.value)
  {
    var multi := false;
    if |lines| > 1 {
      if StrictVersion(lines[1]).Unknown? {
        return None;
      }
      multi := StrictVersion(lines[1]).Multiple?;
    }
    var h := NO_HEADER;
    if |lines| > 2 {
      var activeSlots, deviceNum, loopStart := StreamHeaderLine(lines[2], multi, id);
      h := h.(active := activeSlots, deviceNum := deviceNum, loopStart := loopStart);
    }
    if |lines| > 2 {
      var slot, holdTime, fadeTime := StreamSlots(lines, h);
      r := Some(Stream(h.loopStart, slot[..], holdTime[..], fadeTime[..]));
      StreamedUnder(lines, h, StreamHeader(lines, id), r.value);
    } else {
      r := Some(Stream(0, [], [], []));
    }
  }

  // -------------------------------------------------------- well-formed files

  datatype FileSlot = FileSlot(hold: char, fade: char, columns: seq<string>)

  /** A sequence for several devices. loopStart counts from zero, the file from one. */
  datatype SequenceFile = SequenceFile(shown: nat, devices: nat, loopStart: nat, slots: seq<FileSlot>)

  predicate WellFormedSlot(slot: FileSlot, devices: nat) {
    |slot.columns| == devices && forall c <- slot.columns :: |c| == 24 && AllHex(c)
  }

  /** At most 32 columns fit the line buffers, and a file has fewer than 256 lines. */
  predicate WellFormedFile(f: SequenceFile) {
    && f.shown < 100 && 1 <= f.devices <= 32 && f.loopStart <= 98 && f.loopStart < |f.slots| <= 251
    && forall s | 0 <= s < |f.slots| :: WellFormedSlot(f.slots[s], f.devices)
  }

  function HeaderLine(shown: nat, devices: nat, loopStart: nat, active: nat): string {
    "Active Slots: " + Decimal2(shown) + " - Active Devices: " + Decimal2(devices)
    + " - Loop Start: " + Decimal2(loopStart + 1) + " - Extended Active Slots: " + Decimal(active) + END_OF_LINE
  }

  function FileLine(f: SequenceFile, i: nat): string
    requires WellFormedFile(f)
  {
    if i == 0 then TITLE
    else if i == 1 then MULTIPLE + END_OF_LINE
    else if i == 2 then HeaderLine(f.shown, f.devices, f.loopStart, |f.slots|)
    else if i - 3 < |f.slots| then
      var slot := f.slots[i - 3];
      SlotLine(i - 3, slot.hold, slot.fade, slot.columns)
    else END_OF_LINE
  }

  function Printed(f: SequenceFile): (lines: seq<string>)
    requires WellFormedFile(f)
    ensures |lines| == |f.slots| + 4 && forall i | 0 <= i < |lines| :: lines[i] == FileLine(f, i)
  {
    seq(|f.slots| + 4, i requires i >= 0 => FileLine(f, i))
  }

  /** Where the numbers of a header line stand. */
  lemma HeaderLineShape(shown: nat, devices: nat, loopStart: nat, active: nat)
    requires shown < 100 && devices < 100 && loopStart < 99
    ensures var line := HeaderLine(shown, devices, loopStart, active);
            && |line| == 82 + |Decimal(active)| && line[0] == 'A'
            && line[35] == Decimal2(devices)[0] && line[36] == Decimal2(devices)[1]
            && line[52] == Decimal2(loopStart + 1)[0] && line[53] == Decimal2(loopStart + 1)[1]
            && line[80..80 + |Decimal(active)|] == Decimal(active) && line[80 + |Decimal(active)|] == '\r'
  {
    hide Decimal;
    var a, b, c, d := "Active Slots: ", " - Active Devices: ", " - Loop Start: ", " - Extended Active Slots: ";
    assert |a| == 14 && |b| == 19 && |c| == 15 && |d| == 26;
    var upTo := a + Decimal2(shown) + b;
    var next := upTo + Decimal2(devices) + c;
    var all := next + Decimal2(loopStart + 1) + d;
    assert HeaderLine(shown, devices, loopStart, active) == all + Decimal(active) + END_OF_LINE;
  }

  lemma HeaderLineReads(shown: nat, devices: nat, loopStart: nat, active: nat)
    requires shown < 100 && devices < 100 && loopStart < 99 && active < 256
    ensures var line := HeaderLine(shown, devices, loopStart, active);
            && TwoDigits(line, 35) == devices && TwoDigits(line, 52) == loopStart + 1
            && ParseDigits(line, 80, 0) == active && CharAt(line, 0) == 'A'
  {
    hide HeaderLine, Decimal, ParseDigits, DigitsValue;
    var line := HeaderLine(shown, devices, loopStart, active);
    HeaderLineShape(shown, devices, loopStart, active);
    DecimalParses(devices);
    DecimalParses(loopStart + 1);
    ParseStep(line, 80, Decimal(active), 0);
    DecimalValue(active);
  }

  lemma {:induction false} WrapIsModulo(id: nat, devices: nat)
    requires devices > 0
    ensures WrapDevice(id + 1, devices) == id % devices + 1
    decreases id
  {
    if id + 1 <= devices {
      SmallRemainder(id, devices);
    } else {
      WrapIsModulo(id - devices, devices);
      ModStep(id, devices);
    }
  }

  lemma FileLineGoesOn(f: SequenceFile, i: nat)
    requires WellFormedFile(f) && i < |f.slots| + 4
    ensures Ends(FileLine(f, i)) <==> i == |f.slots| + 3
  {
    hide SlotLine, HeaderLine, Column, TwoDigits, ParseDigits;
    if i == 2 {
      HeaderLineReads(f.shown, f.devices, f.loopStart, |f.slots|);
    } else if 3 <= i < |f.slots| + 3 {
      var slot := f.slots[i - 3];
      assert WellFormedSlot(slot, f.devices);
      SlotLineReads(i - 3, slot.hold, slot.fade, slot.columns, 0);
    }
  }

  lemma MultipleIsMultiple()
    ensures VersionOf(MULTIPLE + END_OF_LINE).Multiple? && StrictVersion(MULTIPLE + END_OF_LINE).Multiple?
  {
  }

  /** A printed file is read to its end by both readers. */
  lemma FileIsReadable(f: SequenceFile)
    requires WellFormedFile(f)
    ensures LineCount(Printed(f)) == |f.slots| + 3 && IsMultiple(Printed(f)) && !Rejected(Printed(f))
    ensures Readable(Printed(f)) && Streamable(Printed(f))
  {
    var lines := Printed(f);
    forall i | 0 <= i < |lines| ensures Ends(lines[i]) <==> i == |f.slots| + 3 {
      FileLineGoesOn(f, i);
    }
    CountIs(lines, |f.slots| + 3);
    MultipleIsMultiple();
    HeaderLineReads(f.shown, f.devices, f.loopStart, |f.slots|);
  }

  /** What both readers take from a printed header. */
  function FileHeader(f: SequenceFile, blank: bool, id: nat): Header
    requires WellFormedFile(f)
  {
    Header(true, f.devices, id % f.devices + 1, f.loopStart, |f.slots|,
           if blank && |f.slots| - f.loopStart < 76 then |f.slots| - f.loopStart else 76)
  }

  lemma HeaderLineGives(f: SequenceFile, blank: bool, id: Byte)
    requires WellFormedFile(f) && id < 255
    ensures HasDevices(FileLine(f, 2)) && ReadHeader(FileLine(f, 2), true, blank, id) == FileHeader(f, blank, id)
  {
    hide HeaderLine, TwoDigits, ParseDigits, CharAt;
    HeaderLineReads(f.shown, f.devices, f.loopStart, |f.slots|);
    WrapIsModulo(id, f.devices);
  }

  lemma FileHeaderReads(f: SequenceFile, blank: bool, id: Byte)
    requires WellFormedFile(f) && id < 255
    ensures Readable(Printed(f)) && Streamable(Printed(f)) && LineCount(Printed(f)) == |f.slots| + 3
    ensures HeaderBefore(Printed(f), |f.slots| + 3, blank, id) == FileHeader(f, blank, id)
    ensures StreamHeader(Printed(f), id) == FileHeader(f, false, id)
  {
    FileIsReadable(f);
    MultipleIsMultiple();
    HeaderLineGives(f, blank, id);
    HeaderLineGives(f, false, id);
  }

  /** A file slot as a device stores it that shows column d. */
  function SlotBytes(slot: FileSlot, d: nat): seq<Byte>
    requires d < |slot.columns| && |slot.columns[d]| >= 3
  {
    ColorBytes(slot.columns[d], false) + [TimeByte(slot.hold, slot.fade)]
  }

  /** Each slot line, short or shifted, gives a device its column, hold and fade. */
  lemma SlotLineGives(slot: FileSlot, devices: nat, s: nat, d: nat)
    requires WellFormedSlot(slot, devices) && d < devices && s < 1000
    ensures |slot.columns[d]| == 24
    ensures var line, o := SlotLine(s, slot.hold, slot.fade, slot.columns), StreamShift(s + 3);
            && Column(line, d + 1, o) == slot.columns[d]
            && CharAt(line, 8 + o) == slot.hold && CharAt(line, 10 + o) == slot.fade
            && SlotOf(line, d + 1, o) == SlotBytes(slot, d)
  {
    hide ColorBytes, TimeByte, SlotLine, Column, ColumnDigits;
    var column := slot.columns[d];
    assert column in slot.columns;
    SlotLineReads(s, slot.hold, slot.fade, slot.columns, d);
    HexColumn(column);
    SlotOfParts(SlotLine(s, slot.hold, slot.fade, slot.columns), d, StreamShift(s + 3), column, slot.hold, slot.fade);
  }

  /** Line s + 3 of a printed file holds slot s. */
  lemma PrintedSlot(f: SequenceFile, s: nat)
    requires WellFormedFile(f) && s < |f.slots|
    ensures WellFormedSlot(f.slots[s], f.devices)
    ensures Printed(f)[s + 3] == SlotLine(s, f.slots[s].hold, f.slots[s].fade, f.slots[s].columns)
  {
    hide SlotLine, HeaderLine;
  }

  /** Device slot k after an upload is file slot loopStart + k, in column id modulo
      the file's devices; past the file's last slot it is untouched. */
  predicate FromFile(f: SequenceFile, id: nat, k: nat, before: seq<Byte>, after: seq<Byte>)
    requires WellFormedFile(f)
  {
    if f.loopStart + k < |f.slots| then
      var slot, d := f.slots[f.loopStart + k], id % f.devices;
      assert WellFormedSlot(slot, f.devices) && slot.columns[d] in slot.columns;
      after == SlotBytes(slot, d)
    else after == before
  }

  /** The lines upload loads from a printed file, and where it shifts. */
  lemma LinesOfFile(f: SequenceFile, blank: bool, id: Byte, k: nat)
    requires WellFormedFile(f) && k < SLOTS
    ensures var h, s := FileHeader(f, blank, id), f.loopStart + k;
            && h.deviceNum == id % f.devices + 1 && h.loopStart == f.loopStart
            && (s < |f.slots| ==> k < h.toLoad && Shift(h, s + 3) == StreamShift(s + 3))
  {
  }

  lemma SlotOfFile(f: SequenceFile, blank: bool, id: Byte, k: nat, before: seq<Byte>, after: seq<Byte>)
    requires WellFormedFile(f) && k < SLOTS
    requires SlotAfter(Printed(f), FileHeader(f, blank, id), |f.slots| + 3, k, before, after)
    ensures FromFile(f, id, k, before, after)
  {
    hide ColorBytes, TimeByte, SlotLine, ColumnDigits, Column, SlotBytes, SlotOf;
    hide FileHeader, Shift, StreamShift, Printed, FileLine;
    var s := f.loopStart + k;
    if s < |f.slots| {
      PrintedSlot(f, s);
      SlotLineGives(f.slots[s], f.devices, s, id % f.devices);
    }
    LinesOfFile(f, blank, id, k);
  }

  lemma UploadOfFile(f: SequenceFile, blank: bool, id: Byte, before: seq<seq<Byte>>, after: seq<seq<Byte>>)
    requires WellFormedFile(f) && |before| == |after| == SLOTS
    requires SlotsAfter(Printed(f), FileHeader(f, blank, id), |f.slots| + 3, before, after)
    ensures forall k | 0 <= k < SLOTS :: FromFile(f, id, k, before[k], after[k])
  {
    forall k | 0 <= k < SLOTS ensures FromFile(f, id, k, before[k], after[k]) {
      assert SlotAfter(Printed(f), FileHeader(f, blank, id), |f.slots| + 3, k, before[k], after[k]);
      SlotOfFile(f, blank, id, k, before[k], after[k]);
    }
  }

  lemma ActiveOfFile(f: SequenceFile, blank: bool, id: nat)
    requires WellFormedFile(f)
    ensures var h := FileHeader(f, blank, id);
            MakeActive((h.active - h.loopStart) % 256) == if |f.slots| - f.loopStart < 76 then |f.slots| - f.loopStart else 76
  {
  }

  /** A device programmed from a printed file. */
  predicate Programmed(f: SequenceFile, id: nat, before: Memory, after: Memory)
    requires WellFormedFile(f) && WellFormed(before) && WellFormed(after)
  {
    && after.active == (if |f.slots| - f.loopStart < 76 then |f.slots| - f.loopStart else 76)
    && after.playing && after.name == before.name
    && forall k | 0 <= k < SLOTS :: FromFile(f, id, k, before.slots[k], after.slots[k])
  }

  lemma ProgrammedBy(f: SequenceFile, blank: bool, id: Byte, before: Memory, after: Memory)
    requires WellFormedFile(f) && WellFormed(before) && WellFormed(after)
    requires var h := FileHeader(f, blank, id);
             after == Darkened(before).(playing := true, slots := after.slots,
                                        active := MakeActive((h.active - h.loopStart) % 256))
    requires SlotsAfter(Printed(f), FileHeader(f, blank, id), |f.slots| + 3, before.slots, after.slots)
    ensures Programmed(f, id, before, after)
  {
    ActiveOfFile(f, blank, id);
    UploadOfFile(f, blank, id, before.slots, after.slots);
  }

  lemma UploadPrograms(f: SequenceFile, blank: bool, id: Byte, before: Memory, after: Memory)
    requires WellFormedFile(f) && id < 255 && WellFormed(before) && WellFormed(after)
    requires Readable(Printed(f)) && Uploaded(Printed(f), blank, id, before, after)
    ensures Programmed(f, id, before, after)
  {
    hide SlotsAfter, MakeActive, ReadHeader, WellFormedFile;
    FileIsReadable(f);
    FileHeaderReads(f, blank, id);
    ProgrammedBy(f, blank, id, before, after);
  }

  /** Programming a device from a printed file, in either mode. */
  method UploadFile(p: PlasmaTrim, f: SequenceFile, blank: bool, id: Byte)
    requires p.Valid() && WellFormedFile(f) && id < 255
    modifies p
    ensures p.Valid() && Programmed(f, id, old(p.memory), p.memory)
  {
    FileIsReadable(f);
    var _ := Upload(p, Printed(f), blank, id);
    UploadPrograms(f, blank, id, old(p.memory), p.memory);
  }

  /** Slot s of the file in its stream: colour and hold in place, fade one place on. */
  predicate InStream(f: SequenceFile, id: nat, r: Stream, s: nat)
    requires WellFormedFile(f) && s < |f.slots| == |r.slot| == |r.hold| == |r.fade|
  {
    assert WellFormedSlot(f.slots[s], f.devices);
    && r.slot[s] == f.slots[s].columns[id % f.devices] && r.hold[s] == f.slots[s].hold
    && r.fade[NextPlace(s, |f.slots|)] == f.slots[s].fade
  }

  lemma SlotInStream(f: SequenceFile, id: Byte, r: Stream, s: nat)
    requires WellFormedFile(f) && s < |f.slots| == |r.slot| == |r.hold| == |r.fade|
    requires StreamedSlot(Printed(f), FileHeader(f, false, id), r, s)
    ensures InStream(f, id, r, s)
  {
    hide ColorBytes, TimeByte, SlotLine, ColumnDigits, Column, SlotOf, SlotBytes, Printed, FileLine, StreamShift;
    PrintedSlot(f, s);
    SlotLineGives(f.slots[s], f.devices, s, id % f.devices);
  }

  /** The stream of a printed file: its colours and holds, and its fades moved on by one. */
  lemma StreamOfFile(f: SequenceFile, id: Byte, r: Stream)
    requires WellFormedFile(f) && Streamed(Printed(f), FileHeader(f, false, id), r)
    ensures |r.slot| == |r.hold| == |r.fade| == |f.slots| && r.loopStart == f.loopStart
    ensures forall s | 0 <= s < |f.slots| :: InStream(f, id, r, s)
  {
    hide InStream, StreamedSlot;
    forall s | 0 <= s < |f.slots| ensures InStream(f, id, r, s) {
      assert StreamedSlot(Printed(f), FileHeader(f, false, id), r, s);
      SlotInStream(f, id, r, s);
    }
  }

  /** The slot bytes that the streamed characters of slot s stand for. */
  function StreamedBytes(r: Stream, s: nat): seq<Byte>
    requires s < |r.slot| == |r.hold| == |r.fade| && |r.slot[s]| == 24
  {
    ColorBytes(r.slot[s], false) + [TimeByte(r.hold[s], r.fade[NextPlace(s, |r.slot|)])]
  }

  predicate SameSlot(r: Stream, k: nat, before: seq<Byte>, after: seq<Byte>)
    requires |r.slot| == |r.hold| == |r.fade| && forall s | 0 <= s < |r.slot| :: |r.slot[s]| == 24
  {
    after == if r.loopStart + k < |r.slot| then StreamedBytes(r, r.loopStart + k) else before
  }

  /** A stream and a device memory tell the same: each slot programmed is the slot
      the stream would play, once the stream's fade times are taken one place on. */
  predicate SameSequence(r: Stream, before: Memory, after: Memory)
    requires WellFormed(before) && WellFormed(after)
  {
    && |r.slot| == |r.hold| == |r.fade| && (forall s | 0 <= s < |r.slot| :: |r.slot[s]| == 24)
    && forall k | 0 <= k < SLOTS :: SameSlot(r, k, before.slots[k], after.slots[k])
  }

  lemma SlotAgrees(f: SequenceFile, id: Byte, r: Stream, k: nat, before: seq<Byte>, after: seq<Byte>)
    requires WellFormedFile(f) && |f.slots| == |r.slot| == |r.hold| == |r.fade| && r.loopStart == f.loopStart
    requires forall s | 0 <= s < |r.slot| :: |r.slot[s]| == 24
    requires f.loopStart + k < |f.slots| ==> InStream(f, id, r, f.loopStart + k)
    requires FromFile(f, id, k, before, after)
    ensures SameSlot(r, k, before, after)
  {
    hide ColorBytes, TimeByte;
  }

  lemma StreamedColumnsAreLong(f: SequenceFile, id: Byte, r: Stream)
    requires WellFormedFile(f) && |f.slots| == |r.slot| == |r.hold| == |r.fade|
    requires forall s | 0 <= s < |f.slots| :: InStream(f, id, r, s)
    ensures forall s | 0 <= s < |r.slot| :: |r.slot[s]| == 24
  {
    forall s | 0 <= s < |r.slot| ensures |r.slot[s]| == 24 {
      assert WellFormedSlot(f.slots[s], f.devices) && InStream(f, id, r, s);
      assert r.slot[s] in f.slots[s].columns;
    }
  }

  /** The two readers agree on every printed file. */
  lemma ReadersAgree(f: SequenceFile, id: Byte, r: Stream, before: Memory, after: Memory)
    requires WellFormedFile(f) && WellFormed(before) && WellFormed(after)
    requires Streamed(Printed(f), FileHeader(f, false, id), r)
    requires Programmed(f, id, before, after)
    ensures SameSequence(r, before, after)
  {
    hide InStream, FromFile, SameSlot, Streamed, Printed, FileHeader;
    StreamOfFile(f, id, r);
    StreamedColumnsAreLong(f, id, r);
    forall k | 0 <= k < SLOTS ensures SameSlot(r, k, before.slots[k], after.slots[k]) {
      SlotAgrees(f, id, r, k, before.slots[k], after.slots[k]);
    }
  }

  /** Reads one file both ways. */
  method ReadBothWays(p: PlasmaTrim, f: SequenceFile, blank: bool, id: Byte) returns (r: Stream)
    requires p.Valid() && WellFormedFile(f) && id < 255
    modifies p
    ensures p.Valid() && SameSequence(r, old(p.memory), p.memory)
  {
    FileIsReadable(f);
    FileHeaderReads(f, blank, id);
    MultipleIsMultiple();
    var read := ReadStream(Printed(f), id);
    r := read.value;
    UploadFile(p, f, blank, id);
    ReadersAgree(f, id, r, old(p.memory), p.memory);
  }
}
