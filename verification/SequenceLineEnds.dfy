/** Files whose lines have lost their line ends, as all that reach the server
    have: upload reads them like the files they came from. */
module SequenceLineEnds {
  import opened Prelude
  import opened Device
  import opened Color
  import opened SequenceText
  import opened Sequence
  import opened SequenceCopy
  import opened SequenceMultiple

  predicate Ended(line: string) { |line| >= 2 && line[|line| - 2..] == END_OF_LINE }

  function Bare(line: string): string { if Ended(line) then line[..|line| - 2] else line }

  function BareLines(lines: seq<string>): (r: seq<string>)
    ensures |r| == |lines| && forall n | 0 <= n < |r| :: r[n] == Bare(lines[n])
  {
    seq(|lines|, n requires 0 <= n < |lines| => Bare(lines[n]))
  }

  lemma VersionsAreBare()
    ensures !Ended(SIMPLE) && !Ended(MULTIPLE)
  {
  }

  /** upload takes a version line with or without its line end. */
  lemma VersionWithoutEnd(line: string)
    requires !Ended(line)
    ensures VersionOf(line + END_OF_LINE) == VersionOf(line)
    ensures VersionOf(SIMPLE) == Simple && VersionOf(MULTIPLE) == Multiple
  {
    VersionsAreBare();
    SimpleIsSimple();
    MultipleIsMultiple();
    var ended := line + END_OF_LINE;
    assert Ended(ended) && ended[..|line|] == line;
    assert (SIMPLE + END_OF_LINE)[..|SIMPLE|] == SIMPLE && (MULTIPLE + END_OF_LINE)[..|MULTIPLE|] == MULTIPLE;
    assert |SIMPLE| != |MULTIPLE|;
  }

  /** streamData takes it only with its line end. */
  lemma StreamNeedsEnd(line: string)
    ensures StrictVersion(line) == if Ended(line) then VersionOf(line) else Unknown
  {
    VersionsAreBare();
  }

  lemma {:induction false} ParseIgnoresEnd(line: string, i: nat, acc: Byte)
    requires Ended(line)
    ensures ParseDigits(line, i, acc) == ParseDigits(Bare(line), i, acc)
    decreases |line| - i
  {
    if i < |line| - 2 && IsDigit(line[i]) {
      ParseIgnoresEnd(line, i + 1, (acc * 10 + (line[i] as int - 48)) % 256);
    } else if |line| - 2 <= i < |line| {
      assert line[i] == line[|line| - 2..][i - (|line| - 2)];
    }
  }

  lemma SameHeader(line: string, multi: bool, blank: bool, id: Byte)
    requires Ended(line) && |line| >= (if multi then 56 else 18) && id < 255
    ensures HasDevices(Bare(line)) == HasDevices(line) || !multi
    ensures multi ==> HasDevices(line) ==> ReadHeader(Bare(line), multi, blank, id) == ReadHeader(line, multi, blank, id)
    ensures !multi ==> ReadHeader(Bare(line), multi, blank, id) == ReadHeader(line, multi, blank, id)
  {
    hide WrapDevice, ParseDigits;
    ParseIgnoresEnd(line, 80, 0);
  }

  lemma SameSlot(line: string, deviceNum: nat, o: nat)
    requires deviceNum >= 1 && |Bare(line)| >= 38 + 27 * (deviceNum - 1) + o
    ensures SlotOf(Bare(line), deviceNum, o) == SlotOf(line, deviceNum, o)
  {
    hide ColumnDigits, ColorBytes, TimeByte;
    forall i | 0 <= i < 24 ensures Column(Bare(line), deviceNum, o)[i] == Column(line, deviceNum, o)[i] {
      var at := 14 + i + 27 * (deviceNum - 1) + o;
      assert at < |Bare(line)| <= |line| && Bare(line)[at] == line[at];
      assert Column(line, deviceNum, o)[i] == CharAt(line, at);
      assert Column(Bare(line), deviceNum, o)[i] == CharAt(Bare(line), at);
    }
    assert Column(Bare(line), deviceNum, o) == Column(line, deviceNum, o);
    assert |Bare(line)| >= 38 + o;
    assert CharAt(Bare(line), 8 + o) == CharAt(line, 8 + o) && CharAt(Bare(line), 10 + o) == CharAt(line, 10 + o);
  }

  /** Nothing that upload looks at lies in a line end. */
  predicate FieldsInside(lines: seq<string>, blank: bool, id: Byte)
    requires Readable(lines) && id < 255
  {
    var h := HeaderBefore(lines, LineCount(lines), blank, id);
    && h.deviceNum >= 1
    && forall n | 0 <= n < LineCount(lines) ::
         && Ended(lines[n]) && |lines[n]| > 2
         && (n == 1 ==> !Ended(Bare(lines[n])))
         && (n == 2 ==> |lines[n]| >= if IsMultiple(lines) then 56 else 18)
         && (n > 2 ==> |Bare(lines[n])| >= 38 + 27 * (h.deviceNum - 1) + Shift(h, n))
  }

  lemma BareIsReadable(lines: seq<string>, blank: bool, id: Byte)
    requires Readable(lines) && id < 255 && FieldsInside(lines, blank, id)
    ensures LineCount(BareLines(lines)) == LineCount(lines)
    ensures IsMultiple(BareLines(lines)) == IsMultiple(lines) && Rejected(BareLines(lines)) == Rejected(lines)
    ensures Readable(BareLines(lines))
  {
    hide VersionOf, HeaderBefore, TwoDigits, Shift;
    var n, bare := LineCount(lines), BareLines(lines);
    forall k | 0 <= k < n ensures !Ends(bare[k]) { assert bare[k][0] == lines[k][0]; }
    CountIs(bare, n);
    if n > 1 {
      assert lines[1] == Bare(lines[1]) + END_OF_LINE;
      VersionWithoutEnd(Bare(lines[1]));
    }
    if n > 2 { SameHeader(lines[2], IsMultiple(lines), blank, id); }
  }

  lemma SameLoaded(lines: seq<string>, blank: bool, id: Byte, k: nat, before: seq<Byte>)
    requires Readable(lines) && id < 255 && FieldsInside(lines, blank, id)
    ensures var h, n := HeaderBefore(lines, LineCount(lines), blank, id), LineCount(lines);
            Loaded(BareLines(lines), h, n, k, before) == Loaded(lines, h, n, k, before)
  {
    hide SlotOf, HeaderBefore, Bare, Shift;
    var h, n := HeaderBefore(lines, LineCount(lines), blank, id), LineCount(lines);
    var line := k + 3 + h.loopStart;
    if k < h.toLoad && line < n { SameSlot(lines[line], h.deviceNum, Shift(h, line)); }
  }

  /** A file means the same to upload without its line ends. */
  lemma LineEndsDoNotMatter(lines: seq<string>, blank: bool, id: Byte, m: Memory)
    requires Readable(lines) && id < 255 && WellFormed(m) && FieldsInside(lines, blank, id)
    ensures Readable(BareLines(lines))
    ensures AfterUpload(BareLines(lines), blank, id, m) == AfterUpload(lines, blank, id, m)
  {
    hide Loaded, Shift, Bare, ReadHeader, Rejected, IsMultiple;
    var n, bare := LineCount(lines), BareLines(lines);
    BareIsReadable(lines, blank, id);
    if n > 2 { SameHeader(lines[2], IsMultiple(lines), blank, id); }
    assert HeaderBefore(bare, n, blank, id) == HeaderBefore(lines, n, blank, id);
    forall k: nat | k < SLOTS
      ensures var h := HeaderBefore(lines, n, blank, id);
              Loaded(bare, h, n, k, m.slots[k]) == Loaded(lines, h, n, k, m.slots[k])
    {
      SameLoaded(lines, blank, id, k, m.slots[k]);
    }
  }

  // ------------------------------------------------------- downloads and files

  lemma SlotLineEnds(k: nat, hold: char, fade: char, columns: seq<string>)
    requires k < 1000 && columns != [] && (forall c <- columns :: |c| == 24)
    ensures var line, o := SlotLine(k, hold, fade, columns), if k < 100 then 0 else 1;
            && Ended(line) && |Bare(line)| == 11 + o + 27 * |columns|
  {
    hide Join, SlotPrefix;
    JoinLength(columns);
    SlotPrefixShape(k, hold, fade);
  }

  /** The lines of a short download to a unit, as they are sent: no line ends. */
  lemma SentLinesAreBare(m: Memory, blank: bool)
    requires WellFormed(m)
    ensures SentLines(m, blank) + [""] == BareLines(Downloaded(m, blank))
  {
    hide DownloadedLine;
    var lines := Downloaded(m, blank);
    LastLine(m, blank);
    forall n | 0 <= n < |lines| ensures (SentLines(m, blank) + [""])[n] == Bare(lines[n]) {
      LineHasEnd(m, blank, n);
      assert lines[n] == Trimmed(lines[n]) + END_OF_LINE;
      assert Ended(lines[n]);
    }
  }

  /** Line n of a download has its fields in front of its end. */
  predicate DownloadLineOk(line: string, n: nat) {
    && Ended(line) && |line| > 2 && (n == 1 ==> !Ended(Bare(line)))
    && (n == 2 ==> |line| >= 18) && (n > 2 ==> |Bare(line)| >= 38)
  }

  lemma EndedByEnd(line: string)
    ensures Ended(line + END_OF_LINE) && Bare(line + END_OF_LINE) == line
  {
  }

  lemma HeaderLinesOk(active: Byte)
    requires active < 100
    ensures DownloadLineOk(TITLE, 0) && DownloadLineOk(SIMPLE + END_OF_LINE, 1)
    ensures DownloadLineOk("Active Slots: " + Decimal2(active) + END_OF_LINE, 2)
  {
    VersionsAreBare();
    EndedByEnd(SIMPLE);
    EndedByEnd("Active Slots: " + Decimal2(active));
    assert |"Active Slots: "| == 14;
  }

  lemma SlotLineOk(n: nat, hold: char, fade: char, column: string)
    requires 3 <= n < 1000 && |column| == 24
    ensures DownloadLineOk(SlotLine(n - 3, hold, fade, [column]), n)
  {
    SlotLineEnds(n - 3, hold, fade, [column]);
  }

  lemma DownloadLineInside(m: Memory, short: bool, n: nat)
    requires WellFormed(m) && 1 <= m.active <= SLOTS && n < 79
    ensures DownloadLineOk(DownloadedLine(m, short, n), n)
  {
    hide SlotLine, DownloadLineOk, Decimal2, SlotRead;
    HeaderLinesOk(m.active);
    if n >= 3 {
      hide HoldDigit, FadeDigit, Hex;
      var slot := SlotRead(m, n - 3);
      SlotLineOk(n, HoldDigit(slot), FadeDigit(slot), Hex(slot[..12]));
      SlotLineOk(n, '0', '0', BLACK);
    }
  }

  lemma DownloadFieldsInside(m: Memory, short: bool, blank: bool, id: Byte)
    requires WellFormed(m) && 1 <= m.active <= SLOTS && id < 255
    ensures Readable(Downloaded(m, short)) && FieldsInside(Downloaded(m, short), blank, id)
  {
    hide DownloadedLine, SlotLine, HeaderBefore, IsMultiple, LineCount;
    var lines := Downloaded(m, short);
    DownloadIsReadable(lines, m, short);
    HeaderReads(lines, m, short, blank, id);
    forall n | 0 <= n < 79
      ensures Ended(lines[n]) && |lines[n]| > 2 && (n == 1 ==> !Ended(Bare(lines[n])))
      ensures n == 2 ==> |lines[n]| >= 18
      ensures n > 2 ==> |Bare(lines[n])| >= 38
    {
      DownloadLineInside(m, short, n);
    }
  }

  lemma HeaderLineEnds(shown: nat, devices: nat, loopStart: nat, active: nat)
    ensures Ended(HeaderLine(shown, devices, loopStart, active))
  {
  }

  lemma FileLineInside(f: SequenceFile, blank: bool, id: Byte, n: nat)
    requires WellFormedFile(f) && id < 255 && n < |f.slots| + 3
    ensures var line, h := FileLine(f, n), FileHeader(f, blank, id);
            && Ended(line) && |line| > 2 && (n == 1 ==> !Ended(Bare(line))) && (n == 2 ==> |line| >= 56)
            && (n > 2 ==> |Bare(line)| >= 38 + 27 * (h.deviceNum - 1) + Shift(h, n))
  {
    hide SlotLine, HeaderLine;
    VersionsAreBare();
    if n == 2 {
      HeaderLineShape(f.shown, f.devices, f.loopStart, |f.slots|);
      HeaderLineEnds(f.shown, f.devices, f.loopStart, |f.slots|);
    } else if n > 2 {
      var slot := f.slots[n - 3];
      assert WellFormedSlot(slot, f.devices);
      SlotLineEnds(n - 3, slot.hold, slot.fade, slot.columns);
    }
  }

  lemma FileFieldsInside(f: SequenceFile, blank: bool, id: Byte)
    requires WellFormedFile(f) && id < 255
    ensures Readable(Printed(f)) && FieldsInside(Printed(f), blank, id)
  {
    hide FileLine, SlotLine, HeaderBefore, LineCount;
    FileHeaderReads(f, blank, id);
    FileIsReadable(f);
    var lines, h := Printed(f), FileHeader(f, blank, id);
    forall n | 0 <= n < |f.slots| + 3
      ensures Ended(lines[n]) && |lines[n]| > 2 && (n == 1 ==> !Ended(Bare(lines[n])))
      ensures n == 2 ==> |lines[n]| >= 56
      ensures n > 2 ==> |Bare(lines[n])| >= 38 + 27 * (h.deviceNum - 1) + Shift(h, n)
    {
      FileLineInside(f, blank, id, n);
    }
  }

  /** A printed file programs a device without its line ends just as with them. */
  lemma BareFilePrograms(f: SequenceFile, blank: bool, id: Byte, m: Memory)
    requires WellFormedFile(f) && id < 255 && WellFormed(m)
    ensures Readable(BareLines(Printed(f))) && Programmed(f, id, m, AfterUpload(BareLines(Printed(f)), blank, id, m))
  {
    hide Programmed, AfterUpload, FieldsInside, Printed, Uploaded, WellFormed, Readable;
    FileFieldsInside(f, blank, id);
    LineEndsDoNotMatter(Printed(f), blank, id, m);
    var after := AfterUpload(Printed(f), blank, id, m);
    UploadedExactly(Printed(f), blank, id, m, after);
    UploadPrograms(f, blank, id, m, after);
  }

  /** What was sent of a download copies a sequence like the download itself. */
  lemma SentLinesCopy(m: Memory, shortGet: bool, shortPut: bool, id: Byte, before: Memory)
    requires WellFormed(m) && WellFormed(before) && 1 <= m.active <= SLOTS && id < 255
    ensures Readable(SentLines(m, shortGet) + [""])
    ensures CopyOf(m, shortGet, shortPut, before, AfterUpload(SentLines(m, shortGet) + [""], shortPut, id, before))
  {
    hide AfterUpload, FieldsInside, Downloaded, SentLines, Uploaded, CopyOf, WellFormed, Readable;
    var lines := Downloaded(m, shortGet);
    SentLinesAreBare(m, shortGet);
    DownloadFieldsInside(m, shortGet, shortPut, id);
    LineEndsDoNotMatter(lines, shortPut, id, before);
    var after := AfterUpload(lines, shortPut, id, before);
    UploadedExactly(lines, shortPut, id, before, after);
    UploadOfDownload(lines, m, shortGet, shortPut, id, before, after);
  }
}
