/** Sequences that go through the server: what its download commands send, and
    what sending them back does. */
module ServerSequences {
  import opened Prelude
  import opened Device
  import opened Sequence
  import opened SequenceCopy
  import opened SequenceMultiple
  import opened SequenceLineEnds
  import opened ServerTable
  import opened ServerTheorems

  lemma DownloadedText(m: Memory, text: seq<string>, j: nat)
    requires WellFormed(m) && DownloadsTo(m, true, text, DownloadLength(m, true)) && j < DownloadLength(m, true)
    ensures j < DownloadLength(m, true) <= |text| && text[j] == DownloadedLine(m, true, j) && |text[j]| >= 2
    ensures if j == DownloadLength(m, true) - 1 then text[j][0] == '\r' else text[j][0] != '\r' && text[j][0] != '\n'
  {
    hide DownloadedLine;
    LineGoesOn(m, true, j);
    LastLine(m, true);
  }

  /** Sends the lines of a download up to the one that is only a line end. */
  method SendLines(fileData: array<string>, ghost m: Memory) returns (lines: seq<string>)
    requires WellFormed(m) && DownloadsTo(m, true, fileData[..], DownloadLength(m, true))
    ensures lines == SentLines(m, true)
  {
    hide DownloadsTo, DownloadedLine;
    ghost var text := fileData[..];
    var j := 0;
    lines := [];
    DownloadedText(m, text, 0);
    while fileData[j][0] != '\r' && fileData[j][0] != '\n'
      invariant j < DownloadLength(m, true) <= fileData.Length && lines == SentLines(m, true)[..j]
      invariant fileData[j] == text[j] == DownloadedLine(m, true, j) && |text[j]| >= 2
      invariant j < DownloadLength(m, true) - 1 <==> text[j][0] != '\r' && text[j][0] != '\n'
      decreases DownloadLength(m, true) - j
    {
      lines := lines + [fileData[j][..|fileData[j]| - 2]];
      j := j + 1;
      DownloadedText(m, text, j);
    }
  }

  /** What the server does with sequences for a client that may use the device. */
  lemma SequenceReplies(d: Slot, output: int)
    requires Permitted(d, output)
    ensures forall full :: RunThread(d, Download(full), output) == (d, SequenceLines(SentLines(d.unit, true)))
    ensures forall file: File, full, id: Place ::
              RunThread(d, Upload(file, full, id), output)
              == (UploadedTo(d, file, full, id), if Rejected(file) then UploadError else UploadSuccess)
  {
    hide SentLines, UploadedTo, WellFormed, Readable, Rejected;
  }

  /** The server answers full_download with the short download. Its client gets the
      full one it asked for exactly when nothing is hidden behind the active slots. */
  lemma FullDownloadExactly(d: Slot, output: int)
    requires Permitted(d, output)
    ensures RunThread(d, Download(true), output).1 == SequenceLines(SentLines(d.unit, false)) <==>
            NothingHidden(d.unit)
  {
    hide RunThread, SentLines, Downloaded, NothingHidden;
    SequenceReplies(d, output);
    SentLinesDetermine(d.unit, true, false);
    ShortIsFullExactly(d.unit);
  }

  /** A lit slot behind the active ones does not reach the client. */
  lemma LitSlotIsHidden(d: Slot, output: int, slot: seq<Byte>)
    requires Permitted(d, output) && |slot| == SLOT_LENGTH && slot != NO_LIGHT
    ensures var m := NoMemory().(active := 1, slots := NoMemory().slots[1 := slot]);
            && WellFormed(m)
            && RunThread(d.(unit := m), Download(true), output).1 != SequenceLines(SentLines(m, false))
  {
    var m := NoMemory().(active := 1, slots := NoMemory().slots[1 := slot]);
    assert m.slots[1] == slot && !NothingHidden(m);
    FullDownloadExactly(d.(unit := m), output);
  }

  /** The text that a client gets and sends back: the lines lost their ends on the
      way, and an empty line follows. */
  function SentBack(m: Memory): seq<string>
    requires WellFormed(m)
  {
    SentLines(m, true) + [""]
  }

  lemma SentLinesKnown(m: Memory)
    requires WellFormed(m) && 1 <= m.active <= SLOTS
    ensures Readable(SentBack(m)) && !Rejected(SentBack(m))
  {
    hide SentLines, Downloaded, FieldsInside;
    SentLinesAreBare(m, true);
    DownloadFieldsInside(m, true, false, 0);
    BareIsReadable(Downloaded(m, true), false, 0);
    DownloadIsReadable(Downloaded(m, true), m, true);
  }

  lemma SentBackIsAccepted(d: Slot, output: int, full: bool, id: Place)
    requires Permitted(d, output) && 1 <= d.unit.active <= SLOTS
    ensures Readable(SentBack(d.unit))
    ensures var (after, reply) := RunThread(d, Upload(SentBack(d.unit), full, id), output);
            && reply == UploadSuccess && after == d.(unit := after.unit)
            && CopyOf(d.unit, true, !full, d.unit, after.unit)
  {
    hide RunThread, SentLines, AfterUpload, CopyOf, Readable, Rejected;
    SentLinesCopy(d.unit, true, !full, id, d.unit);
    SequenceReplies(d, output);
    SentLinesKnown(d.unit);
  }

  /** A client that sends the server's download back is told that it worked. With
      full_upload it restores the unit's sequence exactly when nothing is hidden and
      all active times are decimal digits; with upload, when all active times are. */
  lemma SentBackExactly(d: Slot, output: int, full: bool, id: Place)
    requires Permitted(d, output) && 1 <= d.unit.active <= SLOTS
    ensures Readable(SentBack(d.unit))
    ensures var (after, reply) := RunThread(d, Upload(SentBack(d.unit), full, id), output);
            && reply == UploadSuccess && after.unit.active == d.unit.active && after.unit.playing
            && (after.unit.slots == d.unit.slots <==>
                && (full ==> NothingHidden(d.unit))
                && forall k | 0 <= k < d.unit.active :: DecimalTimes(d.unit.slots[k]))
  {
    hide RunThread, SentBack, AfterUpload, NO_LIGHT, DecimalTimes;
    SentBackIsAccepted(d, output, full, id);
    var after := RunThread(d, Upload(SentBack(d.unit), full, id), output).0;
    CopyExactly(d.unit, true, !full, d.unit, after.unit);
  }

  lemma BareFileIsKnown(f: SequenceFile)
    requires WellFormedFile(f)
    ensures Readable(BareLines(Printed(f))) && !Rejected(BareLines(Printed(f)))
  {
    hide WellFormedFile, FieldsInside, Printed;
    FileIsReadable(f);
    FileFieldsInside(f, false, 0);
    BareIsReadable(Printed(f), false, 0);
  }

  /** A file for several devices, sent through the server: the device in place id of
      those selected is programmed with its own column. */
  lemma FilePrograms(d: Slot, output: int, f: SequenceFile, full: bool, id: Place)
    requires Permitted(d, output) && WellFormedFile(f)
    ensures Readable(BareLines(Printed(f)))
    ensures var (after, reply) := RunThread(d, Upload(BareLines(Printed(f)), full, id), output);
            reply == UploadSuccess && Programmed(f, id, d.unit, after.unit)
  {
    hide RunThread, Programmed, AfterUpload, BareLines, Printed, Readable, Rejected, WellFormed, WellFormedFile;
    BareFilePrograms(f, !full, id, d.unit);
    SequenceReplies(d, output);
    BareFileIsKnown(f);
  }
}
