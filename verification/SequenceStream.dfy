/** Streaming a downloaded sequence: the stream plays what the device holds. */
module SequenceStream {
  import opened Prelude
  import opened Device
  import opened Color
  import opened SequenceText
  import opened Sequence
  import opened SequenceCopy
  import opened SequenceMultiple

  /** Slot s of the stream is the device's slot s, its fade time one place on. */
  predicate Plays(m: Memory, r: Stream, s: nat)
    requires WellFormed(m) && s < |r.slot| == |r.hold| == |r.fade| && s < SLOTS
  {
    && r.slot[s] == Hex(m.slots[s][..12])
    && IsHex(r.hold[s]) && HexValue(r.hold[s]) == m.slots[s][12] / 16
    && IsHex(r.fade[NextPlace(s, |r.fade|)]) && HexValue(r.fade[NextPlace(s, |r.fade|)]) == m.slots[s][12] % 16
  }

  lemma SimpleLineIsSimple()
    ensures StrictVersion(SIMPLE + END_OF_LINE) == Simple
  {
    SimpleIsSimple();
  }

  lemma DownloadStreams(m: Memory, short: bool, id: Byte)
    requires WellFormed(m) && 1 <= m.active <= SLOTS && id < 255
    ensures Streamable(Downloaded(m, short)) && !StrictVersion(Downloaded(m, short)[1]).Unknown?
    ensures var h := StreamHeader(Downloaded(m, short), id);
            h.active == m.active && h.deviceNum == 1 && h.loopStart == 0
  {
    hide DownloadedSlot, BlankSlot, TwoDigits, Decimal2;
    var lines := Downloaded(m, short);
    SimpleLineIsSimple();
    ActiveReads(m.active);
    assert lines[1] == SIMPLE + END_OF_LINE && lines[2] == DownloadedLine(m, short, 2);
  }

  lemma StreamedLine(m: Memory, short: bool, s: nat)
    requires WellFormed(m) && s < m.active <= SLOTS
    ensures |Downloaded(m, short)| > s + 3 && Downloaded(m, short)[s + 3] == DownloadedSlot(s, m.slots[s])
  {
    hide DownloadedSlot;
  }

  lemma SlotPlays(m: Memory, short: bool, h: Header, r: Stream, s: nat)
    requires WellFormed(m) && 1 <= m.active <= SLOTS && s < m.active == h.active && h.deviceNum == 1
    requires |r.slot| == |r.hold| == |r.fade| == h.active && StreamedSlot(Downloaded(m, short), h, r, s)
    ensures Plays(m, r, s)
  {
    hide Column, CharAt, Hex, SlotLine, DownloadedLine, NextPlace, HexValue, HexDigit;
    var slot := m.slots[s];
    StreamedLine(m, short, s);
    SlotLineReads(s, HoldDigit(slot), FadeDigit(slot), [Hex(slot[..12])], 0);
  }

  /** streamData finds in a download, full or short, every active slot of the device. */
  lemma StreamOfDownload(m: Memory, short: bool, id: Byte, r: Stream)
    requires WellFormed(m) && 1 <= m.active <= SLOTS && id < 255 && Streamable(Downloaded(m, short))
    requires Streamed(Downloaded(m, short), StreamHeader(Downloaded(m, short), id), r)
    ensures r.loopStart == 0 && |r.slot| == |r.hold| == |r.fade| == m.active
    ensures forall s | 0 <= s < m.active :: Plays(m, r, s)
  {
    hide Plays, StreamedSlot, DownloadedLine;
    var lines, h := Downloaded(m, short), StreamHeader(Downloaded(m, short), id);
    DownloadStreams(m, short, id);
    forall s: nat | s < m.active ensures Plays(m, r, s) {
      assert StreamedSlot(lines, h, r, s);
      SlotPlays(m, short, h, r, s);
    }
  }
}
