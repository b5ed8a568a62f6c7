/** A downloaded sequence uploaded again, to the same device or another. */
module SequenceCopy {
  import opened Prelude
  import opened Device
  import opened Color
  import opened SequenceText
  import opened Sequence

  /** A slot after printing and parsing: its hold and fade digits above 9 are not decoded. */
  function Reread(slot: seq<Byte>): (r: seq<Byte>)
    requires |slot| == SLOT_LENGTH
    ensures |r| == SLOT_LENGTH
  {
    slot[..12] + [TimeByte(HoldDigit(slot), FadeDigit(slot))]
  }

  /** Hold and fade times of at most 9. */
  predicate DecimalTimes(slot: seq<Byte>)
    requires |slot| == SLOT_LENGTH
  {
    slot[12] / 16 <= 9 && slot[12] % 16 <= 9
  }

  lemma TimeByteOfDigits(h: nat, f: nat)
    requires h < 16 && f < 16
    ensures TimeByte(HexDigit(h), HexDigit(f)) == 16 * h + f <==> h <= 9 && f <= 9
  {
    var extra := (if h > 9 then 112 else 0) + (if f > 9 then 7 else 0);
    assert 16 * (HexDigit(h) as int - 48) + HexDigit(f) as int - 48 == 16 * h + f + extra;
  }

  /** A slot survives exactly when both its times are decimal digits. */
  lemma RereadExactly(slot: seq<Byte>)
    requires |slot| == SLOT_LENGTH
    ensures Reread(slot) == slot <==> DecimalTimes(slot)
  {
    var h, f := slot[12] / 16, slot[12] % 16;
    TimeByteOfDigits(h, f);
    assert slot == slot[..12] + [slot[12]];
    assert Reread(slot)[12] == TimeByte(HexDigit(h), HexDigit(f));
    if Reread(slot) == slot {
      assert TimeByte(HexDigit(h), HexDigit(f)) == 16 * h + f;
    }
  }

  const NO_LIGHT: seq<Byte> := [0, 0, 0, 0, 0, 0, 0, 0, 0, 0, 0, 0, 0]

  // -------------------------------------------------- reading downloaded lines

  /** The line buffers begin with a download. */
  predicate Holds(fileData: seq<string>, m: Memory, blank: bool)
    requires WellFormed(m)
  {
    1 <= m.active <= SLOTS && Downloaded(m, blank) <= fileData
  }

  lemma LineIs(fileData: seq<string>, m: Memory, blank: bool, i: nat)
    requires WellFormed(m) && Holds(fileData, m, blank) && i < 80
    ensures |fileData| >= 80 && fileData[i] == DownloadedLine(m, blank, i)
  {
    assert fileData[i] == Downloaded(m, blank)[i];
  }

  lemma SlotLineGoesOn(k: nat, slot: seq<Byte>)
    requires k < 1000 && |slot| == SLOT_LENGTH
    ensures CharAt(DownloadedSlot(k, slot), 0) == 's'
  {
    hide SlotLine, Column, CharAt, Hex;
    SlotLineReads(k, HoldDigit(slot), FadeDigit(slot), [Hex(slot[..12])], 0);
  }

  lemma LineGoesOn(m: Memory, blank: bool, i: nat)
    requires WellFormed(m) && i < DownloadLength(m, blank)
    ensures Ends(DownloadedLine(m, blank, i)) <==> i == DownloadLength(m, blank) - 1
  {
    hide SlotLine, Column, DownloadedSlot, Decimal2;
    if 3 <= i < DownloadLength(m, blank) - 1 {
      if i - 3 < SlotsToGet(m, blank) {
        SlotLineGoesOn(i - 3, SlotRead(m, i - 3));
      } else {
        SlotLineReads(i - 3, '0', '0', [BLACK], 0);
      }
    }
  }

  lemma SimpleIsSimple()
    ensures VersionOf(SIMPLE + END_OF_LINE).Simple?
  {
    assert (SIMPLE + END_OF_LINE)[9] == 'S' && (MULTIPLE + END_OF_LINE)[9] == 'M' && MULTIPLE[9] == 'M';
  }

  lemma DownloadIsReadable(fileData: seq<string>, m: Memory, blank: bool)
    requires WellFormed(m) && Holds(fileData, m, blank)
    ensures LineCount(fileData) == 79 && |fileData| >= 80
    ensures Readable(fileData) && !Rejected(fileData) && !IsMultiple(fileData)
  {
    forall i | 0 <= i < 80 ensures Ends(fileData[i]) <==> i == 79 {
      LineIs(fileData, m, blank, i);
      LineGoesOn(m, blank, i);
    }
    CountIs(fileData, 79);
    LineIs(fileData, m, blank, 1);
    SimpleIsSimple();
  }

  lemma ActiveReads(active: Byte)
    requires active < 100
    ensures TwoDigits("Active Slots: " + Decimal2(active) + END_OF_LINE, 14) == active
  {
    var line := "Active Slots: " + Decimal2(active) + END_OF_LINE;
    assert |"Active Slots: "| == 14;
    assert line[14] == Decimal2(active)[0] && line[15] == Decimal2(active)[1];
    DecimalParses(active);
  }

  /** The header of a download gives back the active count. */
  lemma HeaderReads(fileData: seq<string>, m: Memory, blank: bool, short: bool, id: Byte)
    requires WellFormed(m) && Holds(fileData, m, blank) && id < 255
    ensures LineCount(fileData) == 79 && Readable(fileData)
    ensures HeaderBefore(fileData, 79, short, id)
         == Header(false, 1, 1, 0, m.active, if short then m.active else SLOTS)
  {
    DownloadIsReadable(fileData, m, blank);
    LineIs(fileData, m, blank, 2);
    ActiveReads(m.active);
  }

  lemma DownloadedSlotReads(k: nat, slot: seq<Byte>)
    requires k < SLOTS && |slot| == SLOT_LENGTH
    ensures SlotOf(DownloadedSlot(k, slot), 1, 0) == Reread(slot)
  {
    SlotLineReads(k, HoldDigit(slot), FadeDigit(slot), [Hex(slot[..12])], 0);
    HexIsHex(slot[..12]);
    HexColumn(Hex(slot[..12]));
    CompactPrintParse(slot[..12]);
  }

  lemma BlackDigits(k: nat)
    requires k < 24
    ensures StandardDigit(BLACK, false, k) == '0' && Pair('0', '0') == 0
  {
  }

  lemma BlackIsNoLight()
    ensures ColorBytes(BLACK, false) + [TimeByte('0', '0')] == NO_LIGHT
  {
    hide StandardDigit, Pair;
    forall k | 0 <= k < 12 ensures ColorBytes(BLACK, false)[k] == 0 {
      BlackDigits(2 * k);
      BlackDigits(2 * k + 1);
    }
  }

  lemma BlackIsHex()
    ensures AllHex(BLACK) && |BLACK| == 24
  {
  }

  lemma BlankSlotReads(k: nat)
    requires k < SLOTS
    ensures SlotOf(BlankSlot(k), 1, 0) == NO_LIGHT
  {
    hide SlotOf, Column, ColumnDigits, ColorBytes, TimeByte, SlotLine, CharAt;
    BlackIsHex();
    SlotLineReads(k, '0', '0', [BLACK], 0);
    HexColumn(BLACK);
    SlotOfParts(BlankSlot(k), 0, 0, BLACK, '0', '0');
    BlackIsNoLight();
  }

  /** What slot line k of a download is decoded to. */
  lemma SlotReads(fileData: seq<string>, m: Memory, blank: bool, k: nat)
    requires WellFormed(m) && Holds(fileData, m, blank) && k < SLOTS
    ensures |fileData| >= 80
    ensures SlotOf(fileData[k + 3], 1, 0) == if k < SlotsToGet(m, blank) then Reread(m.slots[k]) else NO_LIGHT
  {
    LineIs(fileData, m, blank, k + 3);
    if k < SlotsToGet(m, blank) {
      DownloadedSlotReads(k, m.slots[k]);
    } else {
      BlankSlotReads(k);
    }
  }

  // ------------------------------------------------------------------- copying

  /** Where slot k of the target comes from: the source's slot through text, black
      past what a short download fetched, or untouched past what a short upload loads. */
  function CopiedSlot(m: Memory, shortGet: bool, shortPut: bool, k: nat, before: seq<Byte>): seq<Byte>
    requires WellFormed(m) && k < SLOTS
  {
    if shortPut && k >= m.active then before
    else if shortGet && k >= m.active then NO_LIGHT
    else Reread(m.slots[k])
  }

  /** The target of a copy afterwards. */
  predicate CopyOf(m: Memory, shortGet: bool, shortPut: bool, before: Memory, after: Memory)
    requires WellFormed(m) && WellFormed(before) && WellFormed(after)
  {
    && after.active == m.active && after.playing && after.name == before.name
    && forall k | 0 <= k < SLOTS :: after.slots[k] == CopiedSlot(m, shortGet, shortPut, k, before.slots[k])
  }

  /** Uploading a download to any device. */
  lemma UploadOfDownload(fileData: seq<string>, m: Memory, shortGet: bool, shortPut: bool, id: Byte,
                         before: Memory, after: Memory)
    requires WellFormed(m) && Holds(fileData, m, shortGet) && id < 255 && WellFormed(before) && WellFormed(after)
    requires Readable(fileData) && Uploaded(fileData, shortPut, id, before, after)
    ensures CopyOf(m, shortGet, shortPut, before, after)
  {
    hide SlotOf, Reread, DownloadedLine, HeaderBefore, Rejected, LineCount, Readable;
    HeaderReads(fileData, m, shortGet, shortPut, id);
    DownloadIsReadable(fileData, m, shortGet);
    var h := HeaderBefore(fileData, 79, shortPut, id);
    forall k | 0 <= k < SLOTS ensures after.slots[k] == CopiedSlot(m, shortGet, shortPut, k, before.slots[k]) {
      assert SlotAfter(fileData, h, 79, k, before.slots[k], after.slots[k]);
      SlotReads(fileData, m, shortGet, k);
    }
  }

  /** Downloads p and uploads the result to q, which may be the same device. */
  method Copy(p: PlasmaTrim, q: PlasmaTrim, shortGet: bool, shortPut: bool, id: Byte)
    requires p.Valid() && q.Valid() && id < 255 && 1 <= p.memory.active <= SLOTS
    modifies p, q
    ensures p.Valid() && q.Valid() && (p != q ==> p.memory == old(p.memory))
    ensures CopyOf(old(p.memory), shortGet, shortPut, old(q.memory), q.memory)
  {
    ghost var m := p.memory;
    var fileData := new string[1024](_ => "");
    Download(p, fileData, shortGet);
    assert Downloaded(m, shortGet) <= fileData[..];
    DownloadIsReadable(fileData[..], m, shortGet);
    var _ := Upload(q, fileData[..], shortPut, id);
    UploadOfDownload(fileData[..], m, shortGet, shortPut, id, old(q.memory), q.memory);
  }

  // ------------------------------------------------ short and full downloads

  lemma TimesAreZero(slot: seq<Byte>)
    requires |slot| == SLOT_LENGTH && HoldDigit(slot) == FadeDigit(slot) == '0'
    ensures slot[12] == 0 == TimeByte('0', '0')
  {
    assert HexValue('0') == 0;
  }

  lemma NoLightIsBlack()
    ensures Hex(NO_LIGHT[..12]) == BLACK && HoldDigit(NO_LIGHT) == FadeDigit(NO_LIGHT) == '0'
  {
    assert forall n | 0 <= n < 24 :: Half(NO_LIGHT[..12], n) == 0;
  }

  /** What a line holds is what its slot holds. */
  lemma LineTellsSlot(k: nat, slot: seq<Byte>)
    requires k < SLOTS && |slot| == SLOT_LENGTH && DownloadedSlot(k, slot) == BlankSlot(k)
    ensures slot == NO_LIGHT
  {
    hide SlotLine, Column, CharAt, Hex, ColorBytes, HexDigit, HexValue, TimeByte;
    BlackIsHex();
    SlotLineReads(k, HoldDigit(slot), FadeDigit(slot), [Hex(slot[..12])], 0);
    SlotLineReads(k, '0', '0', [BLACK], 0);
    assert Hex(slot[..12]) == BLACK;
    CompactPrintParse(slot[..12]);
    BlackIsNoLight();
    TimesAreZero(slot);
    assert slot == slot[..12] + [slot[12]];
  }

  /** The line of a slot is the blank line exactly if the slot holds no light and no times. */
  lemma BlankLineExactly(k: nat, slot: seq<Byte>)
    requires k < SLOTS && |slot| == SLOT_LENGTH
    ensures DownloadedSlot(k, slot) == BlankSlot(k) <==> slot == NO_LIGHT
  {
    hide SlotLine, Hex;
    if DownloadedSlot(k, slot) == BlankSlot(k) { LineTellsSlot(k, slot); }
    if slot == NO_LIGHT { NoLightIsBlack(); }
  }

  /** Nothing is lost by a short download: there are no more active slots than
      slots, and those behind the active ones are empty. */
  predicate NothingHidden(m: Memory)
    requires WellFormed(m)
  {
    m.active <= SLOTS && forall k | m.active <= k < SLOTS :: m.slots[k] == NO_LIGHT
  }

  /** A short download and a full one are the same text exactly when nothing is hidden. */
  lemma ShortIsFullExactly(m: Memory)
    requires WellFormed(m)
    ensures Downloaded(m, true) == Downloaded(m, false) <==> NothingHidden(m)
  {
    hide DownloadedSlot, BlankSlot;
    var short, full := Downloaded(m, true), Downloaded(m, false);
    if m.active <= SLOTS {
      forall k | m.active <= k < SLOTS
        ensures short[k + 3] == full[k + 3] <==> m.slots[k] == NO_LIGHT
      {
        BlankLineExactly(k, m.slots[k]);
      }
      if NothingHidden(m) {
        forall i | 0 <= i < |full| ensures short[i] == full[i] {
          if 3 + m.active <= i < 3 + SLOTS { assert short[i - 3 + 3] == full[i - 3 + 3]; }
        }
      }
    }
  }

  lemma LineHasEnd(m: Memory, blank: bool, i: nat)
    requires WellFormed(m)
    ensures DownloadedLine(m, blank, i) == Trimmed(DownloadedLine(m, blank, i)) + END_OF_LINE
  {
    hide SlotPrefix, Join, Decimal2;
  }

  lemma LastLine(m: Memory, blank: bool)
    requires WellFormed(m)
    ensures DownloadedLine(m, blank, DownloadLength(m, blank) - 1) == END_OF_LINE
  {
  }

  lemma SentLinesDetermine(m: Memory, blank: bool, other: bool)
    requires WellFormed(m)
    ensures SentLines(m, blank) == SentLines(m, other) <==> Downloaded(m, blank) == Downloaded(m, other)
  {
    hide DownloadedLine;
    var a, b := Downloaded(m, blank), Downloaded(m, other);
    if SentLines(m, blank) == SentLines(m, other) {
      var n := |a| - 1;
      forall i | 0 <= i < n ensures a[i] == b[i] {
        assert Trimmed(a[i]) == SentLines(m, blank)[i] == Trimmed(b[i]);
        LineHasEnd(m, blank, i);
        LineHasEnd(m, other, i);
      }
      LastLine(m, blank);
      LastLine(m, other);
      assert a == b;
    }
  }

  /** A full copy is exact precisely when every slot's times are decimal digits. */
  lemma FullCopyExactly(m: Memory, before: Memory, after: Memory)
    requires WellFormed(m) && WellFormed(before) && WellFormed(after) && CopyOf(m, false, false, before, after)
    ensures after.slots == m.slots <==> forall k | 0 <= k < SLOTS :: DecimalTimes(m.slots[k])
  {
    forall k | 0 <= k < SLOTS ensures after.slots[k] == m.slots[k] <==> DecimalTimes(m.slots[k]) {
      RereadExactly(m.slots[k]);
    }
  }

  /** Prefixes are equal exactly when each element is. */
  lemma SamePrefix<T>(a: seq<T>, b: seq<T>, n: nat)
    requires n <= |a| == |b|
    ensures a[..n] == b[..n] <==> forall k | 0 <= k < n :: a[k] == b[k]
  {
    if a[..n] == b[..n] {
      forall k | 0 <= k < n ensures a[k] == b[k] {
        assert a[..n][k] == b[..n][k];
      }
    }
  }

  /** A short copy touches only the active slots, and restores them precisely when
      their times are decimal digits. */
  lemma ShortCopyExactly(m: Memory, before: Memory, after: Memory)
    requires WellFormed(m) && WellFormed(before) && WellFormed(after) && 1 <= m.active <= SLOTS
    requires CopyOf(m, true, true, before, after)
    ensures after.slots[m.active..] == before.slots[m.active..]
    ensures after.slots[..m.active] == m.slots[..m.active] <==> forall k | 0 <= k < m.active :: DecimalTimes(m.slots[k])
  {
    forall k | 0 <= k < m.active ensures after.slots[k] == m.slots[k] <==> DecimalTimes(m.slots[k]) {
      RereadExactly(m.slots[k]);
    }
    SamePrefix(m.slots, after.slots, m.active);
  }

  /** When slot k comes out of a copy as it is in the source. */
  predicate Survives(m: Memory, shortGet: bool, shortPut: bool, k: nat, before: seq<Byte>)
    requires WellFormed(m) && k < SLOTS
  {
    if shortPut && k >= m.active then before == m.slots[k]
    else if shortGet && k >= m.active then m.slots[k] == NO_LIGHT
    else DecimalTimes(m.slots[k])
  }

  /** All four combinations of short and full: the target's sequence is the source's
      precisely when every slot survives. */
  lemma CopyExactly(m: Memory, shortGet: bool, shortPut: bool, before: Memory, after: Memory)
    requires WellFormed(m) && WellFormed(before) && WellFormed(after) && CopyOf(m, shortGet, shortPut, before, after)
    ensures after.slots == m.slots <==>
            forall k | 0 <= k < SLOTS :: Survives(m, shortGet, shortPut, k, before.slots[k])
  {
    hide DecimalTimes, Reread;
    forall k | 0 <= k < SLOTS
      ensures after.slots[k] == m.slots[k] <==> Survives(m, shortGet, shortPut, k, before.slots[k])
    {
      RereadExactly(m.slots[k]);
    }
  }
}
