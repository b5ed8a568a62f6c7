/** The text of sequence files: numbers, slot lines, and how upload and
    streamData read them at fixed offsets (src/ptrim-lib.cc). */
module SequenceText {
  import opened Prelude
  import opened Device
  import opened Color

  // ------------------------------------------------------------------ numbers

  function Digit(n: nat): (c: char)
    requires n < 10
    ensures '0' <= c <= '9' && c as int == 48 + n
  {
    (48 + n) as char
  }

  predicate IsDigit(c: char) { '0' <= c <= '9' }

  function Decimal(n: nat): (s: string)
    ensures |s| >= 1 && forall k | 0 <= k < |s| :: IsDigit(s[k])
  {
    if n < 10 then [Digit(n)] else Decimal(n / 10) + [Digit(n % 10)]
  }

  /** Printing with at least two digits. */
  function Decimal2(n: nat): (s: string)
    ensures n < 100 ==> s == [Digit(n / 10), Digit(n % 10)]
    ensures 100 <= n < 1000 ==> |s| == 3
  {
    assert n < 10 ==> Digit(n / 10) == '0';
    assert 10 <= n ==> Decimal(n) == Decimal(n / 10) + [Digit(n % 10)];
    assert 100 <= n ==> Decimal(n / 10) == Decimal(n / 10 / 10) + [Digit(n / 10 % 10)];
    if n < 10 then ['0'] + Decimal(n) else Decimal(n)
  }

  /** A character of a line; past its text a line holds zero bytes. */
  function CharAt(line: string, i: nat): char { if i < |line| then line[i] else '\0' }

  /** Two digit characters at i as an unsigned char. */
  function TwoDigits(line: string, i: nat): Byte {
    ((CharAt(line, i) as int - 48) * 10 + CharAt(line, i + 1) as int - 48) % 256
  }

  /** The digits from i on, accumulated in an unsigned char. */
  function ParseDigits(line: string, i: nat, acc: Byte): Byte
    decreases |line| - i
  {
    if i < |line| && IsDigit(line[i]) then ParseDigits(line, i + 1, (acc * 10 + (line[i] as int - 48)) % 256)
    else acc
  }

  // ------------------------------------------------------------------- header

  const TITLE := "PlasmaTrim RGB-8 Sequence\r\n"
  const SIMPLE := "Version: Simple Sequence Format"
  const MULTIPLE := "Version: Multiple Sequence Format"
  const END_OF_LINE := "\r\n"

  datatype Version = Simple | Multiple | Unknown

  function VersionOf(line: string): Version {
    if line == MULTIPLE + END_OF_LINE || line == MULTIPLE then Multiple
    else if line == SIMPLE + END_OF_LINE || line == SIMPLE then Simple
    else Unknown
  }

  /** What a header line tells: the column and the first slot to use, how many
      slots there are, and how many to load. */
  datatype Header = Header(multi: bool, devices: Byte, deviceNum: Byte, loopStart: Byte, active: Byte, toLoad: Byte)

  const NO_HEADER := Header(false, 0, 1, 0, 0, 76)

  /** Device number id + 1 reduced into 1 .. devices. */
  function WrapDevice(number: nat, devices: nat): (r: nat)
    requires devices > 0 && number > 0
    ensures 1 <= r <= devices && r <= number
  {
    if number > devices then WrapDevice(number - devices, devices) else number
  }

  /** A multiple header with no devices would keep upload reducing for ever. */
  predicate HasDevices(line: string) { TwoDigits(line, 35) > 0 }

  function ReadHeader(line: string, multi: bool, blank: bool, id: Byte): Header
    requires multi ==> HasDevices(line)
    requires id < 255
  {
    var devices := if multi then TwoDigits(line, 35) else 0;
    var loopStart := if multi then (TwoDigits(line, 52) - 1) % 256 else 0;
    var active := if multi then ParseDigits(line, 80, 0) else TwoDigits(line, 14);
    Header(multi, if devices == 0 then 1 else devices,
           if multi then WrapDevice(id + 1, devices) else 1,
           loopStart, active,
           if blank && active - loopStart < 76 then (active - loopStart) % 256 else 76)
  }

  // --------------------------------------------------------------- slot lines

  /** From slot 100 on, the slot number is one digit longer. */
  const FIRST_SHIFTED := 103

  /** The 24 characters of a device's column. */
  function Column(line: string, deviceNum: nat, offset: nat): (r: string)
    requires deviceNum >= 1
    ensures |r| == 24
  {
    seq(24, i requires 0 <= i < 24 => CharAt(line, 14 + i + 27 * (deviceNum - 1) + offset))
  }

  /** Hold and fade characters as one byte; only the digits 0 to 9 are decoded. */
  function TimeByte(hold: char, fade: char): Byte { (16 * (hold as int - 48) + fade as int - 48) % 256 }

  /** The characters of a column that decide its colour. */
  function ColumnDigits(column: string): (r: string)
    requires |column| == 24
    ensures |r| >= 3
  {
    var buffer := column + ['\0'];
    assert buffer[24] in buffer;
    ColorCells(buffer)
  }

  function SlotOf(line: string, deviceNum: nat, offset: nat): (r: seq<Byte>)
    requires deviceNum >= 1
    ensures |r| == SLOT_LENGTH
  {
    ColorBytes(ColumnDigits(Column(line, deviceNum, offset)), false)
    + [TimeByte(CharAt(line, 8 + offset), CharAt(line, 10 + offset))]
  }

  function HoldDigit(slot: seq<Byte>): char
    requires |slot| == SLOT_LENGTH
  {
    HexDigit(slot[12] / 16)
  }

  function FadeDigit(slot: seq<Byte>): char
    requires |slot| == SLOT_LENGTH
  {
    HexDigit(slot[12] % 16)
  }

  /** The start of a slot line, up to the first column. */
  function SlotPrefix(k: nat, hold: char, fade: char): string {
    "slot " + Decimal2(k) + [' ', hold, ' ', fade, ' ', '-', ' ']
  }

  /** Columns separated by " - ". */
  function Join(columns: seq<string>): string
    requires columns != []
  {
    if |columns| == 1 then columns[0] else columns[0] + " - " + Join(columns[1..])
  }

  function SlotLine(k: nat, hold: char, fade: char, columns: seq<string>): string
    requires columns != []
  {
    SlotPrefix(k, hold, fade) + Join(columns) + END_OF_LINE
  }

  const BLACK := "000000000000000000000000"

  // ------------------------------------------------ where things are in a line

  lemma DecimalParses(n: nat)
    requires n < 100
    ensures Decimal2(n)[0] as int - 48 == n / 10 && Decimal2(n)[1] as int - 48 == n % 10
  {
  }

  /** Digits read into an accumulator of one byte. */
  function DigitsValue(acc: Byte, s: string): Byte
    requires forall k | 0 <= k < |s| :: IsDigit(s[k])
    decreases |s|
  {
    if s == [] then acc else DigitsValue((acc * 10 + (s[0] as int - 48)) % 256, s[1..])
  }

  lemma {:induction false} ParseStep(line: string, i: nat, s: string, acc: Byte)
    requires i + |s| <= |line| && line[i..i + |s|] == s
    requires forall k | 0 <= k < |s| :: IsDigit(s[k])
    requires i + |s| < |line| ==> !IsDigit(line[i + |s|])
    ensures ParseDigits(line, i, acc) == DigitsValue(acc, s)
    decreases |s|
  {
    if s == [] {
    } else {
      assert line[i] == s[0];
      assert line[i + 1..i + 1 + |s[1..]|] == s[1..];
      ParseStep(line, i + 1, s[1..], (acc * 10 + (s[0] as int - 48)) % 256);
    }
  }

  lemma {:induction false} DigitsValueOneMore(acc: Byte, s: string, c: char)
    requires (forall k | 0 <= k < |s| :: IsDigit(s[k])) && IsDigit(c)
    ensures DigitsValue(acc, s + [c]) == (DigitsValue(acc, s) * 10 + (c as int - 48)) % 256
    decreases |s|
  {
    if s == [] {
      assert [c][1..] == [];
    } else {
      assert (s + [c])[1..] == s[1..] + [c];
      DigitsValueOneMore((acc * 10 + (s[0] as int - 48)) % 256, s[1..], c);
    }
  }

  lemma OneDigit(n: nat)
    requires n < 10
    ensures DigitsValue(0, Decimal(n)) == n
  {
    var s := [Digit(n)];
    assert s[1..] == [] && s[0] as int - 48 == n;
    assert DigitsValue(0, s) == DigitsValue((0 * 10 + n) % 256, s[1..]);
  }

  /** A number that fits an unsigned char is read back as printed. */
  lemma {:induction false} DecimalValue(n: nat)
    requires n < 256
    ensures DigitsValue(0, Decimal(n)) == n
  {
    if n < 10 {
      OneDigit(n);
    } else {
      var head := Decimal(n / 10);
      DecimalValue(n / 10);
      DigitsValueOneMore(0, head, Digit(n % 10));
      assert Decimal(n) == head + [Digit(n % 10)];
      assert (n / 10 * 10 + n % 10) % 256 == n;
    }
  }

  lemma SlotPrefixShape(k: nat, hold: char, fade: char)
    requires k < 1000
    ensures var o := if k < 100 then 0 else 1;
            var s := SlotPrefix(k, hold, fade);
            |s| == 14 + o && s[8 + o] == hold && s[10 + o] == fade && s[0] == 's'
  {
  }

  lemma {:induction false} JoinLength(columns: seq<string>)
    requires columns != [] && forall c <- columns :: |c| == 24
    ensures |Join(columns)| == 27 * |columns| - 3
    decreases |columns|
  {
    if |columns| == 1 {
    } else {
      assert forall c <- columns[1..] :: c in columns;
      JoinLength(columns[1..]);
    }
  }

  /** Column d starts 27 characters after column d - 1. */
  lemma {:induction false} JoinAt(columns: seq<string>, d: nat, at: nat)
    requires d < |columns| && at == 27 * d && forall c <- columns :: |c| == 24
    ensures at + 24 <= |Join(columns)| && Join(columns)[at..at + 24] == columns[d]
    decreases |columns|
  {
    assert columns[0] in columns;
    if d > 0 {
      var rest, head := columns[1..], columns[0] + " - ";
      assert forall c <- rest :: c in columns;
      JoinAt(rest, d - 1, at - 27);
      assert Join(columns) == head + Join(rest) && |head| == 27;
    } else if |columns| > 1 {
      assert Join(columns) == columns[0] + (" - " + Join(columns[1..]));
    }
  }

  /** A column in the middle of a line. */
  lemma ColumnOf(prefix: string, body: string, tail: string, d: nat, o: nat, at: nat, column: string)
    requires |prefix| == 14 + o && |column| == 24 && at == 27 * d
    requires at + 24 <= |body| && body[at..at + 24] == column
    ensures Column(prefix + body + tail, d + 1, o) == column
  {
    var line := prefix + body + tail;
    var start := 14 + o + at;
    assert line[start..start + 24] == column;
    forall i | 0 <= i < 24 ensures Column(line, d + 1, o)[i] == column[i] {
      assert 14 + i + 27 * (d + 1 - 1) + o == start + i;
      assert Column(line, d + 1, o)[i] == CharAt(line, start + i);
      assert line[start..start + 24][i] == line[start + i];
    }
  }

  /** A printed slot line is read back: column d, hold and fade. */
  lemma SlotLineReads(k: nat, hold: char, fade: char, columns: seq<string>, d: nat)
    requires k < 1000 && d < |columns| && forall c <- columns :: |c| == 24
    ensures var o := if k < 100 then 0 else 1;
            var line := SlotLine(k, hold, fade, columns);
            && Column(line, d + 1, o) == columns[d]
            && CharAt(line, 8 + o) == hold && CharAt(line, 10 + o) == fade && CharAt(line, 0) == 's'
  {
    hide Join, SlotPrefix, Column;
    var o := if k < 100 then 0 else 1;
    SlotPrefixShape(k, hold, fade);
    assert columns[d] in columns;
    JoinAt(columns, d, 27 * d);
    ColumnOf(SlotPrefix(k, hold, fade), Join(columns), END_OF_LINE, d, o, 27 * d, columns[d]);
  }

  /** The two time characters of a printed slot are the hexadecimal digits of its
      time byte, for every time. */
  lemma PrintedTimes(k: nat, slot: seq<Byte>, column: string)
    requires k < 1000 && |slot| == SLOT_LENGTH && |column| == 24
    ensures var line, o := SlotLine(k, HoldDigit(slot), FadeDigit(slot), [column]), if k < 100 then 0 else 1;
            && IsHex(CharAt(line, 8 + o)) && IsHex(CharAt(line, 10 + o))
            && 16 * HexValue(CharAt(line, 8 + o)) + HexValue(CharAt(line, 10 + o)) == slot[12]
  {
    hide SlotLine, Column, CharAt;
    SlotLineReads(k, HoldDigit(slot), FadeDigit(slot), [column], 0);
  }

  lemma HexColumn(column: string)
    requires AllHex(column) && |column| == 24
    ensures ColumnDigits(column) == column
  {
    assert '\0' !in column && ' ' !in column by { assert forall k | 0 <= k < |column| :: IsHex(column[k]); }
    TextOfAll(column);
    NoSpacesKeeps(column);
  }

  /** A slot line decodes to its column's colour and its times. */
  lemma SlotOfParts(line: string, d: nat, o: nat, column: string, hold: char, fade: char)
    requires |column| == 24 && Column(line, d + 1, o) == column && ColumnDigits(column) == column
    requires CharAt(line, 8 + o) == hold && CharAt(line, 10 + o) == fade
    ensures SlotOf(line, d + 1, o) == ColorBytes(column, false) + [TimeByte(hold, fade)]
  {
  }
}
