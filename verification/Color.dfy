/** Colours as text and as bytes (src/ptrim-lib.cc: getColor, makeHumanColor, makeColor). */
module Color {
  import opened Arithmetic
  import opened Prelude
  import opened Device

  const LEDS := 8
  const HEX_LENGTH := 48
  const HUMAN_LENGTH := 55

  // ------------------------------------------------------------------- digits

  predicate IsHex(c: char) { '0' <= c <= '9' || 'A' <= c <= 'F' || 'a' <= c <= 'f' }

  predicate AllHex(s: string) { forall k | 0 <= k < |s| :: IsHex(s[k]) }

  /** The value of a hexadecimal digit. */
  function HexValue(c: char): nat
    requires IsHex(c)
    ensures HexValue(c) < 16
  {
    if c <= '9' then c as int - '0' as int
    else if c <= 'F' then c as int - 'A' as int + 10
    else c as int - 'a' as int + 10
  }

  function HexDigit(n: nat): (c: char)
    requires n < 16
    ensures IsHex(c) && HexValue(c) == n && c <= 'F'
  {
    if n + 48 > 0x39 then (n + 55) as char else (n + 48) as char
  }

  /** What makeColor's arithmetic makes of any character. */
  function Nibble(c: char): int {
    var code := c as int;
    if code > 70 then code - 87 else if code > 57 then code - 55 else if code > 9 then code - 48 else code
  }

  lemma NibbleOfHex(c: char)
    requires IsHex(c)
    ensures Nibble(c) == HexValue(c)
  {
  }

  // ----------------------------------------------------------- normal colours

  function NoSpaces(s: string): (r: string)
    ensures |r| <= |s|
  {
    if s == [] then []
    else NoSpaces(s[..|s| - 1]) + (if s[|s| - 1] == ' ' then [] else [s[|s| - 1]])
  }

  /** The text before the terminator. */
  function Text(buffer: seq<char>): (r: string)
    ensures |r| <= |buffer| && r == buffer[..|r|] && '\0' !in r
    ensures |r| < |buffer| ==> buffer[|r|] == '\0'
    ensures '\0' in buffer ==> |r| < |buffer|
  {
    if buffer == [] || buffer[0] == '\0' then [] else [buffer[0]] + Text(buffer[1..])
  }

  lemma {:induction false} TextOfAll(s: string)
    requires '\0' !in s
    ensures Text(s + ['\0']) == s
  {
    if s == [] {
    } else {
      assert (s + ['\0'])[1..] == s[1..] + ['\0'];
      TextOfAll(s[1..]);
    }
  }

  /** The cells of a text buffer once its spaces are taken out: the text moves
      forward over them, a terminator follows only if spaces ended the text, and
      the cells behind keep what they held. */
  function Stripped(buffer: seq<char>): (r: seq<char>)
    requires '\0' in buffer
    ensures |r| == |buffer|
  {
    var text := Text(buffer);
    var kept := NoSpaces(text);
    if text != "" && text[|text| - 1] == ' ' then kept + ['\0'] + buffer[|kept| + 1..] else kept + buffer[|kept|..]
  }

  /** The characters that decide a colour: the text without spaces or, if that is
      shorter than three, the first three cells. */
  function ColorCells(buffer: seq<char>): (r: string)
    requires '\0' in buffer && |buffer| >= 3
    ensures |r| >= 3
  {
    if |NoSpaces(Text(buffer))| >= 3 then NoSpaces(Text(buffer)) else Stripped(buffer)[..3]
  }

  /** Digit k of the standard form of the digits c: six (full) or three digits for
      each of the eight LEDs. Fewer than 6, 24 or 48 digits mean one short colour,
      one long colour, or one short colour for each LED. */
  function StandardDigit(c: string, full: bool, k: nat): char
    requires |c| >= 3 && k < if full then 48 else 24
  {
    if |c| < 6 then (if full then c[k % 6 / 2] else c[k % 3])
    else if |c| < 24 then (if full then c[k % 6] else c[k % 3 * 2])
    else if |c| < 48 then (if full then c[k / 2] else c[k])
    else (if full then c[k] else c[k * 2])
  }

  function Pair(high: char, low: char): Byte { (16 * Nibble(high) + Nibble(low)) % 256 }

  /** The colour bytes that digits stand for: 24 in full, 12 in compact form. */
  function ColorBytes(c: string, full: bool): (r: seq<Byte>)
    requires |c| >= 3
    ensures |r| == if full then 24 else 12
  {
    seq(if full then 24 else 12, k requires 0 <= k < (if full then 24 else 12) =>
      Pair(StandardDigit(c, full, 2 * k), StandardDigit(c, full, 2 * k + 1)))
  }

  /** Half n of a byte string, high half first. */
  function Half(bytes: seq<Byte>, n: nat): nat
    requires n < 2 * |bytes|
  {
    if n % 2 == 0 then bytes[n / 2] / 16 else bytes[n / 2] % 16
  }

  /** Compact digit n is the high digit of full byte n. */
  lemma CompactDigit(c: string, n: nat)
    requires |c| >= 3 && n < 24
    ensures StandardDigit(c, false, n) == StandardDigit(c, true, 2 * n)
  {
    assert (2 * n) % 6 == 2 * (n % 3);
  }

  lemma StandardIsHex(c: string, full: bool, k: nat)
    requires |c| >= 3 && AllHex(c) && k < if full then 48 else 24
    ensures IsHex(StandardDigit(c, full, k))
  {
  }

  lemma PairHalves(high: char, low: char)
    requires IsHex(high) && IsHex(low)
    ensures Pair(high, low) == 16 * HexValue(high) + HexValue(low)
    ensures Pair(high, low) / 16 == HexValue(high) && Pair(high, low) % 16 == HexValue(low)
  {
    NibbleOfHex(high);
    NibbleOfHex(low);
  }

  lemma CompactHalf(c: string, n: nat)
    requires |c| >= 3 && AllHex(c) && n < 24
    ensures Half(ColorBytes(c, false), n) == HexValue(StandardDigit(c, false, n))
  {
    hide StandardDigit, HexValue, Pair;
    var m := n / 2 * 2;
    StandardIsHex(c, false, m);
    StandardIsHex(c, false, m + 1);
    PairHalves(StandardDigit(c, false, m), StandardDigit(c, false, m + 1));
  }

  lemma FullHalf(c: string, n: nat)
    requires |c| >= 3 && AllHex(c) && n < 24
    ensures ColorBytes(c, true)[n] / 16 == HexValue(StandardDigit(c, true, 2 * n))
  {
    hide StandardDigit, HexValue, Pair;
    StandardIsHex(c, true, 2 * n);
    StandardIsHex(c, true, 2 * n + 1);
    PairHalves(StandardDigit(c, true, 2 * n), StandardDigit(c, true, 2 * n + 1));
  }

  // What a colour text means, LED by LED.

  /** The digits given for a LED: one short or long colour for all, or one for each. */
  function LedDigits(c: string, led: nat): (digits: string)
    requires |c| >= 3 && led < LEDS
    ensures |digits| == 3 || |digits| == 6
  {
    if |c| < 6 then c[..3]
    else if |c| < 24 then c[..6]
    else if |c| < 48 then c[3 * led..3 * led + 3]
    else c[6 * led..6 * led + 6]
  }

  /** A component from one digit, which counts for both halves, or from two. */
  function ComponentOf(digits: string, i: nat): nat
    requires (|digits| == 3 || |digits| == 6) && AllHex(digits) && i < 3
  {
    if |digits| == 3 then 17 * HexValue(digits[i])
    else 16 * HexValue(digits[2 * i]) + HexValue(digits[2 * i + 1])
  }

  lemma PlaceOf(led: nat, i: nat)
    requires led < LEDS && i < 3
    ensures var k := 3 * led + i;
            && k % 3 == i && (2 * k) % 6 == 2 * i && (2 * k + 1) % 6 == 2 * i + 1
            && (2 * k) % 6 / 2 == i && (2 * k + 1) % 6 / 2 == i && 2 * k / 2 == k && (2 * k + 1) / 2 == k
  {
    QuotientRemainder(3, led, i);
    QuotientRemainder(6, led, 2 * i);
    QuotientRemainder(6, led, 2 * i + 1);
  }

  /** Byte i of a LED's full colour is the component its digits give. */
  lemma FullColorMeans(c: string, led: nat, i: nat)
    requires |c| >= 3 && AllHex(c) && led < LEDS && i < 3
    ensures AllHex(LedDigits(c, led))
    ensures ColorBytes(c, true)[3 * led + i] == ComponentOf(LedDigits(c, led), i)
  {
    hide HexValue, Pair;
    var k := 3 * led + i;
    PlaceOf(led, i);
    StandardIsHex(c, true, 2 * k);
    StandardIsHex(c, true, 2 * k + 1);
    PairHalves(StandardDigit(c, true, 2 * k), StandardDigit(c, true, 2 * k + 1));
  }

  /** The compact form keeps the high half of every byte of the full form. */
  lemma CompactIsHighHalves(c: string)
    requires |c| >= 3 && AllHex(c)
    ensures forall n | 0 <= n < 24 :: Half(ColorBytes(c, false), n) == ColorBytes(c, true)[n] / 16
  {
    forall n: nat | n < 24 ensures Half(ColorBytes(c, false), n) == ColorBytes(c, true)[n] / 16 {
      CompactDigit(c, n);
      CompactHalf(c, n);
      FullHalf(c, n);
    }
  }

  function Repeat(s: string, n: nat): (r: string)
    ensures |r| == n * |s|
  {
    if n == 0 then [] else s + Repeat(s, n - 1)
  }

  lemma {:induction false} RepeatAt(s: string, n: nat, k: nat)
    requires |s| > 0 && k < n * |s|
    ensures Repeat(s, n)[k] == s[k % |s|]
  {
    if k < |s| {
      SmallRemainder(k, |s|);
    } else {
      assert Repeat(s, n)[k] == Repeat(s, n - 1)[k - |s|];
      RepeatAt(s, n - 1, k - |s|);
      ModStep(k, |s|);
    }
  }

  lemma Remainders(k: nat)
    ensures k / 2 % 3 == k % 6 / 2 && (k * 2) % 6 == k % 3 * 2
  {
    assert k / 2 == 3 * (k / 6) + k % 6 / 2;
    QuotientRemainder(3, k / 6, k % 6 / 2);
    assert k * 2 == 6 * (k / 3) + k % 3 * 2;
    QuotientRemainder(6, k / 3, k % 3 * 2);
  }

  lemma RepeatedShort(c: string, full: bool, k: nat)
    requires |c| == 3 && k < if full then 48 else 24
    ensures StandardDigit(Repeat(c, LEDS), full, k) == StandardDigit(c, full, k)
  {
    RepeatAt(c, LEDS, if full then k / 2 else k);
    Remainders(k);
  }

  lemma RepeatedLong(c: string, full: bool, k: nat)
    requires |c| == 6 && k < if full then 48 else 24
    ensures StandardDigit(Repeat(c, LEDS), full, k) == StandardDigit(c, full, k)
  {
    RepeatAt(c, LEDS, if full then k else k * 2);
    Remainders(k);
  }

  lemma {:induction false} NoSpacesKeeps(s: string)
    requires ' ' !in s
    ensures NoSpaces(s) == s
  {
    if s == [] {
    } else {
      NoSpacesKeeps(s[..|s| - 1]);
    }
  }

  /** A text with a space nowhere and fewer than three characters means its first three cells. */
  lemma ShortText(buffer: seq<char>)
    requires '\0' in buffer && |buffer| >= 3 && ' ' !in Text(buffer)
    ensures ColorCells(buffer) == if |Text(buffer)| >= 3 then Text(buffer) else buffer[..3]
  {
    NoSpacesKeeps(Text(buffer));
  }

  /** One short or long colour means the same as that colour for each LED. */
  lemma OneColorForAll(c: string, full: bool)
    requires |c| == 3 || |c| == 6
    ensures ColorBytes(Repeat(c, LEDS), full) == ColorBytes(c, full)
  {
    hide Repeat, StandardDigit, Pair;
    forall k | 0 <= k < if full then 24 else 12
      ensures ColorBytes(Repeat(c, LEDS), full)[k] == ColorBytes(c, full)[k]
    {
      if |c| == 3 {
        RepeatedShort(c, full, 2 * k);
        RepeatedShort(c, full, 2 * k + 1);
      } else {
        RepeatedLong(c, full, 2 * k);
        RepeatedLong(c, full, 2 * k + 1);
      }
    }
  }

  // ------------------------------------------------------------ print and parse

  /** Two digits for each byte. */
  function Hex(bytes: seq<Byte>): (r: string)
    ensures |r| == 2 * |bytes| && forall n | 0 <= n < |r| :: r[n] == HexDigit(Half(bytes, n))
  {
    seq(2 * |bytes|, k requires 0 <= k < 2 * |bytes| => HexDigit(Half(bytes, k)))
  }

  lemma HexIsHex(bytes: seq<Byte>)
    ensures AllHex(Hex(bytes)) && ' ' !in Hex(bytes) && '\0' !in Hex(bytes)
  {
    assert forall k | 0 <= k < |Hex(bytes)| :: IsHex(Hex(bytes)[k]);
  }

  lemma HexPair(bytes: seq<Byte>, k: nat)
    requires k < |bytes|
    ensures Hex(bytes)[2 * k] == HexDigit(bytes[k] / 16) && Hex(bytes)[2 * k + 1] == HexDigit(bytes[k] % 16)
  {
  }

  /** Six digits for each LED and a space between LEDs. */
  function Human(data: string): (r: string)
    requires |data| == HEX_LENGTH
    ensures |r| == HUMAN_LENGTH
  {
    seq(HUMAN_LENGTH, k requires 0 <= k < HUMAN_LENGTH => if k % 7 == 6 then ' ' else data[k / 7 * 6 + k % 7])
  }

  lemma {:induction false} NoSpacesOfConcat(a: string, b: string)
    ensures NoSpaces(a + b) == NoSpaces(a) + NoSpaces(b)
    decreases |b|
  {
    if b == [] {
      assert a + b == a;
    } else {
      NoSpacesOfConcat(a, b[..|b| - 1]);
      assert (a + b)[..|a + b| - 1] == a + b[..|b| - 1];
    }
  }

  /** The text of LED m: its six digits and a space. */
  lemma HumanLed(data: string, m: nat)
    requires |data| == HEX_LENGTH && m + 1 < LEDS
    ensures Human(data)[..7 * (m + 1)] == Human(data)[..7 * m] + (data[6 * m..6 * (m + 1)] + [' '])
  {
    var h, led := Human(data), data[6 * m..6 * (m + 1)];
    assert h[7 * m + 6] == ' ';
    forall j | 0 <= j < 6 ensures h[7 * m + j] == led[j] {
      assert (7 * m + j) / 7 == m && (7 * m + j) % 7 == j;
    }
  }

  /** Dropping the spaces of the first n LEDs' text leaves their digits. */
  lemma {:induction false} HumanPrefix(data: string, n: nat)
    requires |data| == HEX_LENGTH && ' ' !in data && n < LEDS
    ensures NoSpaces(Human(data)[..7 * n]) == data[..6 * n]
  {
    if n == 0 {
    } else {
      var h, m := Human(data), n - 1;
      HumanPrefix(data, m);
      var led := data[6 * m..6 * n];
      HumanLed(data, m);
      NoSpacesOfConcat(h[..7 * m], led + [' ']);
      NoSpacesOfConcat(led, [' ']);
      NoSpacesKeeps(led);
      assert NoSpaces([' ']) == [];
      assert data[..6 * n] == data[..6 * m] + led;
    }
  }

  lemma HumanKeepsDigits(data: string)
    requires |data| == HEX_LENGTH && ' ' !in data
    ensures NoSpaces(Human(data)) == data
  {
    var h, last := Human(data), data[42..];
    HumanPrefix(data, 7);
    assert h == h[..49] + last;
    NoSpacesOfConcat(h[..49], last);
    NoSpacesKeeps(last);
    assert data == data[..42] + last;
  }

  lemma PairOfHexPair(bytes: seq<Byte>, k: nat)
    requires k < |bytes|
    ensures Pair(Hex(bytes)[2 * k], Hex(bytes)[2 * k + 1]) == bytes[k]
  {
    HexPair(bytes, k);
    PairHalves(HexDigit(bytes[k] / 16), HexDigit(bytes[k] % 16));
  }

  lemma ParseOfHex(bytes: seq<Byte>)
    requires |bytes| == COLOR_LENGTH
    ensures ColorBytes(Hex(bytes), true) == bytes
  {
    forall k | 0 <= k < COLOR_LENGTH ensures ColorBytes(Hex(bytes), true)[k] == bytes[k] {
      PairOfHexPair(bytes, k);
    }
  }

  lemma HumanSpacing(data: string)
    requires |data| == HEX_LENGTH && ' ' !in data
    ensures forall k | 0 <= k < HUMAN_LENGTH :: Human(data)[k] == ' ' <==> k % 7 == 6
  {
    forall k | 0 <= k < HUMAN_LENGTH ensures Human(data)[k] == ' ' <==> k % 7 == 6 {
      if k % 7 != 6 { assert Human(data)[k] in data; }
    }
  }

  /** Printing a colour for people and parsing it gives the colour back; the text
      has a space after each LED but the last. */
  lemma PrintParse(bytes: seq<Byte>)
    requires |bytes| == COLOR_LENGTH
    ensures var text := Human(Hex(bytes));
            && |text| == 55 && (forall k | 0 <= k < 55 :: text[k] == ' ' <==> k % 7 == 6)
            && |NoSpaces(text)| == 48 && ColorBytes(NoSpaces(text), true) == bytes
  {
    var h := Hex(bytes);
    HexIsHex(bytes);
    HumanKeepsDigits(h);
    HumanSpacing(h);
    ParseOfHex(bytes);
  }

  /** Digits that fit a compact colour: twelve bytes survive printing and parsing. */
  lemma CompactPrintParse(bytes: seq<Byte>)
    requires |bytes| == 12
    ensures ColorBytes(Hex(bytes), false) == bytes
  {
    forall k | 0 <= k < 12 ensures ColorBytes(Hex(bytes), false)[k] == bytes[k] {
      PairOfHexPair(bytes, k);
    }
  }

  // ------------------------------------------------------------- the functions

  lemma PrintedDigit(n: nat)
    requires n < 16
    ensures HexDigit(n) == (if n + 48 > 0x39 then n + 55 else n + 48) as char && Hex([]) == []
  {
  }

  lemma HexOneMore(bytes: seq<Byte>, n: nat)
    requires n < |bytes|
    ensures Hex(bytes[..n + 1]) == Hex(bytes[..n]) + [HexDigit(bytes[n] / 16), HexDigit(bytes[n] % 16)]
  {
    var more := bytes[..n + 1];
    forall k | 0 <= k < 2 * n ensures Half(more, k) == Half(bytes[..n], k) {
    }
    HexPair(more, n);
  }

  /** Fills a buffer with the digits of a colour. */
  method WriteHex(buf: array<char>, bytes: seq<Byte>)
    requires buf.Length == 49 && |bytes| == COLOR_LENGTH
    modifies buf
    ensures buf[..48] == Hex(bytes) && buf[48] == old(buf[48])
  {
    hide Hex, HexDigit;
    PrintedDigit(0);
    for i := 0 to COLOR_LENGTH
      invariant buf[..2 * i] == Hex(bytes[..i])
      invariant buf[48] == old(buf[48])
    {
      var high, low := bytes[i] / 16 + 48, bytes[i] % 16 + 48;
      PrintedDigit(bytes[i] / 16);
      PrintedDigit(bytes[i] % 16);
      buf[i * 2] := (if high > 0x39 then high + 7 else high) as char;
      buf[i * 2 + 1] := (if low > 0x39 then low + 7 else low) as char;
      HexOneMore(bytes, i);
      assert buf[..2 * (i + 1)] == buf[..2 * i] + [buf[2 * i], buf[2 * i + 1]];
    }
    assert bytes[..24] == bytes;
  }

  /** The shown colour as digits. */
  method GetColor(p: PlasmaTrim) returns (buf: array<char>)
    requires p.Valid()
    modifies p
    ensures p.Valid() && p.memory == old(p.memory)
    ensures fresh(buf) && buf.Length == 49 && buf[48] == '\0' && buf[..48] == Hex(p.memory.shown)
  {
    var cmd := new Byte[REPORT_LENGTH](_ => 0);
    cmd[0] := 0x01;
    p.HidWrite(cmd);
    buf := new char[49](_ => '\0');
    assert p.reply[1..25] == p.memory.shown;
    WriteHex(buf, p.reply[1..25]);
  }

  /** Adds the spaces. */
  method MakeHumanColor(data: array<char>) returns (color: array<char>)
    requires data.Length >= HEX_LENGTH
    ensures fresh(color) && color.Length == 56 && color[55] == '\0'
    ensures color[..55] == Human(data[..48])
  {
    color := new char[56](_ => '\0');
    var i, s := 0, 0;
    while i < 48
      invariant i == 6 * s && s <= 8
      invariant forall k | 0 <= k < 7 * s && k < 55 :: color[k] == Human(data[..48])[k]
      invariant color[55] == '\0'
    {
      for j := 0 to 6
        invariant forall k | 0 <= k < 7 * s + j :: color[k] == Human(data[..48])[k]
        invariant color[55] == '\0'
      {
        color[i + j + s] := data[i + j];
      }
      if i + 6 < 48 {
        color[i + 6 + s] := ' ';
      }
      s := s + 1;
      i := i + 6;
    }
  }

  /** The loop stands at the start, behind a character it kept, or behind the
      terminator it moved forward over spaces at the end. */
  predicate LastTaken(cells: seq<char>, text: string, i: nat, offset: nat) {
    || i + offset == 0
    || (i + offset <= |text| && text[i + offset - 1] != ' ')
    || (i + offset == |text| + 1 && 1 <= i <= |cells| && cells[i - 1] == '\0'
        && text != "" && text[|text| - 1] == ' ')
  }

  /** The cells before n hold the text up to n without its spaces, offset of them so far. */
  predicate HoldsKept(cells: seq<char>, text: string, n: nat, offset: nat)
    requires n <= |text| <= |cells|
  {
    offset <= n && NoSpaces(text[..n]) == cells[..n - offset]
  }

  function Min(a: int, b: int): int { if a < b then a else b }

  /** The state of the loop: the cells before i are settled, offset spaces were dropped. */
  predicate Stripping(was: seq<char>, cells: seq<char>, i: nat, offset: nat) {
    var text := Text(was);
    && |cells| == |was| && |text| < |was| && offset <= |text| && i + offset <= |text| + 1 && i <= |was|
    && (forall k | i <= k < |was| :: cells[k] == was[k])
    && Min(i + offset, |text|) - offset <= i
    && HoldsKept(cells, text, Min(i + offset, |text|), offset) && LastTaken(cells, text, i, offset)
  }

  lemma StripStart(was: seq<char>)
    requires '\0' in was
    ensures Stripping(was, was, 0, 0)
  {
  }

  lemma KeepOne(text: string, n: nat)
    requires n <= |text|
    ensures n < |text| ==> NoSpaces(text[..n + 1]) == NoSpaces(text[..n]) + (if text[n] == ' ' then [] else [text[n]])
  {
    if n < |text| { assert text[..n + 1][..n] == text[..n]; }
  }

  /** A character that is not a space moves forward to cell i. */
  lemma StripKept(cells: seq<char>, text: string, i: nat, offset: nat, next: nat)
    requires next < |text| < |cells| && i <= next && offset <= next - i && cells[next] == text[next]
    requires HoldsKept(cells, text, i + offset, offset) && text[next] != ' '
    requires NoSpaces(text[..next]) == NoSpaces(text[..i + offset])
    ensures HoldsKept(cells[i := cells[next]], text, next + 1, next - i)
    ensures LastTaken(cells[i := cells[next]], text, i + 1, next - i)
  {
    hide NoSpaces;
    KeepOne(text, next);
    assert cells[i := cells[next]][..i + 1] == cells[..i] + [cells[next]];
  }

  /** The terminator moves forward over the spaces that ended the text. */
  lemma StripTerminator(cells: seq<char>, text: string, i: nat, offset: nat)
    requires i + offset < |text| < |cells| && cells[|text|] == '\0'
    requires HoldsKept(cells, text, i + offset, offset) && text[|text| - 1] == ' '
    requires NoSpaces(text) == NoSpaces(text[..i + offset])
    ensures HoldsKept(cells[i := cells[|text|]], text, |text|, |text| - i)
    ensures LastTaken(cells[i := cells[|text|]], text, i + 1, |text| - i)
  {
    hide NoSpaces;
    assert text[..|text|] == text;
    assert cells[i := cells[|text|]][..i] == cells[..i];
  }

  lemma StripStep(was: seq<char>, cells: seq<char>, i: nat, offset: nat, next: nat)
    requires Stripping(was, cells, i, offset) && i + offset < |Text(was)|
    requires i + offset <= next <= |Text(was)| && (next < |Text(was)| ==> Text(was)[next] != ' ')
    requires next > i + offset ==> Text(was)[next - 1] == ' '
    requires NoSpaces(Text(was)[..next]) == NoSpaces(Text(was)[..i + offset])
    ensures Stripping(was, cells[i := cells[next]], i + 1, next - i)
  {
    hide NoSpaces, HoldsKept, LastTaken;
    var text := Text(was);
    if next < |text| {
      StripKept(cells, text, i, offset, next);
    } else {
      assert text[..next] == text;
      StripTerminator(cells, text, i, offset);
    }
  }

  lemma StrippedIs(was: seq<char>, cells: seq<char>, i: nat)
    requires '\0' in was && |cells| == |was| && i <= |was|
    requires forall k | i <= k < |was| :: cells[k] == was[k]
    requires var text, kept := Text(was), NoSpaces(Text(was));
             || (i == |kept| && (text == "" || text[|text| - 1] != ' ') && cells[..i] == kept)
             || (i == |kept| + 1 && cells[..i - 1] == kept && cells[i - 1] == '\0'
                 && text != "" && text[|text| - 1] == ' ')
    ensures cells == Stripped(was)
  {
    hide NoSpaces, Text;
    assert cells[i..] == was[i..];
    assert cells == cells[..i] + cells[i..];
    if i > |NoSpaces(Text(was))| {
      assert cells[..i] == cells[..i - 1] + [cells[i - 1]];
    }
  }

  lemma StripEnd(was: seq<char>, cells: seq<char>, i: nat, offset: nat)
    requires '\0' in was && Stripping(was, cells, i, offset) && i + offset >= |Text(was)|
    ensures cells == Stripped(was) && |Text(was)| - offset == |NoSpaces(Text(was))|
  {
    hide NoSpaces, Text, Stripped;
    var text := Text(was);
    assert text[..|text|] == text;
    StrippedIs(was, cells, i);
  }

  /** The first cell from start on that is not a space. */
  method SkipSpaces(color: array<char>, start: nat, ghost text: string) returns (next: nat)
    requires start < |text| < color.Length && color[|text|] == '\0'
    requires forall k | start <= k < |text| :: color[k] == text[k]
    ensures start <= next <= |text| && (next < |text| ==> text[next] != ' ')
    ensures next > start ==> text[next - 1] == ' '
    ensures NoSpaces(text[..next]) == NoSpaces(text[..start])
  {
    next := start;
    while color[next] == ' '
      invariant start <= next <= |text| && NoSpaces(text[..next]) == NoSpaces(text[..start])
      invariant next > start ==> text[next - 1] == ' '
      decreases |text| - next
    {
      KeepOne(text, next);
      next := next + 1;
    }
  }

  method StrLen(s: array<char>) returns (n: nat)
    requires '\0' in s[..]
    ensures n == |Text(s[..])| < s.Length
  {
    n := 0;
    while s[n] != '\0'
      invariant n <= |Text(s[..])| < s.Length
      decreases s.Length - n
    {
      n := n + 1;
    }
  }

  /** Removes the spaces of the text in place; the length left is returned. */
  method StripSpaces(color: array<char>) returns (length: nat)
    requires '\0' in color[..] && |Text(color[..])| < 256
    modifies color
    ensures color[..] == Stripped(old(color[..]))
    ensures length == |NoSpaces(Text(old(color[..])))|
  {
    hide NoSpaces, Text, Stripped, LastTaken, HoldsKept;
    ghost var was := color[..];
    ghost var text := Text(was);
    length := StrLen(color);
    var i: nat, offset: nat := 0, 0;
    StripStart(was);
    while i + offset < length
      invariant length == |text| && Stripping(was, color[..], i, offset)
    {
      ghost var cells := color[..];
      var next := SkipSpaces(color, i + offset, text);
      StripStep(was, cells, i, offset, next);
      offset := next - i;
      color[i] := color[i + offset];
      assert color[..] == cells[i := cells[next]];
      i := i + 1;
    }
    StripEnd(was, color[..], i, offset);
    length := length - offset;
  }

  /** Three cells are read even when fewer hold digits. */
  function AtLeastThree(length: nat): nat { if length < 3 then 3 else length }

  /** The cell that goes to place k when each LED's digits follow pattern. */
  function Picked(pattern: seq<nat>, k: nat): (at: nat)
    requires |pattern| in {3, 6}
    ensures at in pattern
  {
    if |pattern| == 3 then pattern[k % 3] else pattern[k % 6]
  }

  /** Fills the digits of each LED with the cells that pattern picks. */
  method FillEachLed(digits: array<char>, color: array<char>, pattern: seq<nat>)
    requires digits.Length == 50 && digits != color && |pattern| in {3, 6}
    requires forall at | at in pattern :: at < color.Length
    modifies digits
    ensures forall k | 0 <= k < 8 * |pattern| :: digits[k] == color[Picked(pattern, k)]
    ensures forall k | 8 * |pattern| <= k < 50 :: digits[k] == old(digits[k])
  {
    var width := |pattern|;
    for i := 0 to 8 * width
      invariant forall k | 0 <= k < i :: digits[k] == color[Picked(pattern, k)]
      invariant forall k | i <= k < 50 :: digits[k] == old(digits[k])
    {
      digits[i] := color[Picked(pattern, i)];
    }
  }

  /** Three digits for each LED were given. */
  method FillFromShort(digits: array<char>, color: array<char>, full: bool)
    requires digits.Length == 50 && digits != color && color.Length >= 24
    requires forall k | 0 <= k < 50 :: digits[k] == '\0'
    modifies digits
    ensures forall k | 0 <= k < (if full then 48 else 24) :: digits[k] == if full then color[k / 2] else color[k]
    ensures forall k | (if full then 48 else 24) <= k < 50 :: digits[k] == '\0'
  {
    for i := 0 to 24
      invariant forall k | 0 <= k < (if full then 2 * i else i) :: digits[k] == if full then color[k / 2] else color[k]
      invariant forall k | (if full then 2 * i else i) <= k < 50 :: digits[k] == '\0'
    {
      if full {
        digits[i * 2] := color[i];
        digits[i * 2 + 1] := color[i];
      } else {
        digits[i] := color[i];
      }
    }
  }

  /** Six digits for each LED were given. */
  method FillFromLong(digits: array<char>, color: array<char>, full: bool)
    requires digits.Length == 50 && digits != color && color.Length >= 48
    requires forall k | 0 <= k < 50 :: digits[k] == '\0'
    modifies digits
    ensures forall k | 0 <= k < (if full then 48 else 24) :: digits[k] == if full then color[k] else color[k * 2]
    ensures forall k | (if full then 48 else 24) <= k < 50 :: digits[k] == '\0'
  {
    for i := 0 to if full then 48 else 24
      invariant forall k | 0 <= k < i :: digits[k] == if full then color[k] else color[k * 2]
      invariant forall k | i <= k < 50 :: digits[k] == '\0'
    {
      digits[i] := if full then color[i] else color[i * 2];
    }
  }

  /** Writes the standard form of the digits in color[..length]. */
  method Standardise(color: array<char>, length: nat, full: bool) returns (digits: array<char>)
    requires length <= color.Length && 3 <= color.Length
    ensures fresh(digits) && digits.Length == 50
    ensures forall k | 0 <= k < (if full then 48 else 24) ::
              digits[k] == StandardDigit(color[..AtLeastThree(length)], full, k)
    ensures forall k | (if full then 48 else 24) <= k < 50 :: digits[k] == '\0'
  {
    digits := new char[50](_ => '\0');
    if length < 6 {
      FillEachLed(digits, color, if full then [0, 0, 1, 1, 2, 2] else [0, 1, 2]);
    } else if length < 24 {
      FillEachLed(digits, color, if full then [0, 1, 2, 3, 4, 5] else [0, 2, 4]);
    } else if length < 48 {
      FillFromShort(digits, color, full);
    } else {
      FillFromLong(digits, color, full);
    }
  }

  lemma StrippedStart(buffer: seq<char>)
    requires '\0' in buffer
    ensures |NoSpaces(Text(buffer))| <= |buffer|
    ensures Stripped(buffer)[..|NoSpaces(Text(buffer))|] == NoSpaces(Text(buffer))
  {
    hide NoSpaces, Text;
  }

  lemma NoDigitsNoByte()
    ensures Pair('\0', '\0') == 0
  {
  }

  /** Takes the digits out of their character form, two to a byte. */
  method FromDigits(digits: array<char>) returns (buf: array<Byte>)
    requires digits.Length == 50
    ensures fresh(buf) && buf.Length == 26 && buf[25] == 0
    ensures forall k | 0 <= k < 25 :: buf[k] == Pair(digits[2 * k], digits[2 * k + 1])
  {
    buf := new Byte[26](_ => 0);
    for i := 0 to 25
      modifies buf
      invariant forall k | 0 <= k < i :: buf[k] == Pair(digits[2 * k], digits[2 * k + 1])
      invariant forall k | i <= k < 26 :: buf[k] == 0
    {
      var msb, lsb := Nibble(digits[2 * i]), Nibble(digits[2 * i + 1]);
      buf[i] := (16 * msb + lsb) % 256;
    }
  }

  /** Bytes from text of any spacing; the text loses its spaces in place. */
  method MakeColor(color: array<char>, full: bool) returns (buf: array<Byte>)
    requires '\0' in color[..] && |Text(color[..])| < 256 && color.Length >= 3
    modifies color
    ensures fresh(buf) && buf.Length == 26 && color[..] == Stripped(old(color[..]))
    ensures var n := if full then 24 else 12;
            && buf[..n] == ColorBytes(ColorCells(old(color[..])), full)
            && forall k | n <= k < 26 :: buf[k] == 0
  {
    hide NoSpaces, Text, Pair, StandardDigit, Stripped;
    ghost var was := color[..];
    var length := StripSpaces(color);
    StrippedStart(was);
    ghost var c := color[..AtLeastThree(length)];
    assert c == ColorCells(was);
    var digits := Standardise(color, length, full);
    buf := FromDigits(digits);
    ghost var n := if full then 24 else 12;
    forall k | 0 <= k < n ensures buf[k] == ColorBytes(c, full)[k] {
      assert digits[2 * k] == StandardDigit(c, full, 2 * k) && digits[2 * k + 1] == StandardDigit(c, full, 2 * k + 1);
    }
    forall k | n <= k < 25 ensures buf[k] == 0 {
      assert digits[2 * k] == '\0' && digits[2 * k + 1] == '\0';
      NoDigitsNoByte();
    }
  }

  lemma PrintedText(bytes: seq<Byte>, buffer: seq<char>)
    requires |bytes| == COLOR_LENGTH && |buffer| == 56
    requires buffer[..55] == Human(Hex(bytes)) && buffer[55] == '\0'
    ensures '\0' in buffer && Text(buffer) == Human(Hex(bytes))
  {
    hide Hex;
    var text := Human(Hex(bytes));
    HexIsHex(bytes);
    assert '\0' !in text by {
      forall k | 0 <= k < 55 ensures text[k] != '\0' {
        if k % 7 != 6 { assert text[k] in Hex(bytes); }
      }
    }
    assert buffer == text + ['\0'];
    TextOfAll(text);
  }

  /** The shown colour, printed for people and parsed from that text, comes back. */
  method PrintAndParse(p: PlasmaTrim) returns (printed: string, buf: array<Byte>)
    requires p.Valid()
    modifies p
    ensures p.Valid() && p.memory == old(p.memory)
    ensures |printed| == 55 && forall k | 0 <= k < 55 :: printed[k] == ' ' <==> k % 7 == 6
    ensures buf.Length == 26 && buf[..24] == p.memory.shown
  {
    var data := GetColor(p);
    var color := MakeHumanColor(data);
    printed := color[..55];
    PrintedText(p.memory.shown, color[..]);
    PrintParse(p.memory.shown);
    buf := MakeColor(color, true);
  }
}
