/** The PlasmaTrim as ideal memory behind 32-byte commands, and the library
    calls that only set or get a value (src/ptrim-lib.cc). */
module Device {
  import opened Prelude

  const REPORT_LENGTH := 32
  const SLOTS := 76
  const SLOT_LENGTH := 13
  const NAME_LENGTH := 26
  const COLOR_LENGTH := 24

  /** slots[k] holds twelve colour bytes and one byte of hold and fade time. level is
      the brightness that came with the shown colour. */
  datatype Memory = Memory(
    slots: seq<seq<Byte>>, active: Byte, name: seq<Byte>, brightness: Byte,
    shown: seq<Byte>, level: Byte, playing: bool)

  predicate WellFormed(m: Memory) {
    |m.slots| == SLOTS && (forall k | 0 <= k < SLOTS :: |m.slots[k]| == SLOT_LENGTH) &&
    |m.name| == NAME_LENGTH && |m.shown| == COLOR_LENGTH
  }

  /** The text a zero-padded buffer holds. */
  function CString(s: seq<Byte>): string {
    if s == [] || s[0] == 0 then [] else [s[0] as char] + CString(s[1..])
  }

  function NoMemory(): (m: Memory)
    ensures WellFormed(m) && CString(m.name) == "" && m.brightness == 0 && !m.playing
  {
    Memory(seq(SLOTS, k => seq(SLOT_LENGTH, i => 0)), 0, seq(NAME_LENGTH, i => 0), 0,
           seq(COLOR_LENGTH, i => 0), 0, false)
  }

  /** The memory of a unit. */
  type Unit = m: Memory | WellFormed(m) witness NoMemory()

  /** A colour of eight LEDs, three bytes each. */
  type Rgb = c: seq<Byte> | |c| == COLOR_LENGTH witness seq(COLOR_LENGTH, i => 0)

  /** What a 32-byte command does to the memory. */
  function Exec(m: Memory, cmd: seq<Byte>): (r: Memory)
    requires WellFormed(m) && |cmd| == REPORT_LENGTH
    ensures WellFormed(r)
  {
    match cmd[0]
    case 0x00 => m.(shown := cmd[1..25], level := cmd[25])
    case 0x02 => m.(playing := true)
    case 0x03 => m.(playing := false)
    case 0x04 => m.(active := cmd[1])
    case 0x06 => if cmd[1] < SLOTS then m.(slots := m.slots[cmd[1] := cmd[2..15]]) else m
    case 0x08 => m.(name := cmd[1..27])
    case 0x0B => m.(brightness := cmd[1])
    case _ => m
  }

  function Pad(s: seq<Byte>): (r: seq<Byte>)
    requires |s| <= REPORT_LENGTH
    ensures |r| == REPORT_LENGTH && s <= r && forall i | |s| <= i < REPORT_LENGTH :: r[i] == 0
  {
    s + seq(REPORT_LENGTH - |s|, i => 0)
  }

  /** The 32-byte reply that follows a command. */
  function Reply(m: Memory, cmd: seq<Byte>): (r: seq<Byte>)
    requires WellFormed(m) && |cmd| == REPORT_LENGTH
    ensures |r| == REPORT_LENGTH
  {
    match cmd[0]
    case 0x01 => Pad([0x01] + m.shown)
    case 0x05 => Pad([0x05, m.active])
    case 0x07 => if cmd[1] < SLOTS then Pad([0x07, cmd[1]] + m.slots[cmd[1]]) else Pad([0x07, cmd[1]])
    case 0x09 => Pad([0x09] + m.name)
    case 0x0C => Pad([0x0C, m.brightness])
    case c => Pad([c])
  }

  // -------------------------------------------------------------------- names

  predicate Printable(c: char) { 0x20 <= c as int < 0x80 }

  function PrintableOnly(s: string): (r: string)
    ensures |r| <= |s| && forall c <- r :: Printable(c)
  {
    if s == [] then []
    else PrintableOnly(s[..|s| - 1]) + (if Printable(s[|s| - 1]) then [s[|s| - 1]] else [])
  }

  lemma PrintableOneMore(s: string, n: nat)
    requires n < |s|
    ensures PrintableOnly(s[..n + 1]) == PrintableOnly(s[..n]) + (if Printable(s[n]) then [s[n]] else [])
  {
    assert s[..n + 1][..n] == s[..n];
  }

  /** What the device keeps of a requested name. */
  function StoredName(name: string): string {
    PrintableOnly(if |name| > NAME_LENGTH then name[..NAME_LENGTH] else name)
  }

  function CodeOf(c: char): Byte { c as int % 256 }

  function Codes(s: string): seq<Byte> {
    seq(|s|, i requires 0 <= i < |s| => CodeOf(s[i]))
  }

  lemma {:induction false} CStringOfCodes(s: string, tail: seq<Byte>)
    requires forall c <- s :: Printable(c)
    requires tail == [] || tail[0] == 0
    ensures CString(Codes(s) + tail) == s
  {
    if s == [] {
    } else {
      var t := s[1..];
      assert forall c <- t :: c in s;
      var all := Codes(s) + tail;
      assert s[0] in s && all[0] == s[0] as int;
      assert all[1..] == Codes(t) + tail;
      CStringOfCodes(t, tail);
    }
  }

  /** The name memory after a name command: the kept characters and zeros behind them. */
  function NameBytes(name: string): (r: seq<Byte>)
    ensures |r| == NAME_LENGTH && CString(r) == StoredName(name)
  {
    var kept := StoredName(name);
    var rest := seq(NAME_LENGTH - |kept|, i => 0);
    CStringOfCodes(kept, rest);
    Codes(kept) + rest
  }

  lemma NameBytesIs(name: string, bytes: seq<Byte>)
    requires |bytes| == NAME_LENGTH >= |StoredName(name)| && bytes[..|StoredName(name)|] == Codes(StoredName(name))
    requires forall k | |StoredName(name)| <= k < NAME_LENGTH :: bytes[k] == 0
    ensures bytes == NameBytes(name)
  {
    hide StoredName, Codes;
    var n := |StoredName(name)|;
    assert bytes == bytes[..n] + bytes[n..];
  }

  lemma {:induction false} PrintableOnlyKeepsAll(s: string)
    ensures PrintableOnly(s) == s <==> forall c <- s :: Printable(c)
  {
    if s == [] {
    } else {
      var t := s[..|s| - 1];
      PrintableOnlyKeepsAll(t);
      assert s == t + [s[|s| - 1]];
      if forall c <- s :: Printable(c) {
        assert forall c <- t :: c in s;
      }
    }
  }

  /** Which characters a name keeps is decided one by one, in order. */
  lemma {:induction false} PrintableOfConcat(a: string, b: string)
    ensures PrintableOnly(a + b) == PrintableOnly(a) + PrintableOnly(b)
    decreases |b|
  {
    if b == [] {
      assert a + b == a;
    } else {
      PrintableOfConcat(a, b[..|b| - 1]);
      assert (a + b)[..|a + b| - 1] == a + b[..|b| - 1];
    }
  }

  /** A stored name: only the first 26 characters count, a printable one among them
      is kept and any other is left out, in order. */
  lemma StoredNameKeeps(head: string, c: char, rest: string)
    ensures |head| + 1 + |rest| <= NAME_LENGTH ==>
              StoredName(head + [c] + rest)
              == StoredName(head) + (if Printable(c) then [c] else []) + StoredName(rest)
    ensures |head| == NAME_LENGTH ==> StoredName(head + rest) == StoredName(head)
  {
    if |head| + 1 + |rest| <= NAME_LENGTH {
      PrintableOfConcat(head + [c], rest);
      PrintableOfConcat(head, [c]);
      assert PrintableOnly([c]) == if Printable(c) then [c] else [];
    }
    if |head| == NAME_LENGTH && rest != [] {
      assert (head + rest)[..NAME_LENGTH] == head;
    } else if |head| == NAME_LENGTH {
      assert head + rest == head;
    }
  }

  /** A name survives being stored exactly when it is at most 26 printable characters. */
  lemma NameKept(name: string)
    ensures StoredName(name) == name <==>
            |name| <= NAME_LENGTH && forall c <- name :: ' ' <= c && c as int < 128
  {
    PrintableOnlyKeepsAll(name);
  }

  lemma {:induction false} CStringStops(s: seq<Byte>, next: Byte)
    ensures |CString(s)| <= |s| && (|CString(s)| < |s| <==> 0 in s)
    ensures CString(s + [next]) == if 0 in s || next == 0 then CString(s) else CString(s) + [next as char]
    decreases |s|
  {
    if s == [] {
      assert [next][1..] == [];
    } else {
      assert (s + [next])[1..] == s[1..] + [next];
      CStringStops(s[1..], next);
    }
  }

  /** The buffer that getName fills is a terminated text that reads as the stored
      name exactly when the name is shorter than the memory for it or the unset byte is zero. */
  lemma NameReadBack(name: seq<Byte>, unset: Byte)
    requires |name| == NAME_LENGTH
    ensures CString(name + [unset]) == CString(name) && 0 in name + [unset]
            <==> |CString(name)| < NAME_LENGTH || unset == 0
  {
    CStringStops(name, unset);
  }

  /** Keeps a brightness between 1 and 100. */
  function MakeBrightness(level: int): (r: Byte)
    ensures 1 <= r <= 100
    ensures 1 <= level <= 100 ==> r == level
  {
    if level > 100 then 100 else if level < 1 then 1 else level
  }

  function MakeActive(count: Byte): (r: Byte)
    ensures 1 <= r <= SLOTS
    ensures 1 <= count <= SLOTS ==> r == count
  {
    if count > SLOTS then SLOTS else if count < 1 then 1 else count
  }

  function Distance(a: int, b: int): nat { if a < b then b - a else a - b }

  /** Out of range, a brightness or a slot count becomes the nearest one in range. */
  lemma ClampsToNearest(level: int, other: int)
    ensures 1 <= other <= 100 ==> Distance(level, MakeBrightness(level)) <= Distance(level, other)
    ensures 0 <= level < 256 && 1 <= other <= SLOTS ==> Distance(level, MakeActive(level)) <= Distance(level, other)
  {
  }

  // ------------------------------------------------------------------ handles

  /** An open device. A write stores its command in memory and leaves one reply to read. */
  class PlasmaTrim {
    var memory: Memory
    var reply: seq<Byte>

    predicate Valid()
      reads this
    {
      WellFormed(memory) && |reply| == REPORT_LENGTH
    }

    constructor (memory: Memory)
      requires WellFormed(memory)
      ensures Valid() && this.memory == memory
    {
      this.memory := memory;
      reply := Pad([]);
    }

    method HidWrite(cmd: array<Byte>)
      requires Valid() && cmd.Length == REPORT_LENGTH
      modifies this
      ensures Valid()
      ensures memory == Exec(old(memory), cmd[..])
      ensures reply == Reply(old(memory), cmd[..])
    {
      reply := Reply(memory, cmd[..]);
      memory := Exec(memory, cmd[..]);
    }

    method Start()
      requires Valid()
      modifies this
      ensures Valid() && memory == old(memory).(playing := true)
    {
      var cmd := new Byte[REPORT_LENGTH](_ => 0);
      cmd[0] := 0x02;
      HidWrite(cmd);
    }

    method Stop()
      requires Valid()
      modifies this
      ensures Valid() && memory == old(memory).(playing := false)
    {
      var cmd := new Byte[REPORT_LENGTH](_ => 0);
      cmd[0] := 0x03;
      HidWrite(cmd);
    }

    method GetActiveSlots() returns (count: Byte)
      requires Valid()
      modifies this
      ensures Valid() && memory == old(memory) && count == memory.active
    {
      var cmd := new Byte[REPORT_LENGTH](_ => 0);
      cmd[0] := 0x05;
      HidWrite(cmd);
      count := reply[1];
    }

    method SetActiveSlots(count: Byte)
      requires Valid()
      modifies this
      ensures Valid() && memory == old(memory).(active := MakeActive(count))
    {
      var cmd := new Byte[REPORT_LENGTH](_ => 0);
      cmd[0], cmd[1] := 0x04, MakeActive(count);
      HidWrite(cmd);
    }

    method GetBrightness() returns (level: Byte)
      requires Valid()
      modifies this
      ensures Valid() && memory == old(memory) && level == memory.brightness
    {
      var cmd := new Byte[REPORT_LENGTH](_ => 0);
      cmd[0] := 0x0C;
      HidWrite(cmd);
      level := reply[1];
    }

    method SetBrightness(brightness: Byte)
      requires Valid()
      modifies this
      ensures Valid() && memory == old(memory).(brightness := brightness)
    {
      var cmd := new Byte[REPORT_LENGTH](_ => 0);
      cmd[0], cmd[1] := 0x0B, brightness;
      HidWrite(cmd);
    }

    /** The colour goes out with a brightness at offset 25. */
    method SetColor(color: seq<Byte>, brightness: Byte)
      requires Valid() && |color| >= COLOR_LENGTH
      modifies this
      ensures Valid() && memory == old(memory).(shown := color[..COLOR_LENGTH], level := brightness)
    {
      var cmd := new Byte[REPORT_LENGTH](_ => 0);
      for i := 0 to COLOR_LENGTH
        modifies cmd
        invariant cmd[0] == 0 && cmd[1..i + 1] == color[..i]
      {
        cmd[i + 1] := color[i];
      }
      cmd[25] := brightness;
      assert cmd[..][1..25] == color[..COLOR_LENGTH];
      HidWrite(cmd);
    }

    /** Fills the name command from offset 1, skipping what does not print. */
    static method CopyPrintable(cmd: array<Byte>, name: string)
      requires cmd.Length == REPORT_LENGTH && forall k | 1 <= k < REPORT_LENGTH :: cmd[k] == 0
      modifies cmd
      ensures cmd[0] == old(cmd[0])
      ensures |StoredName(name)| <= NAME_LENGTH && cmd[1..1 + |StoredName(name)|] == Codes(StoredName(name))
      ensures forall k | 1 + |StoredName(name)| <= k < REPORT_LENGTH :: cmd[k] == 0
    {
      hide PrintableOnly;
      var text := if |name| > NAME_LENGTH then name[..NAME_LENGTH] else name;
      var offset := 0;
      for i := 0 to |text|
        invariant 0 <= offset <= i
        invariant |PrintableOnly(text[..i])| == i - offset
        invariant cmd[0] == old(cmd[0])
        invariant cmd[1..i + 1 - offset] == Codes(PrintableOnly(text[..i]))
        invariant forall k | i + 1 - offset <= k < REPORT_LENGTH :: cmd[k] == 0
      {
        PrintableOneMore(text, i);
        ghost var before := cmd[1..i + 1 - offset];
        if Printable(text[i]) {
          cmd[i + 1 - offset] := text[i] as int;
          assert cmd[1..i + 2 - offset] == before + [text[i] as int];
        } else {
          offset := offset + 1;
        }
      }
      assert text[..|text|] == text;
    }

    method SetName(name: string)
      requires Valid()
      modifies this
      ensures Valid() && memory == old(memory).(name := NameBytes(name))
    {
      var cmd := new Byte[REPORT_LENGTH](_ => 0);
      cmd[0] := 0x08;
      CopyPrintable(cmd, name);
      hide StoredName, Codes, NameBytes;
      NameBytesIs(name, cmd[..][1..27]);
      HidWrite(cmd);
    }

    /** The buffer returned has 27 bytes, of which the last is not set; it holds
        what the memory happened to hold. */
    method GetName(unset: Byte) returns (buf: array<Byte>)
      requires Valid()
      modifies this
      ensures Valid() && memory == old(memory)
      ensures fresh(buf) && buf[..] == memory.name + [unset]
    {
      var cmd := new Byte[REPORT_LENGTH](_ => 0);
      cmd[0] := 0x09;
      HidWrite(cmd);
      buf := new Byte[27](_ => unset);
      ghost var name := reply[1..27];
      assert name == memory.name;
      for i := 0 to NAME_LENGTH
        modifies buf
        invariant buf[..i] == name[..i] && buf[26] == unset
      {
        buf[i] := reply[i + 1];
      }
      assert buf[..] == buf[..26] + [unset];
    }
  }
}
