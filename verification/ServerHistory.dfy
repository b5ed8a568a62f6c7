/** What every value of a device is after any run: what the last step that wrote it
    wrote. The steps that write are listed value by value, not command by command. */
module ServerHistory {
  import opened Prelude
  import opened Device
  import opened Sequence
  import opened ServerTable
  import opened ServerTheorems

  /** What is kept of a device, in the table or in the unit itself. */
  datatype Register = PlayingIn | StatusIn | LockIn | NameIn | SavedIn | TempIn | ColorIn | LevelIn

  datatype Value =
    | Flag(on: bool)
    | State(status: Status)
    | Owner(socket: int)
    | Text(text: string)
    | Level(level: Byte)
    | Light(color: seq<Byte>)

  function Read(d: Slot, r: Register): Value {
    match r
    case PlayingIn => Flag(d.unit.playing)
    case StatusIn => State(d.status)
    case LockIn => Owner(d.lock)
    case NameIn => Text(d.name)
    case SavedIn => Level(d.brightness)
    case TempIn => Level(d.tempBrightness)
    case ColorIn => Light(d.unit.shown)
    case LevelIn => Level(d.unit.level)
  }

  // ------------------------------------------------------------ what is written

  predicate StartsUnit(d: Slot, cmd: Command, output: int) {
    && Permitted(d, output)
    && (cmd.Start? || (cmd.Upload? && !Rejected(cmd.file))
        || (cmd.Color? && cmd.first.Some? && d.status == Play))
  }

  predicate StopsUnit(d: Slot, cmd: Command, output: int) {
    if Permitted(d, output) then
      cmd.Stop? || (cmd.Unlock? && d.status == Locked) || (cmd.Upload? && Rejected(cmd.file))
    else
      cmd == ForceUnlock
  }

  function Changed(before: Byte, after: Byte): Option<Byte> { if before == after then None else Some(after) }

  /** The level an allowed command saves. */
  function SavedBy(d: Slot, cmd: Command): Option<Byte> {
    match cmd
    case Brightness(Save) => Changed(d.brightness, d.tempBrightness)
    case Brightness(Set(level, false)) => Changed(d.brightness, MakeBrightness(level))
    case _ => None
  }

  /** The temporary level an allowed command sets. */
  function TempBy(d: Slot, cmd: Command): Option<Byte> {
    match cmd
    case Brightness(Temp(level)) => Changed(d.tempBrightness, MakeBrightness(level))
    case Brightness(Reset) => Changed(d.tempBrightness, d.brightness)
    case Brightness(Set(level, false)) =>
      if SavedBy(d, cmd).Some? then Changed(d.tempBrightness, MakeBrightness(level)) else None
    case Color(None, _, Some(level)) => Changed(d.tempBrightness, MakeBrightness(level))
    case Fade(_, Some(level)) => Changed(d.tempBrightness, MakeBrightness(level))
    case _ => None
  }

  function TempAfter(d: Slot, cmd: Command): Byte {
    if TempBy(d, cmd).Some? then TempBy(d, cmd).value else d.tempBrightness
  }

  /** The level at which an allowed command shows a colour. */
  function LevelBy(d: Slot, cmd: Command): Option<Byte> {
    match cmd
    case Color(_, _, _) => Some(TempAfter(d, cmd))
    case Fade(_, _) => Some(TempAfter(d, cmd))
    case Upload(_, _, _) => Some(d.unit.brightness)
    case Brightness(change) =>
      if d.status == Idle && ((change.Temp? && TempBy(d, cmd).Some?) || (change.Set? && SavedBy(d, cmd).Some?))
      then Some(TempAfter(d, cmd)) else None
    case _ => None
  }

  function StatusBy(d: Slot, cmd: Command, output: int): Option<Status> {
    if !Permitted(d, output) then (if cmd == ForceUnlock then Some(Idle) else None)
    else
      match cmd
      case LockDevice => if d.status == Locked then None else Some(Locked)
      case Unlock => if d.status == Locked then Some(Idle) else None
      case Start => Some(Play)
      case Stop => Some(Idle)
      case Color(_, _, _) => if d.status == Idle then None else Some(Idle)
      case Fade(_, _) => if d.status == Idle then None else Some(Idle)
      case _ => None
  }

  /** Only taking and ending a lock change its owner; other commands that end the
      locked status leave the owner's socket behind. */
  function OwnerBy(d: Slot, cmd: Command, output: int): Option<int> {
    if !Permitted(d, output) then (if cmd == ForceUnlock then Some(-1) else None)
    else if cmd == LockDevice && d.status != Locked then Some(output)
    else if cmd == Unlock && d.status == Locked then Some(-1)
    else None
  }

  function ColorBy(cmd: Command): Option<Value> {
    match cmd
    case Color(_, color, _) => Some(Light(color))
    case Fade(color, _) => Some(Light(color))
    case Upload(_, _, _) => Some(Light(seq(COLOR_LENGTH, j => 0)))
    case _ => None
  }

  function AsLevel(level: Option<Byte>): Option<Value> { if level.Some? then Some(Level(level.value)) else None }

  /** What a command writes. */
  function Given(d: Slot, cmd: Command, output: int, r: Register): Option<Value> {
    if r == PlayingIn then
      if StartsUnit(d, cmd, output) then Some(Flag(true))
      else if StopsUnit(d, cmd, output) then Some(Flag(false))
      else None
    else if r == StatusIn then
      var status := StatusBy(d, cmd, output);
      if status.Some? then Some(State(status.value)) else None
    else if r == LockIn then
      var owner := OwnerBy(d, cmd, output);
      if owner.Some? then Some(Owner(owner.value)) else None
    else if !Permitted(d, output) then None
    else
      match r
      case NameIn => if cmd.Rename? then Some(Text(StoredName(cmd.newName))) else None
      case SavedIn => AsLevel(SavedBy(d, cmd))
      case TempIn => AsLevel(TempBy(d, cmd))
      case ColorIn => ColorBy(cmd)
      case LevelIn => AsLevel(LevelBy(d, cmd))
  }

  function Kept(written: Option<Value>, before: Value): Value { if written.Some? then written.value else before }

  // ------------------------------------------------------- commands write so

  lemma BrightnessWrites(d: Slot, change: BrightnessChange)
    ensures var r, cmd := Brightened(d, change), Brightness(change);
            && Level(r.brightness) == Kept(AsLevel(SavedBy(d, cmd)), Level(d.brightness))
            && Level(r.tempBrightness) == Kept(AsLevel(TempBy(d, cmd)), Level(d.tempBrightness))
            && Level(r.unit.level) == Kept(AsLevel(LevelBy(d, cmd)), Level(d.unit.level))
            && r.unit.shown == d.unit.shown && r.name == d.name && r.unit.playing == d.unit.playing
            && r.status == d.status && r.lock == d.lock
            && (BrightnessBit in r.notify <==> BrightnessBit in d.notify || SavedBy(d, cmd).Some?)
            && (TempBrightnessBit in r.notify <==> TempBrightnessBit in d.notify || TempBy(d, cmd).Some?)
            && (NameBit in r.notify <==> NameBit in d.notify) && (StatusBit in r.notify <==> StatusBit in d.notify)
  {
    hide MakeBrightness, WellFormed;
  }

  lemma UploadWrites(d: Slot, file: File, full: bool, id: Place)
    ensures var r := UploadedTo(d, file, full, id);
            && r == d.(unit := r.unit) && r.unit.playing == !Rejected(file)
            && r.unit.shown == seq(COLOR_LENGTH, j => 0) && r.unit.level == d.unit.brightness
  {
    hide AfterUpload, Rejected;
    UploadDarkens(file, !full, id, d.unit);
    var shown := AfterUpload(file, !full, id, d.unit).shown;
    assert forall j | 0 <= j < COLOR_LENGTH :: shown[j] in shown;
  }

  /** Colours, with and without a name, and fades. */
  lemma ColorWrites(d: Slot, cmd: Command)
    requires cmd.Color? || cmd.Fade?
    ensures var r := if cmd.Color? then Colored(d, cmd.first, cmd.color, cmd.tempLevel)
                     else Shown(MakeIdle(WithTemp(d, cmd.tempLevel)), cmd.color);
            && r.name == d.name && r.brightness == d.brightness && r.status == Idle && r.lock == d.lock
            && r.tempBrightness == TempAfter(d, cmd) && r.unit.level == TempAfter(d, cmd)
            && r.unit.shown == cmd.color
            && r.unit.playing == (d.unit.playing || (cmd.Color? && cmd.first.Some? && d.status == Play))
            && (NameBit in r.notify <==> NameBit in d.notify)
            && (BrightnessBit in r.notify <==> BrightnessBit in d.notify)
            && (TempBrightnessBit in r.notify <==> TempBrightnessBit in d.notify || TempBy(d, cmd).Some?)
            && (StatusBit in r.notify <==> StatusBit in d.notify || d.status != Idle)
  {
    hide MakeBrightness, WellFormed;
  }

  /** A command that is not permitted writes nothing, unless it forces the lock. */
  lemma RefusedWrites(d: Slot, cmd: Command, output: int, r: Register)
    requires !Permitted(d, output)
    ensures Read(RunThread(d, cmd, output).0, r) == Kept(Given(d, cmd, output, r), Read(d, r))
    ensures RunThread(d, cmd, output).0.notify == d.notify + if cmd == ForceUnlock then {StatusBit} else {}
  {
    hide WellFormed, Rejected;
  }

  /** A command writes exactly what is listed, value by value. */
  lemma CommandWrites(d: Slot, cmd: Command, output: int, r: Register)
    ensures Read(RunThread(d, cmd, output).0, r) == Kept(Given(d, cmd, output, r), Read(d, r))
  {
    hide MakeBrightness, StoredName, Brightened, WellFormed, Rejected, UploadedTo, Colored, Shown, MakeIdle, WithTemp;
    if !Permitted(d, output) {
      RefusedWrites(d, cmd, output, r);
    } else {
      match cmd
      case Brightness(change) => BrightnessWrites(d, change);
      case Upload(file, full, id) => UploadWrites(d, file, full, id);
      case Color(_, _, _) => ColorWrites(d, cmd);
      case Fade(_, _) => ColorWrites(d, cmd);
      case _ =>
    }
  }

  lemma BrightnessKeepsRest(d: Slot, change: BrightnessChange)
    ensures var r := Brightened(d, change).unit;
            r.slots == d.unit.slots && r.active == d.unit.active && r.name == d.unit.name
  {
    hide MakeBrightness, WellFormed;
  }

  /** Only an upload changes the sequence, and only a new name the stored one. */
  lemma OnlyUploadPrograms(d: Slot, cmd: Command, output: int)
    ensures var r := RunThread(d, cmd, output).0.unit;
            && (!cmd.Upload? || !Permitted(d, output) ==> r.slots == d.unit.slots && r.active == d.unit.active)
            && r.name == if cmd.Rename? && Permitted(d, output) then NameBytes(cmd.newName) else d.unit.name
  {
    hide MakeBrightness, StoredName, NameBytes, WellFormed, Rejected, Brightened;
    if cmd.Brightness? { BrightnessKeepsRest(d, cmd.change); }
  }

  /** What a command is answered. */
  lemma RepliesExactly(d: Slot, cmd: Command, output: int)
    ensures var reply, allowed := RunThread(d, cmd, output).1, Permitted(d, output);
            && (reply == PermissionDenied <==> !allowed && cmd != ForceUnlock)
            && (reply == UnknownCommand <==> allowed && (cmd == ForceUnlock || cmd == Unrecognised))
            && (reply == AlreadyLocked <==> allowed && cmd == LockDevice && d.status == Locked)
            && (reply == NotLocked <==> allowed && cmd == Unlock && d.status != Locked)
            && (reply == UploadError <==> allowed && cmd.Upload? && Rejected(cmd.file))
            && (reply == UploadSuccess <==> allowed && cmd.Upload? && !Rejected(cmd.file))
            && (reply.ShownColor? <==> allowed && cmd.Color? && cmd.first.Some?)
            && (reply.SequenceLines? <==> allowed && cmd.Download?)
  {
    hide MakeBrightness, StoredName, NameBytes, WellFormed, Rejected, Brightened, UploadedTo, Colored, SentLines;
  }

  /** The answer to a color command names the colour that was shown: it reads back. */
  lemma ColorAnswerReads(d: Slot, color: Rgb, later: Rgb, tempLevel: Option<int>, output: int)
    requires Permitted(d, output)
    ensures var reply := RunThread(d, Color(Some(color), later, tempLevel), output).1;
            && reply.ShownColor? && |reply.text| == 55
            && |Colors.NoSpaces(reply.text)| == 48 && Colors.ColorBytes(Colors.NoSpaces(reply.text), true) == color
  {
    hide Colored, WellFormed;
    Colors.PrintParse(color);
  }

  function RegisterOf(b: Bit): Register {
    match b
    case NameBit => NameIn
    case BrightnessBit => SavedIn
    case TempBrightnessBit => TempIn
    case StatusBit => StatusIn
  }

  /** A command sets the notify bits of what it writes, and no others. */
  lemma NotifiesExactly(d: Slot, cmd: Command, output: int, b: Bit)
    ensures b in RunThread(d, cmd, output).0.notify <==>
            b in d.notify || Given(d, cmd, output, RegisterOf(b)).Some?
  {
    hide MakeBrightness, StoredName, Brightened, WellFormed, Rejected, UploadedTo, Colored, Shown, MakeIdle, WithTemp;
    if !Permitted(d, output) {
      RefusedWrites(d, cmd, output, StatusIn);
    } else {
      match cmd
      case Brightness(change) => BrightnessWrites(d, change);
      case Upload(file, full, id) => UploadWrites(d, file, full, id);
      case Color(_, _, _) => ColorWrites(d, cmd);
      case Fade(_, _) => ColorWrites(d, cmd);
      case _ =>
    }
  }

  // ----------------------------------------------------------- steps and runs

  function AddedValue(hw: Hardware, r: Register): Value {
    match r
    case PlayingIn => Flag(true)
    case StatusIn => State(Play)
    case LockIn => Owner(-1)
    case NameIn => Text(CString(hw.unit.name))
    case SavedIn => Level(hw.unit.brightness)
    case TempIn => Level(hw.unit.brightness)
    case ColorIn => Light(hw.unit.shown)
    case LevelIn => Level(hw.unit.level)
  }

  function ReleasedValue(r: Register): Option<Value> {
    match r
    case PlayingIn => Some(Flag(false))
    case StatusIn => Some(State(Idle))
    case LockIn => Some(Owner(-1))
    case _ => None
  }

  /** What a step writes for device i. */
  function Written(s: Server, e: Event, i: nat, r: Register): Option<Value>
    requires i < |s.slots| && Enabled(s, e)
  {
    match e
    case Run(j, k, cmd) => if k == i then Given(s.slots[i], cmd, s.clients[j].socket, r) else None
    case Leave(j) => if s.slots[i].lock == s.clients[j].socket then ReleasedValue(r) else None
    case Remove(k) => if k == i then Some(Read(EMPTY, r)) else None
    case Add(k, _, hw) => if k == i then Some(AddedValue(hw, r)) else None
    case _ => None
  }

  lemma StepWrites(s: Server, e: Event, i: nat, r: Register)
    requires i < |s.slots| && Enabled(s, e)
    ensures |Next(s, e).slots| == |s.slots|
    ensures Read(Next(s, e).slots[i], r) == Kept(Written(s, e, i, r), Read(s.slots[i], r))
  {
    hide RunThread, Given, WellFormed;
    if e.Run? && e.device == i { CommandWrites(s.slots[i], e.cmd, s.clients[e.client].socket, r); }
  }

  /** Step n of a run. */
  function WrittenAt(s: Server, es: seq<Event>, n: nat, i: nat, r: Register): Option<Value>
    requires IsRun(s, es) && n < |es| && i < |s.slots|
    decreases n
  {
    if n == 0 then Written(s, es[0], i, r) else WrittenAt(Next(s, es[0]), es[1..], n - 1, i, r)
  }

  /** It is what the step writes in the state it is taken in. */
  lemma {:induction false} WrittenInState(s: Server, es: seq<Event>, n: nat, i: nat, r: Register)
    requires IsRun(s, es) && n < |es| && i < |s.slots|
    ensures i < |States(s, es)[n].slots| && Enabled(States(s, es)[n], es[n])
    ensures WrittenAt(s, es, n, i, r) == Written(States(s, es)[n], es[n], i, r)
    decreases n
  {
    hide Written, Read;
    if n == 0 {
    } else {
      StepWrites(s, es[0], i, r);
      WrittenInState(Next(s, es[0]), es[1..], n - 1, i, r);
    }
  }

  /** A value that no step writes stays. */
  lemma {:induction false} UnwrittenStays(s: Server, es: seq<Event>, i: nat, r: Register)
    requires IsRun(s, es) && i < |s.slots|
    requires forall n | 0 <= n < |es| :: WrittenAt(s, es, n, i, r) == None
    ensures |After(s, es).slots| == |s.slots| && Read(After(s, es).slots[i], r) == Read(s.slots[i], r)
    decreases |es|
  {
    hide Written, Read;
    if es == [] {
    } else {
      StepWrites(s, es[0], i, r);
      assert WrittenAt(s, es, 0, i, r) == None;
      forall n | 0 <= n < |es| - 1 ensures WrittenAt(Next(s, es[0]), es[1..], n, i, r) == None {
        assert WrittenAt(s, es, n + 1, i, r) == None;
      }
      UnwrittenStays(Next(s, es[0]), es[1..], i, r);
    }
  }

  /** After any run a value is what the last step that wrote it wrote. */
  lemma {:induction false} LastWriteStands(s: Server, es: seq<Event>, n: nat, i: nat, r: Register)
    requires IsRun(s, es) && i < |s.slots| && n < |es| && WrittenAt(s, es, n, i, r).Some?
    requires forall m | n < m < |es| :: WrittenAt(s, es, m, i, r) == None
    ensures |After(s, es).slots| == |s.slots| && Read(After(s, es).slots[i], r) == WrittenAt(s, es, n, i, r).value
    decreases n
  {
    hide Written, Read;
    var t, rest := Next(s, es[0]), es[1..];
    StepWrites(s, es[0], i, r);
    forall m | n <= m < |rest| ensures WrittenAt(t, rest, m, i, r) == None {
      assert WrittenAt(s, es, m + 1, i, r) == None;
    }
    if n == 0 {
      UnwrittenStays(t, rest, i, r);
    } else {
      LastWriteStands(t, rest, n - 1, i, r);
    }
  }

  /** The last step that writes, or the length of the run if none does. */
  function LastWriter(s: Server, es: seq<Event>, k: nat, i: nat, r: Register): (n: nat)
    requires IsRun(s, es) && i < |s.slots| && k <= |es|
    ensures n == |es| || (n < k && WrittenAt(s, es, n, i, r).Some?)
    ensures forall m | (if n == |es| then 0 else n + 1) <= m < k :: WrittenAt(s, es, m, i, r) == None
  {
    if k == 0 then |es|
    else if WrittenAt(s, es, k - 1, i, r).Some? then k - 1
    else LastWriter(s, es, k - 1, i, r)
  }

  /** Started at step n and not stopped since. */
  predicate StartedSince(s: Server, es: seq<Event>, n: nat, i: nat)
    requires IsRun(s, es) && i < |s.slots| && n < |es|
  {
    && WrittenAt(s, es, n, i, PlayingIn) == Some(Flag(true))
    && forall m | n < m < |es| :: WrittenAt(s, es, m, i, PlayingIn) != Some(Flag(false))
  }

  lemma PlayingIsWritten(s: Server, es: seq<Event>, n: nat, i: nat)
    requires IsRun(s, es) && i < |s.slots| && n < |es| && WrittenAt(s, es, n, i, PlayingIn).Some?
    ensures WrittenAt(s, es, n, i, PlayingIn).value in {Flag(true), Flag(false)}
    decreases n
  {
    if n == 0 {
      assert Read(EMPTY, PlayingIn) == Flag(false);
    } else {
      StepWrites(s, es[0], i, PlayingIn);
      PlayingIsWritten(Next(s, es[0]), es[1..], n - 1, i);
    }
  }

  lemma ReadPlaying(d: Slot)
    ensures Read(d, PlayingIn) == Flag(d.unit.playing) && !EMPTY.unit.playing
  {
  }

  /** In every reachable state a unit plays if and only if some step started it -
      it was added, started, programmed from a known file, or shown a colour without
      a name while it played - and no step since then stopped it. */
  lemma PlaysExactly(es: seq<Event>, i: nat)
    requires IsRun(Initial(), es) && i < MAX_DEVICES
    ensures |After(Initial(), es).slots| == MAX_DEVICES
    ensures After(Initial(), es).slots[i].unit.playing <==>
            exists n :: 0 <= n < |es| && StartedSince(Initial(), es, n, i)
  {
    hide WrittenAt, Read, Written;
    var s := Initial();
    var n := LastWriter(s, es, |es|, i, PlayingIn);
    ReadPlaying(EMPTY);
    if n == |es| {
      UnwrittenStays(s, es, i, PlayingIn);
      ReadPlaying(After(s, es).slots[i]);
    } else {
      LastWriteStands(s, es, n, i, PlayingIn);
      PlayingIsWritten(s, es, n, i);
      ReadPlaying(After(s, es).slots[i]);
      if After(s, es).slots[i].unit.playing { assert StartedSince(s, es, n, i); }
    }
    forall k | 0 <= k < |es| && StartedSince(s, es, k, i) ensures After(s, es).slots[i].unit.playing {
      assert k <= n < |es|;
    }
  }
}
