/** The server's device table: one slot per device, one entry per client, and
    the atomic steps that threads take on them (src/ptrim-server.cc). */
module ServerTable {
  import opened Prelude
  import opened Device
  import Colors = Color
  import opened Sequence

  const MAX_DEVICES := 32
  const MAX_CLIENTS := 21

  datatype Status = Disconnect | Play | Idle | Stream | Locked

  /** The update notification codes; a bit mask is the set of its bits. */
  datatype Bit = NameBit | BrightnessBit | TempBrightnessBit | StatusBit

  /** Element i of the parallel arrays openDevices, serial, name, brightness, and
      so on, with the unit behind element i of handle. */
  datatype Slot = Slot(
    path: string, serial: string, name: string,
    brightness: Byte, tempBrightness: Byte,
    status: Status, notify: set<Bit>, lock: int, unit: Unit)

  const EMPTY := Slot("", "", "", 0, 0, Disconnect, {}, -1, NoMemory())

  predicate Occupied(d: Slot) { d.path != "" }

  /** What a client can know of a device. */
  datatype Info = Info(name: string, brightness: Byte, tempBrightness: Byte, status: Status)

  function InfoOf(d: Slot): Info { Info(d.name, d.brightness, d.tempBrightness, d.status) }

  /** The messages that carry device state to a client. */
  datatype Message =
    | Devices(entries: seq<(string, Info)>)
    | Added(serial: string, info: Info)
    | Removed(serial: string)
    | Update(serial: string, name: Option<string>, brightness: Option<Byte>,
             tempBrightness: Option<Byte>, status: Option<Status>)

  /** An entry of socket_id, with everything sent on that connection. */
  datatype Client = Client(socket: int, sent: seq<Message>)

  datatype Server = Server(slots: seq<Slot>, clients: seq<Client>)

  predicate Live(c: Client) { c.socket > 0 }

  /** What opening a path tells about the device behind it. */
  datatype Hardware = Hardware(serial: string, unit: Unit)

  function Initial(): Server {
    Server(seq(MAX_DEVICES, i => EMPTY), seq(MAX_CLIENTS, j => Client(-2, [])))
  }

  // ---------------------------------------------------------------- commands

  /** A device's place among those a command selects. */
  type Place = n: nat | n < MAX_DEVICES

  datatype BrightnessChange = Temp(level: int) | Reset | Save | Set(level: int, extraArgument: bool)

  /** A client's command for one device, its text already split into arguments.
      Numbers are what atoi returned, colours what makeColor or, for a fade, fade's
      own parsing returned. A color command that names no colour shows the colour
      first at once, and is answered. */
  datatype Command =
    | LockDevice
    | Unlock
    | ForceUnlock
    | Start
    | Stop
    | Rename(newName: string)
    | Brightness(change: BrightnessChange)
    | Color(first: Option<Rgb>, color: Rgb, tempLevel: Option<int>)
    | Fade(color: Rgb, tempLevel: Option<int>)
    | Upload(file: File, full: bool, id: Place)
    | Download(full: bool)
    | Unrecognised

  datatype Reply =
    | NoReply
    | AlreadyLocked
    | NotLocked
    | ShownColor(text: string)
    | UploadError
    | UploadSuccess
    | SequenceLines(lines: seq<string>)
    | UnknownCommand
    | PermissionDenied

  function Notify(d: Slot, bit: Bit): Slot { d.(notify := d.notify + {bit}) }

  function SetStatus(d: Slot, status: Status): Slot { Notify(d.(status := status), StatusBit) }

  /** The optional brightness argument of color and fade. */
  function WithTemp(d: Slot, tempLevel: Option<int>): Slot {
    if tempLevel.Some? && MakeBrightness(tempLevel.value) != d.tempBrightness
    then Notify(d.(tempBrightness := MakeBrightness(tempLevel.value)), TempBrightnessBit)
    else d
  }

  function MakeIdle(d: Slot): Slot { if d.status == Idle then d else SetStatus(d, Idle) }

  function Playing(d: Slot, playing: bool): Slot { d.(unit := d.unit.(playing := playing)) }

  /** A colour goes to the unit at the temporary brightness. */
  function Shown(d: Slot, color: Rgb): Slot { d.(unit := d.unit.(shown := color, level := d.tempBrightness)) }

  /** An idle unit is sent the colour it shows once more. */
  function ShownIfIdle(d: Slot): Slot { if d.status == Idle then Shown(d, d.unit.shown) else d }

  /** The temporary brightness becomes level; an idle unit shows it. */
  function SetTemp(d: Slot, level: Byte): Slot {
    if level == d.tempBrightness then d
    else ShownIfIdle(Notify(d.(tempBrightness := level), TempBrightnessBit))
  }

  /** The saved brightness becomes level in the unit and in the table. */
  function SaveLevel(d: Slot, level: Byte): Slot {
    Notify(d.(brightness := level, unit := d.unit.(brightness := level)), BrightnessBit)
  }

  /** The saved brightness becomes level; the temporary one follows, and an idle unit shows it. */
  function SetLevel(d: Slot, level: Byte): Slot {
    if level == d.brightness then d
    else
      var saved := SaveLevel(d, level);
      ShownIfIdle(if level == d.tempBrightness then saved
                  else Notify(saved.(tempBrightness := level), TempBrightnessBit))
  }

  function Brightened(d: Slot, change: BrightnessChange): Slot {
    match change
    case Temp(level) => SetTemp(d, MakeBrightness(level))
    case Reset =>
      if d.tempBrightness == d.brightness then d
      else Notify(d.(tempBrightness := d.brightness), TempBrightnessBit)
    case Save => if d.tempBrightness == d.brightness then d else SaveLevel(d, d.tempBrightness)
    case Set(level, extraArgument) => if extraArgument then d else SetLevel(d, MakeBrightness(level))
  }

  /** The name goes to the unit, and what the unit kept of it comes back. */
  function Renamed(d: Slot, newName: string): Slot {
    Notify(d.(name := StoredName(newName), unit := d.unit.(name := NameBytes(newName))), NameBit)
  }

  /** A color command that names no colour restarts a unit that was playing;
      either kind leaves the device idle. */
  function Colored(d: Slot, first: Option<Rgb>, color: Rgb, tempLevel: Option<int>): Slot {
    Shown(MakeIdle(if first.None? then WithTemp(d, tempLevel)
                   else if d.status == Play then Playing(Shown(d, first.value), true)
                   else Shown(d, first.value)), color)
  }

  function ColorReply(first: Option<Rgb>): Reply {
    if first.None? then NoReply else ShownColor(Colors.Human(Colors.Hex(first.value)))
  }

  function UploadedTo(d: Slot, file: File, full: bool, id: Place): Slot {
    d.(unit := AfterUpload(file, !full, id, d.unit))
  }

  /** The unit is stopped and the lock taken off. */
  function Unlocked(d: Slot): Slot { SetStatus(Playing(d, false), Idle).(lock := -1) }

  /** One command of the client on socket output, on one device. */
  function RunThread(d: Slot, cmd: Command, output: int): (Slot, Reply) {
    if d.status != Locked || d.lock == output then
      match cmd
      case LockDevice =>
        if d.status == Locked then (d, AlreadyLocked)
        else (SetStatus(d, Locked).(lock := output), NoReply)
      case Unlock => if d.status == Locked then (Unlocked(d), NoReply) else (d, NotLocked)
      case Start => (SetStatus(Playing(d, true), Play), NoReply)
      case Stop => (SetStatus(Playing(d, false), Idle), NoReply)
      case Rename(newName) => (Renamed(d, newName), NoReply)
      case Brightness(change) => (Brightened(d, change), NoReply)
      case Color(first, color, tempLevel) => (Colored(d, first, color, tempLevel), ColorReply(first))
      case Fade(color, tempLevel) => (Shown(MakeIdle(WithTemp(d, tempLevel)), color), NoReply)
      case Upload(file, full, id) =>
        (UploadedTo(d, file, full, id), if Rejected(file) then UploadError else UploadSuccess)
      case Download(_) => (d, SequenceLines(SentLines(d.unit, true)))
      case ForceUnlock => (d, UnknownCommand)
      case Unrecognised => (d, UnknownCommand)
    else if cmd == ForceUnlock then
      (Unlocked(d), NoReply)
    else
      (d, PermissionDenied)
  }

  // ---------------------------------------------------------------- messages

  /** Every connection that is open gets the message. */
  function Broadcast(clients: seq<Client>, m: Message): (r: seq<Client>)
  {
    seq(|clients|, j requires 0 <= j < |clients| =>
      if Live(clients[j]) then clients[j].(sent := clients[j].sent + [m]) else clients[j])
  }

  function When<T>(bits: set<Bit>, bit: Bit, value: T): Option<T> {
    if bit in bits then Some(value) else None
  }

  /** The [update] block for a device: one line per notify bit. */
  function UpdateOf(d: Slot): Message {
    Update(d.serial, When(d.notify, NameBit, d.name), When(d.notify, BrightnessBit, d.brightness),
           When(d.notify, TempBrightnessBit, d.tempBrightness), When(d.notify, StatusBit, d.status))
  }

  /** The [devices] block sent to a new client, in slot order. */
  function Snapshot(slots: seq<Slot>): seq<(string, Info)> {
    if slots == [] then []
    else
      var d := slots[|slots| - 1];
      Snapshot(slots[..|slots| - 1]) +
      (if d.status != Disconnect && d.serial != "" then [(d.serial, InfoOf(d))] else [])
  }

  // ------------------------------------------------------------------- steps

  /** Cleanup of one slot when the client on socket goes away. */
  function Release(d: Slot, socket: int): Slot {
    if d.lock == socket then Unlocked(d) else d
  }

  function ReleaseAll(slots: seq<Slot>, socket: int): seq<Slot> {
    seq(|slots|, i requires 0 <= i < |slots| => Release(slots[i], socket))
  }

  function NewSlot(path: string, hw: Hardware): Slot {
    Slot(path, hw.serial, CString(hw.unit.name), hw.unit.brightness, hw.unit.brightness, Play, {}, -1,
         hw.unit.(playing := true))
  }

  /** The atomic steps of the server's threads. */
  datatype Event =
    | Accept(client: nat, socket: int)
    | Welcome(client: nat)
    | Run(client: nat, device: nat, cmd: Command)
    | Leave(client: nat)
    | Join(client: nat)
    | Remove(device: nat)
    | Add(device: nat, path: string, hw: Hardware)
    | Flush(device: nat)

  /** When a step can happen. Operating system guarantees enter here: a new
      socket is none of the open ones, a unit's serial number is its own. */
  predicate Enabled(s: Server, e: Event) {
    match e
    case Accept(j, socket) =>
      j < |s.clients| && s.clients[j].socket == -2 && socket > 0 &&
      forall k | 0 <= k < |s.clients| :: s.clients[k].socket != socket
    case Welcome(j) => j < |s.clients| && Live(s.clients[j])
    case Run(j, i, _) => j < |s.clients| && Live(s.clients[j]) && i < |s.slots| && Occupied(s.slots[i])
    case Leave(j) => j < |s.clients| && Live(s.clients[j])
    case Join(j) => j < |s.clients| && s.clients[j].socket == -1
    case Remove(i) => i < |s.slots| && Occupied(s.slots[i])
    case Add(i, path, hw) =>
      i < |s.slots| && !Occupied(s.slots[i]) && path != "" && hw.serial != "" &&
      forall k | 0 <= k < |s.slots| && Occupied(s.slots[k]) ::
        s.slots[k].path != path && s.slots[k].serial != hw.serial
    case Flush(i) => i < |s.slots|
  }

  /** In range is all that the array accesses of a step need. */
  predicate InRange(s: Server, e: Event) {
    match e
    case Accept(j, _) => j < |s.clients|
    case Welcome(j) => j < |s.clients|
    case Run(j, i, _) => j < |s.clients| && i < |s.slots|
    case Leave(j) => j < |s.clients|
    case Join(j) => j < |s.clients|
    case Remove(i) => i < |s.slots|
    case Add(i, _, _) => i < |s.slots|
    case Flush(i) => i < |s.slots|
  }

  function Next(s: Server, e: Event): Server
    requires InRange(s, e)
  {
    match e
    case Accept(j, socket) => s.(clients := s.clients[j := Client(socket, [])])
    case Welcome(j) =>
      s.(clients := s.clients[j := s.clients[j].(sent := s.clients[j].sent + [Devices(Snapshot(s.slots))])])
    case Run(j, i, cmd) => s.(slots := s.slots[i := RunThread(s.slots[i], cmd, s.clients[j].socket).0])
    case Leave(j) =>
      Server(ReleaseAll(s.slots, s.clients[j].socket), s.clients[j := s.clients[j].(socket := -1)])
    case Join(j) => s.(clients := s.clients[j := s.clients[j].(socket := -2)])
    case Remove(i) =>
      Server(s.slots[i := EMPTY], Broadcast(s.clients, Removed(s.slots[i].serial)))
    case Add(i, path, hw) =>
      var d := NewSlot(path, hw);
      Server(s.slots[i := d], Broadcast(s.clients, Added(d.serial, InfoOf(d))))
    case Flush(i) =>
      if s.slots[i].status == Disconnect || s.slots[i].notify == {} then s
      else Server(s.slots[i := s.slots[i].(notify := {})], Broadcast(s.clients, UpdateOf(s.slots[i])))
  }

  /** es is a run from s: each step is enabled where it is taken. */
  predicate IsRun(s: Server, es: seq<Event>)
    decreases |es|
  {
    es == [] || (Enabled(s, es[0]) && IsRun(Next(s, es[0]), es[1..]))
  }

  function After(s: Server, es: seq<Event>): Server
    requires IsRun(s, es)
    decreases |es|
  {
    if es == [] then s else After(Next(s, es[0]), es[1..])
  }
}
