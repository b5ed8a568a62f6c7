/** The server's global arrays and the functions that update them in place. */
module PtrimServer {
  import opened Prelude
  import opened Device
  import Fading = Fade
  import opened Sequence
  import Files = Sequence
  import opened ServerSequences
  import opened ServerTable
  import opened ServerTheorems
  import opened ServerScan

  class Globals {
    const openDevices: array<string>
    const serial: array<string>
    const name: array<string>
    const brightness: array<Byte>
    const tempBrightness: array<Byte>
    const status: array<Status>
    const notify: array<set<Bit>>
    const lock: array<int>
    /** The units behind the open handles. */
    const unit: array<Unit>
    const socketId: array<int>
    /** What send has put on each connection. */
    const sent: array<seq<Message>>

    ghost function DeviceArrays(): set<object> {
      {unit as object, openDevices, serial, name, brightness, tempBrightness, status, notify, lock}
    }

    ghost function ClientArrays(): set<object> { {socketId, sent} }

    ghost predicate Valid() {
      && openDevices.Length == serial.Length == name.Length == brightness.Length == tempBrightness.Length == MAX_DEVICES
      && status.Length == notify.Length == lock.Length == unit.Length == MAX_DEVICES
      && socketId.Length == sent.Length == MAX_CLIENTS
      && openDevices != serial && openDevices != name && serial != name
      && brightness != tempBrightness && DeviceArrays() !! ClientArrays()
    }

    ghost function SlotAt(i: nat): Slot
      reads DeviceArrays()
      requires Valid() && i < MAX_DEVICES
    {
      Slot(openDevices[i], serial[i], name[i], brightness[i], tempBrightness[i], status[i], notify[i], lock[i], unit[i])
    }

    ghost function Slots(): (r: seq<Slot>)
      reads DeviceArrays()
      requires Valid()
      ensures |r| == MAX_DEVICES && forall i | 0 <= i < MAX_DEVICES :: r[i] == SlotAt(i)
    {
      seq(MAX_DEVICES, i requires 0 <= i < MAX_DEVICES reads DeviceArrays() => SlotAt(i))
    }

    ghost function Clients(): (r: seq<Client>)
      reads ClientArrays()
      requires Valid()
      ensures |r| == MAX_CLIENTS && forall j | 0 <= j < MAX_CLIENTS :: r[j] == Client(socketId[j], sent[j])
    {
      seq(MAX_CLIENTS, j requires 0 <= j < MAX_CLIENTS reads ClientArrays() => Client(socketId[j], sent[j]))
    }

    ghost function View(): Server
      reads DeviceArrays(), ClientArrays()
      requires Valid()
    {
      Server(Slots(), Clients())
    }

    constructor ()
      ensures Valid() && fresh(DeviceArrays()) && fresh(ClientArrays())
    {
      openDevices := new string[MAX_DEVICES];
      serial := new string[MAX_DEVICES];
      name := new string[MAX_DEVICES];
      brightness := new Byte[MAX_DEVICES];
      tempBrightness := new Byte[MAX_DEVICES];
      status := new Status[MAX_DEVICES];
      notify := new set<Bit>[MAX_DEVICES];
      lock := new int[MAX_DEVICES];
      unit := new Unit[MAX_DEVICES](_ => NoMemory());
      socketId := new int[MAX_CLIENTS];
      sent := new seq<Message>[MAX_CLIENTS];
    }

    /** A library call on the unit is done; the memory behind the handle is m. */
    method Keep(i: nat, m: Unit)
      requires Valid() && i < MAX_DEVICES
      modifies unit
      ensures Slots() == old(Slots())[i := old(SlotAt(i)).(unit := m)]
    {
      unit[i] := m;
    }

    method ForgetTexts(i: nat)
      requires Valid() && i < MAX_DEVICES
      modifies openDevices, serial, name
      ensures Slots() == old(Slots())[i := old(SlotAt(i)).(path := "", serial := "", name := "")]
    {
      openDevices[i] := "";
      serial[i] := "";
      name[i] := "";
    }

    /** The parts of a slot that are wiped once its device is gone. */
    method Forget(i: nat)
      requires Valid() && i < MAX_DEVICES
      modifies openDevices, serial, name, brightness, tempBrightness, unit
      ensures var d := old(SlotAt(i));
              Slots() == old(Slots())[i := EMPTY.(status := d.status, notify := d.notify, lock := d.lock)]
    {
      ForgetTexts(i);
      ghost var between := Slots();
      brightness[i] := 0;
      tempBrightness[i] := 0;
      assert Slots() == between[i := between[i].(brightness := 0, tempBrightness := 0)];
      Keep(i, NoMemory());
    }

    /** A device comes or goes: nothing is pending and nobody has the lock. */
    method ResetStatus(i: nat, newStatus: Status)
      requires Valid() && i < MAX_DEVICES
      modifies status, notify, lock
      ensures Slots() == old(Slots())[i := old(SlotAt(i)).(status := newStatus, notify := {}, lock := -1)]
    {
      status[i] := newStatus;
      notify[i] := {};
      lock[i] := -1;
    }

    method Clear(i: nat)
      requires Valid() && i < MAX_DEVICES
      modifies DeviceArrays()
      ensures Slots() == old(Slots())[i := EMPTY]
    {
      Forget(i);
      ResetStatus(i, Disconnect);
    }

    /** The loops at the start of main and of monitorDevices. */
    method Initialise()
      requires Valid()
      modifies DeviceArrays(), ClientArrays()
      ensures View() == Initial()
    {
      for j := 0 to MAX_CLIENTS
        modifies ClientArrays()
        invariant forall k | 0 <= k < j :: Clients()[k] == Client(-2, [])
      {
        ghost var before := Clients();
        socketId[j] := -2;
        sent[j] := [];
        assert forall k | 0 <= k < j :: Clients()[k] == before[k];
      }
      for i := 0 to MAX_DEVICES
        modifies DeviceArrays()
        invariant forall k | 0 <= k < i :: Slots()[k] == EMPTY
      {
        ghost var before := Slots();
        Clear(i);
        assert Slots() == before[i := EMPTY];
      }
      assert Slots() == Initial().slots;
      assert Clients() == Initial().clients;
    }

    // ------------------------------------------------ commands to the unit

    method StartUnit(i: nat)
      requires Valid() && i < MAX_DEVICES
      modifies unit
      ensures Slots() == old(Slots())[i := Playing(old(SlotAt(i)), true)]
    {
      var handle := new PlasmaTrim(unit[i]);
      handle.Start();
      Keep(i, handle.memory);
    }

    method StopUnit(i: nat)
      requires Valid() && i < MAX_DEVICES
      modifies unit
      ensures Slots() == old(Slots())[i := Playing(old(SlotAt(i)), false)]
    {
      var handle := new PlasmaTrim(unit[i]);
      handle.Stop();
      Keep(i, handle.memory);
    }

    /** A colour is shown at the temporary brightness. */
    method ShowOnUnit(i: nat, color: Rgb)
      requires Valid() && i < MAX_DEVICES
      modifies unit
      ensures Slots() == old(Slots())[i := Shown(old(SlotAt(i)), color)]
    {
      var handle := new PlasmaTrim(unit[i]);
      handle.SetColor(color, tempBrightness[i]);
      assert color[..COLOR_LENGTH] == color;
      Keep(i, handle.memory);
    }

    /** The shown colour is read, parsed from its text, and shown again. */
    method ShowAgain(i: nat)
      requires Valid() && i < MAX_DEVICES
      modifies unit
      ensures Slots() == old(Slots())[i := Shown(old(SlotAt(i)), old(SlotAt(i)).unit.shown)]
    {
      var handle := new PlasmaTrim(unit[i]);
      var color := Fading.ShownColor(handle);
      ShowOnUnit(i, color);
    }

    method NameUnit(i: nat, newName: string)
      requires Valid() && i < MAX_DEVICES
      modifies unit
      ensures var d := old(SlotAt(i)); Slots() == old(Slots())[i := d.(unit := d.unit.(name := NameBytes(newName)))]
    {
      var handle := new PlasmaTrim(unit[i]);
      handle.SetName(newName);
      Keep(i, handle.memory);
    }

    method SaveOnUnit(i: nat, level: Byte)
      requires Valid() && i < MAX_DEVICES
      modifies unit
      ensures var d := old(SlotAt(i)); Slots() == old(Slots())[i := d.(unit := d.unit.(brightness := level))]
    {
      var handle := new PlasmaTrim(unit[i]);
      handle.SetBrightness(level);
      Keep(i, handle.memory);
    }

    // --------------------------------------------------- parts of runThread

    method ChangeStatus(i: nat, newStatus: Status)
      requires Valid() && i < MAX_DEVICES
      modifies status, notify
      ensures Slots() == old(Slots())[i := SetStatus(old(SlotAt(i)), newStatus)]
    {
      status[i] := newStatus;
      notify[i] := notify[i] + {StatusBit};
    }

    method LockFor(i: nat, output: int) returns (reply: Reply)
      requires Valid() && i < MAX_DEVICES
      modifies status, notify, lock
      ensures var d := old(SlotAt(i));
              && Slots() == old(Slots())[i := if d.status == Locked then d else SetStatus(d, Locked).(lock := output)]
              && reply == if d.status == Locked then AlreadyLocked else NoReply
    {
      if status[i] == Locked {
        reply := AlreadyLocked;
      } else {
        status[i] := Locked;
        lock[i] := output;
        notify[i] := notify[i] + {StatusBit};
        reply := NoReply;
      }
    }

    method TakeLockOff(i: nat)
      requires Valid() && i < MAX_DEVICES
      modifies status, notify, lock, unit
      ensures Slots() == old(Slots())[i := Unlocked(old(SlotAt(i)))]
    {
      StopUnit(i);
      ChangeStatus(i, Idle);
      ghost var between := Slots();
      lock[i] := -1;
      assert Slots() == between[i := between[i].(lock := -1)];
    }

    method Rename(i: nat, newName: string)
      requires Valid() && i < MAX_DEVICES
      modifies name, notify, unit
      ensures Slots() == old(Slots())[i := Renamed(old(SlotAt(i)), newName)]
    {
      NameUnit(i, newName);
      ghost var between := Slots();
      name[i] := CString(unit[i].name);
      notify[i] := notify[i] + {NameBit};
      assert between[i].unit.name == NameBytes(newName);
      assert Slots() == between[i := Renamed(old(SlotAt(i)), newName)];
    }

    method SetTempBrightness(i: nat, level: int)
      requires Valid() && i < MAX_DEVICES
      modifies tempBrightness, notify, unit
      ensures Slots() == old(Slots())[i := SetTemp(old(SlotAt(i)), MakeBrightness(level))]
    {
      if MakeBrightness(level) != tempBrightness[i] {
        tempBrightness[i] := MakeBrightness(level);
        notify[i] := notify[i] + {TempBrightnessBit};
        if status[i] == Idle {
          ShowAgain(i);
        }
      }
    }

    method ResetBrightness(i: nat)
      requires Valid() && i < MAX_DEVICES
      modifies tempBrightness, notify
      ensures var d := old(SlotAt(i));
              Slots() == old(Slots())[i := if d.tempBrightness == d.brightness then d
                                           else Notify(d.(tempBrightness := d.brightness), TempBrightnessBit)]
    {
      if tempBrightness[i] != brightness[i] {
        tempBrightness[i] := brightness[i];
        notify[i] := notify[i] + {TempBrightnessBit};
      }
    }

    method SaveBrightness(i: nat)
      requires Valid() && i < MAX_DEVICES
      modifies brightness, notify, unit
      ensures var d := old(SlotAt(i));
              Slots() == old(Slots())[i := if d.tempBrightness == d.brightness then d else SaveLevel(d, d.tempBrightness)]
    {
      if tempBrightness[i] != brightness[i] {
        ghost var d := SlotAt(i);
        brightness[i] := tempBrightness[i];
        notify[i] := notify[i] + {BrightnessBit};
        assert Slots() == old(Slots())[i := Notify(d.(brightness := d.tempBrightness), BrightnessBit)];
        SaveOnUnit(i, brightness[i]);
      }
    }

    /** The saved brightness goes to the unit and is read back from it. */
    method SaveNew(i: nat, level: Byte)
      requires Valid() && i < MAX_DEVICES
      modifies brightness, notify, unit
      ensures Slots() == old(Slots())[i := SaveLevel(old(SlotAt(i)), level)]
    {
      SaveOnUnit(i, level);
      ghost var between := Slots();
      brightness[i] := unit[i].brightness;
      notify[i] := notify[i] + {BrightnessBit};
      assert between[i].unit.brightness == level;
      assert Slots() == between[i := SaveLevel(old(SlotAt(i)), level)];
    }

    /** Sets the saved brightness; the temporary one follows it. */
    method SetBrightness(i: nat, level: int)
      requires Valid() && i < MAX_DEVICES
      modifies brightness, tempBrightness, notify, unit
      ensures Slots() == old(Slots())[i := SetLevel(old(SlotAt(i)), MakeBrightness(level))]
    {
      if MakeBrightness(level) != brightness[i] {
        SaveNew(i, MakeBrightness(level));
        ghost var saved := Slots();
        if brightness[i] != tempBrightness[i] {
          notify[i] := notify[i] + {TempBrightnessBit};
          tempBrightness[i] := brightness[i];
        }
        assert Slots() == saved[i := if saved[i].brightness == saved[i].tempBrightness then saved[i]
          else Notify(saved[i].(tempBrightness := saved[i].brightness), TempBrightnessBit)];
        if status[i] == Idle {
          ShowAgain(i);
        }
      }
    }

    /** The optional brightness of color and fade. */
    method TakeTemp(i: nat, tempLevel: Option<int>)
      requires Valid() && i < MAX_DEVICES
      modifies tempBrightness, notify
      ensures Slots() == old(Slots())[i := WithTemp(old(SlotAt(i)), tempLevel)]
    {
      if tempLevel.Some? && MakeBrightness(tempLevel.value) != tempBrightness[i] {
        tempBrightness[i] := MakeBrightness(tempLevel.value);
        notify[i] := notify[i] + {TempBrightnessBit};
      }
    }

    /** How color and fade end: an idle device that shows the colour. */
    method ShowIdle(i: nat, color: Rgb)
      requires Valid() && i < MAX_DEVICES
      modifies status, notify, unit
      ensures Slots() == old(Slots())[i := Shown(MakeIdle(old(SlotAt(i))), color)]
    {
      if status[i] != Idle {
        ChangeStatus(i, Idle);
      }
      ShowOnUnit(i, color);
    }

    /** The answer to a color command: what the unit shows, spaced for people. */
    method ColorText(i: nat, color: Rgb) returns (reply: Reply)
      requires Valid() && i < MAX_DEVICES && unit[i].shown == color
      ensures reply == ColorReply(Some(color))
    {
      var handle := new PlasmaTrim(unit[i]);
      var data := Colors.GetColor(handle);
      var text := Colors.MakeHumanColor(data);
      reply := ShownColor(text[..55]);
    }

    /** A color command without a colour: shown at once and answered; a unit that
        was playing is restarted. */
    method ShowFirst(i: nat, color: Rgb) returns (reply: Reply)
      requires Valid() && i < MAX_DEVICES
      modifies unit
      ensures var d := old(SlotAt(i));
              Slots() == old(Slots())[i := if d.status == Play then Playing(Shown(d, color), true) else Shown(d, color)]
      ensures reply == ColorReply(Some(color))
    {
      hide Playing, WellFormed;
      ShowOnUnit(i, color);
      assert SlotAt(i).unit.shown == color;
      reply := ColorText(i, color);
      if status[i] == Play {
        StartUnit(i);
      }
    }

    /** The color command. One that names no colour is shown and answered first,
        restarts a unit that was playing, and then goes on like any other. */
    method ShowColor(i: nat, first: Option<Rgb>, color: Rgb, tempLevel: Option<int>) returns (reply: Reply)
      requires Valid() && i < MAX_DEVICES
      modifies tempBrightness, notify, status, unit
      ensures Slots() == old(Slots())[i := Colored(old(SlotAt(i)), first, color, tempLevel)]
      ensures reply == ColorReply(first)
    {
      hide MakeIdle, WithTemp, Playing, Shown, WellFormed;
      reply := NoReply;
      if first.Some? {
        reply := ShowFirst(i, first.value);
      } else {
        TakeTemp(i, tempLevel);
      }
      ShowIdle(i, color);
    }

    /** Programs the unit from the file a client sent. */
    method UploadTo(i: nat, file: File, full: bool, id: Place) returns (reply: Reply)
      requires Valid() && i < MAX_DEVICES
      modifies unit
      ensures Slots() == old(Slots())[i := UploadedTo(old(SlotAt(i)), file, full, id)]
      ensures reply == if Rejected(file) then UploadError else UploadSuccess
    {
      var handle := new PlasmaTrim(unit[i]);
      var result := Files.Upload(handle, file, !full, id);
      UploadedExactly(file, !full, id, unit[i], handle.memory);
      reply := if result < 0 then UploadError else UploadSuccess;
      Keep(i, handle.memory);
    }

    /** Downloads from the unit and sends the lines. */
    method SendDownload(i: nat) returns (reply: Reply)
      requires Valid() && i < MAX_DEVICES
      ensures reply == SequenceLines(SentLines(SlotAt(i).unit, true))
    {
      var handle := new PlasmaTrim(unit[i]);
      var fileData := new string[1024](_ => "");
      Files.Download(handle, fileData, true);
      var lines := SendLines(fileData, unit[i]);
      reply := SequenceLines(lines);
    }

    method ChangeBrightness(i: nat, change: BrightnessChange)
      requires Valid() && i < MAX_DEVICES
      modifies brightness, tempBrightness, notify, unit
      ensures Slots() == old(Slots())[i := Brightened(old(SlotAt(i)), change)]
    {
      match change
      case Temp(level) =>
        SetTempBrightness(i, level);
      case Reset =>
        ResetBrightness(i);
      case Save =>
        SaveBrightness(i);
      case Set(level, extraArgument) =>
        if !extraArgument {
          SetBrightness(i, level);
        }
    }

    /** One client command on device i: branch by branch what runThread does. */
    method RunThread(i: nat, cmd: Command, output: int) returns (reply: Reply)
      requires Valid() && i < MAX_DEVICES
      modifies DeviceArrays()
      ensures Slots() == old(Slots())[i := ServerTable.RunThread(old(SlotAt(i)), cmd, output).0]
      ensures reply == ServerTable.RunThread(old(SlotAt(i)), cmd, output).1
    {
      hide Brightened, Renamed, Colored, ColorReply, UploadedTo, SentLines;
      hide Playing, Shown, MakeIdle, WithTemp, StoredName, MakeBrightness, WellFormed;
      reply := NoReply;
      if status[i] != Locked || (status[i] == Locked && lock[i] == output) {
        match cmd
        case LockDevice =>
          reply := LockFor(i, output);
        case Unlock =>
          if status[i] == Locked {
            TakeLockOff(i);
          } else {
            reply := NotLocked;
          }
        case Start =>
          StartUnit(i);
          ChangeStatus(i, Play);
        case Stop =>
          StopUnit(i);
          ChangeStatus(i, Idle);
        case Rename(newName) =>
          Rename(i, newName);
        case Brightness(change) =>
          ChangeBrightness(i, change);
        case Color(first, color, tempLevel) =>
          reply := ShowColor(i, first, color, tempLevel);
        case Fade(color, tempLevel) =>
          TakeTemp(i, tempLevel);
          ShowIdle(i, color);
        case Upload(file, full, id) =>
          reply := UploadTo(i, file, full, id);
        case Download(_) =>
          reply := SendDownload(i);
        case ForceUnlock =>
          reply := UnknownCommand;
        case Unrecognised =>
          reply := UnknownCommand;
      } else if cmd == ForceUnlock {
        TakeLockOff(i);
      } else {
        reply := PermissionDenied;
      }
    }

    /** Puts a message on every open connection. */
    method SendAll(m: Message)
      requires Valid()
      modifies sent
      ensures Clients() == Broadcast(old(Clients()), m)
    {
      for j := 0 to MAX_CLIENTS
        invariant forall k | 0 <= k < j :: Clients()[k] == Broadcast(old(Clients()), m)[k]
        invariant forall k | j <= k < MAX_CLIENTS :: Clients()[k] == old(Clients())[k]
      {
        ghost var before := Clients();
        if socketId[j] > 0 {
          sent[j] := sent[j] + [m];
        }
        assert forall k | 0 <= k < MAX_CLIENTS && k != j :: Clients()[k] == before[k];
      }
    }

    /** The update block of device i. */
    method WriteUpdate(i: nat) returns (m: Message)
      requires Valid() && i < MAX_DEVICES
      ensures m == UpdateOf(SlotAt(i))
    {
      m := Update(serial[i],
        if NameBit in notify[i] then Some(name[i]) else None,
        if BrightnessBit in notify[i] then Some(brightness[i]) else None,
        if TempBrightnessBit in notify[i] then Some(tempBrightness[i]) else None,
        if StatusBit in notify[i] then Some(status[i]) else None);
    }

    /** The notification thread's visit to device i. */
    method SendNotification(i: nat)
      requires Valid() && i < MAX_DEVICES
      modifies notify, sent
      ensures View() == Next(old(View()), Flush(i))
    {
      hide Broadcast, ServerTable.RunThread, ReleaseAll, Snapshot, UpdateOf, NewSlot, WellFormed;
      if status[i] != Disconnect && notify[i] != {} {
        ghost var d := SlotAt(i);
        var m := WriteUpdate(i);
        SendAll(m);
        notify[i] := {};
        assert Slots() == old(Slots())[i := d.(notify := {})];
      }
    }

    /** One pass over all devices. */
    method SendNotifications()
      requires Valid()
      modifies notify, sent
      ensures IsRun(old(View()), FlushPass(MAX_DEVICES))
      ensures View() == After(old(View()), FlushPass(MAX_DEVICES))
    {
      for i := 0 to MAX_DEVICES
        invariant IsRun(old(View()), FlushPass(i))
        invariant View() == After(old(View()), FlushPass(i))
      {
        AfterOneMore(old(View()), FlushPass(i), Flush(i));
        SendNotification(i);
      }
    }

    /** The slot is marked, every connection is told, and the slot is wiped. */
    method Retire(i: nat)
      requires Valid() && i < MAX_DEVICES
      modifies DeviceArrays(), sent
      ensures Slots() == old(Slots())[i := EMPTY]
      ensures Clients() == Broadcast(old(Clients()), Removed(old(SlotAt(i)).serial))
    {
      hide Broadcast, WellFormed;
      ResetStatus(i, Disconnect);
      ghost var between := Slots();
      assert between[i] == SlotAt(i);
      SendAll(Removed(serial[i]));
      Forget(i);
      assert Slots() == between[i := EMPTY];
    }

    method RemoveDevice(i: nat)
      requires Valid() && i < MAX_DEVICES
      modifies DeviceArrays(), sent
      ensures View() == Next(old(View()), Remove(i))
    {
      hide Broadcast, ServerTable.RunThread;
      Retire(i);
    }

    /** The unit is asked for its values and started. */
    method Identify(i: nat, path: string, hw: Hardware)
      requires Valid() && i < MAX_DEVICES
      modifies openDevices, serial, name, brightness, tempBrightness, unit
      ensures var d := old(SlotAt(i));
              Slots() == old(Slots())[i := NewSlot(path, hw).(status := d.status, notify := d.notify, lock := d.lock)]
    {
      openDevices[i] := path;
      unit[i] := hw.unit.(playing := true);
      serial[i] := hw.serial;
      name[i] := CString(hw.unit.name);
      brightness[i] := hw.unit.brightness;
      tempBrightness[i] := brightness[i];
    }

    /** Fills a slot with what the newly opened unit tells. */
    method Enter(i: nat, path: string, hw: Hardware)
      requires Valid() && i < MAX_DEVICES
      modifies DeviceArrays()
      ensures Slots() == old(Slots())[i := NewSlot(path, hw)]
    {
      Identify(i, path, hw);
      ResetStatus(i, Play);
    }

    method AddDevice(i: nat, path: string, hw: Hardware)
      requires Valid() && i < MAX_DEVICES
      modifies DeviceArrays(), sent
      ensures View() == Next(old(View()), Add(i, path, hw))
    {
      Enter(i, path, hw);
      assert SlotAt(i) == NewSlot(path, hw);
      SendAll(Added(serial[i], Info(name[i], brightness[i], tempBrightness[i], status[i])));
    }

    /** Looks for a path in the list of unclaimed ones and clears every match. */
    method Claim(current: array<string>, path: string) returns (open: bool)
      requires Valid() && path != ""
      modifies current
      ensures open <==> path in old(current[..])
      ensures current[..] == Cleared(old(current[..]), path)
    {
      open := false;
      for j := 0 to current.Length
        invariant open <==> path in old(current[..])[..j]
        invariant forall k | 0 <= k < current.Length ::
          current[k] == if k < j then Cleared(old(current[..]), path)[k] else old(current[..])[k]
      {
        assert old(current[..])[..j + 1] == old(current[..])[..j] + [old(current[..])[j]];
        if current[j] == path {
          open := true;
          current[j] := "";
        }
      }
      assert old(current[..])[..current.Length] == old(current[..]);
    }

    method RemoveIfMissing(i: nat, current: array<string>)
      requires Valid() && i < MAX_DEVICES && current !in DeviceArrays()
      modifies DeviceArrays(), sent, current
      ensures RemovePass(View(), i + 1, current[..]) == RemovePass(old(View()), i, old(current[..]))
    {
      assert Slots()[i] == SlotAt(i);
      if openDevices[i] != "" {
        var open := Claim(current, openDevices[i]);
        assert View() == old(View());
        if !open {
          assert current[..] == old(current[..]);
          RemoveDevice(i);
        }
      }
    }

    method RemoveMissing(current: array<string>)
      requires Valid() && current !in DeviceArrays()
      modifies DeviceArrays(), sent, current
      ensures (View(), current[..]) == RemovePass(old(View()), 0, old(current[..]))
    {
      for i := 0 to MAX_DEVICES
        invariant RemovePass(View(), i, current[..]) == RemovePass(old(View()), 0, old(current[..]))
      {
        RemoveIfMissing(i, current);
      }
    }

    /** Tries the unclaimed paths in order until one opens. */
    method OpenNext(current: array<string>, opens: World) returns (j: nat)
      ensures j == FirstOpenable(current[..], opens, 0)
    {
      j := 0;
      while j < current.Length && (current[j] == "" || current[j] !in opens)
        invariant 0 <= j <= current.Length
        invariant FirstOpenable(current[..], opens, 0) == FirstOpenable(current[..], opens, j)
      {
        j := j + 1;
      }
    }

    method AddIfFree(i: nat, current: array<string>, opens: seq<World>)
      requires Valid() && |opens| == MAX_DEVICES && i < MAX_DEVICES && current !in DeviceArrays()
      modifies DeviceArrays(), sent, current
      ensures AddPass(View(), i + 1, current[..], opens) == AddPass(old(View()), i, old(current[..]), opens)
    {
      assert Slots()[i] == SlotAt(i);
      if openDevices[i] == "" {
        var j := OpenNext(current, opens[i]);
        ghost var s, was := View(), current[..];
        assert s == old(View()) && was == old(current[..]) && !Occupied(s.slots[i]);
        if j < current.Length {
          var path := current[j];
          current[j] := "";
          AddDevice(i, path, opens[i][path]);
          assert current[..] == was[j := ""];
          assert View() == Next(s, Add(i, path, opens[i][path]));
        } else {
          assert AddPass(s, i, was, opens) == AddPass(s, i + 1, was, opens);
        }
      }
    }

    method AddNew(current: array<string>, opens: seq<World>)
      requires Valid() && |opens| == MAX_DEVICES && current !in DeviceArrays()
      modifies DeviceArrays(), sent, current
      ensures View() == AddPass(old(View()), 0, old(current[..]), opens)
    {
      for i := 0 to MAX_DEVICES
        invariant AddPass(View(), i, current[..], opens) == AddPass(old(View()), 0, old(current[..]), opens)
      {
        AddIfFree(i, current, opens);
      }
    }

    /** One turn of monitorDevices. */
    method MonitorDevices(enumerated: seq<string>, opens: seq<World>)
      requires Valid() && |opens| == MAX_DEVICES
      modifies DeviceArrays(), sent
      ensures View() == Scan(old(View()), enumerated, opens)
    {
      var seen := Truncated(enumerated);
      var current := new string[|seen|](j requires 0 <= j < |seen| => seen[j]);
      assert current[..] == seen;
      assert View() == old(View());
      RemoveMissing(current);
      ghost var (t, rest) := RemovePass(old(View()), 0, seen);
      assert View() == t && current[..] == rest;
      AddNew(current, opens);
    }

    /** The device list sent to client j once it has given the code. */
    method ConnectedDevices(j: nat)
      requires Valid() && j < MAX_CLIENTS
      modifies sent
      ensures View() == Next(old(View()), Welcome(j))
    {
      var entries := [];
      for i := 0 to MAX_DEVICES
        invariant entries == Snapshot(Slots()[..i])
      {
        assert Slots()[..i + 1][..i] == Slots()[..i];
        if status[i] != Disconnect && serial[i] != "" {
          entries := entries + [(serial[i], Info(name[i], brightness[i], tempBrightness[i], status[i]))];
        }
      }
      assert Slots()[..MAX_DEVICES] == Slots();
      sent[j] := sent[j] + [Devices(entries)];
      assert Clients() == old(Clients())[j := Client(socketId[j], sent[j])];
    }

    /** The first entry that holds the value, or MAX_CLIENTS. */
    method FindEntry(value: int) returns (j: nat)
      requires Valid()
      ensures j <= MAX_CLIENTS && (j < MAX_CLIENTS ==> Clients()[j].socket == value)
      ensures forall k | 0 <= k < j :: Clients()[k].socket != value
    {
      j := 0;
      while j < MAX_CLIENTS && socketId[j] != value
        invariant j <= MAX_CLIENTS && forall k | 0 <= k < j :: Clients()[k].socket != value
      {
        j := j + 1;
      }
    }

    /** The main thread's turn: the first finished connection's entry becomes free,
        and a new connection takes the first free entry. Both are steps of a run. */
    method JoinFinished() returns (j: nat)
      requires Valid()
      modifies socketId
      ensures if j < MAX_CLIENTS then Enabled(old(View()), Join(j)) && View() == Next(old(View()), Join(j))
              else View() == old(View()) && forall k | 0 <= k < MAX_CLIENTS :: Clients()[k].socket != -1
    {
      j := FindEntry(-1);
      if j < MAX_CLIENTS {
        socketId[j] := -2;
        assert Clients() == old(Clients())[j := Client(-2, sent[j])];
      }
    }

    method AcceptConnection(socket: int) returns (j: nat)
      requires Valid() && socket > 0
      requires forall k | 0 <= k < MAX_CLIENTS :: Clients()[k].socket != socket
      modifies ClientArrays()
      ensures if j < MAX_CLIENTS
              then Enabled(old(View()), Accept(j, socket)) && View() == Next(old(View()), Accept(j, socket))
              else View() == old(View()) && forall k | 0 <= k < MAX_CLIENTS :: Clients()[k].socket != -2
    {
      j := FindEntry(-2);
      if j < MAX_CLIENTS {
        socketId[j] := socket;
        sent[j] := [];
        assert Clients() == old(Clients())[j := Client(socket, [])];
      }
    }

    /** Frees device i if the client on the socket has it locked. */
    method ReleaseFrom(i: nat, socket: int)
      requires Valid() && i < MAX_DEVICES
      modifies lock, status, notify, unit
      ensures Slots() == old(Slots())[i := Release(old(SlotAt(i)), socket)]
    {
      if lock[i] == socket {
        lock[i] := -1;
        ghost var between := Slots();
        assert between == old(Slots())[i := old(SlotAt(i)).(lock := -1)];
        StopUnit(i);
        ChangeStatus(i, Idle);
      }
    }

    /** The end of manageConnection for client j. */
    method Disconnected(j: nat)
      requires Valid() && j < MAX_CLIENTS
      modifies lock, status, notify, unit, socketId
      ensures View() == Next(old(View()), Leave(j))
    {
      for i := 0 to MAX_DEVICES
        invariant Clients() == old(Clients())
        invariant forall k | 0 <= k < MAX_DEVICES ::
          Slots()[k] == if k < i then Release(old(Slots())[k], old(socketId[j])) else old(Slots())[k]
      {
        ReleaseFrom(i, socketId[j]);
      }
      socketId[j] := -1;
      assert Clients() == old(Clients())[j := Client(-1, sent[j])];
    }

    /** The first open device with the serial number, or -1. */
    method FindDeviceNumber(serialNumber: string) returns (i: int)
      requires Valid()
      ensures -1 <= i < MAX_DEVICES
      ensures i >= 0 ==> Occupied(Slots()[i]) && Slots()[i].serial == serialNumber
      ensures i < 0 ==> forall k | 0 <= k < MAX_DEVICES :: Occupied(Slots()[k]) ==> Slots()[k].serial != serialNumber
      ensures forall k | 0 <= k < i && Occupied(Slots()[k]) :: Slots()[k].serial != serialNumber
    {
      i := 0;
      while i < MAX_DEVICES
        invariant 0 <= i <= MAX_DEVICES
        invariant forall k | 0 <= k < i && Occupied(Slots()[k]) :: Slots()[k].serial != serialNumber
      {
        if openDevices[i] != "" && serial[i] == serialNumber {
          return;
        }
        i := i + 1;
      }
      i := -1;
    }
  }
}
