/** What every run of the server keeps: who owns a lock, what a lock protects,
    and how far a client's picture of the devices can be from the truth. */
module ServerRuns {
  import opened Prelude
  import opened Device
  import opened ServerTable

  // ------------------------------------------------------- a client's picture

  type Picture = map<string, Info>

  /** Reads the entries of a [devices] block in order. */
  function Read(entries: seq<(string, Info)>): Picture {
    if entries == [] then map[]
    else Read(entries[..|entries| - 1])[entries[|entries| - 1].0 := entries[|entries| - 1].1]
  }

  function Overlay<T>(change: Option<T>, known: T): T { if change.Some? then change.value else known }

  function Applied(p: Option<Picture>, m: Message): Option<Picture> {
    match m
    case Devices(entries) => Some(Read(entries))
    case Added(serial, info) => if p.None? then None else Some(p.value[serial := info])
    case Removed(serial) => if p.None? then None else Some(p.value - {serial})
    case Update(serial, name, brightness, tempBrightness, status) =>
      if p.None? || serial !in p.value then p
      else
        var i := p.value[serial];
        Some(p.value[serial := Info(Overlay(name, i.name), Overlay(brightness, i.brightness),
                                    Overlay(tempBrightness, i.tempBrightness), Overlay(status, i.status))])
  }

  /** What a client knows after the messages sent to it; nothing before its first [devices] block. */
  function PictureOf(sent: seq<Message>): Option<Picture> {
    if sent == [] then None else Applied(PictureOf(sent[..|sent| - 1]), sent[|sent| - 1])
  }

  lemma PictureOfAppend(sent: seq<Message>, m: Message)
    ensures PictureOf(sent + [m]) == Applied(PictureOf(sent), m)
  {
    assert (sent + [m])[..|sent|] == sent;
  }

  // ---------------------------------------------------------------- invariant

  ghost function Serials(slots: seq<Slot>): set<string> {
    set i | 0 <= i < |slots| && Occupied(slots[i]) :: slots[i].serial
  }

  /** A field of the picture is right, or its notify bit is set. */
  predicate Excused<T(==)>(shown: T, actual: T, notify: set<Bit>, bit: Bit) {
    shown == actual || bit in notify
  }

  predicate UpToPending(d: Slot, info: Info) {
    && Excused(info.name, d.name, d.notify, NameBit)
    && Excused(info.brightness, d.brightness, d.notify, BrightnessBit)
    && Excused(info.tempBrightness, d.tempBrightness, d.notify, TempBrightnessBit)
    && Excused(info.status, d.status, d.notify, StatusBit)
  }

  ghost predicate Agrees(slots: seq<Slot>, p: Picture) {
    && p.Keys == Serials(slots)
    && forall i | 0 <= i < |slots| && Occupied(slots[i]) :: UpToPending(slots[i], p[slots[i].serial])
  }

  predicate Owned(clients: seq<Client>, socket: int) {
    exists j :: 0 <= j < |clients| && Live(clients[j]) && clients[j].socket == socket
  }

  /** What the table says of a unit's own memory is so. */
  predicate UnitOk(d: Slot) { CString(d.unit.name) == d.name && d.unit.brightness == d.brightness }

  predicate SlotOk(d: Slot) {
    && (Occupied(d) <==> d.status != Disconnect)
    && (Occupied(d) ==> d.serial != "")
    && (!Occupied(d) ==> d.lock == -1)
    && (d.status == Locked ==> d.lock != -1)
    && UnitOk(d)
  }

  predicate SlotsOk(slots: seq<Slot>) {
    && (forall i | 0 <= i < |slots| :: SlotOk(slots[i]))
    && forall i, k | 0 <= i < k < |slots| && Occupied(slots[i]) && Occupied(slots[k]) ::
         slots[i].path != slots[k].path && slots[i].serial != slots[k].serial
  }

  predicate ClientsOk(clients: seq<Client>) {
    forall j, k | 0 <= j < k < |clients| && Live(clients[j]) :: clients[j].socket != clients[k].socket
  }

  /** Every lock is free or belongs to an open connection. */
  predicate LocksOk(s: Server) {
    forall i | 0 <= i < |s.slots| :: s.slots[i].lock == -1 || Owned(s.clients, s.slots[i].lock)
  }

  /** Every open connection that was sent the device list agrees up to pending notifications. */
  ghost predicate PicturesOk(s: Server) {
    forall j | 0 <= j < |s.clients| && Live(s.clients[j]) ::
      PictureOf(s.clients[j].sent).Some? ==> Agrees(s.slots, PictureOf(s.clients[j].sent).value)
  }

  ghost predicate Inv(s: Server) {
    SlotsOk(s.slots) && ClientsOk(s.clients) && LocksOk(s) && PicturesOk(s)
  }

  // ------------------------------------------------------ one step keeps Inv

  /** What is known of d up to pending bits is known of r up to its pending bits. */
  ghost predicate KeepsPending(d: Slot, r: Slot) {
    forall info :: UpToPending(d, info) ==> UpToPending(r, info)
  }

  /** Bits are only added, and each field that differs has its bit set. */
  predicate Announces(d: Slot, r: Slot) {
    && d.notify <= r.notify
    && Excused(d.name, r.name, r.notify, NameBit)
    && Excused(d.brightness, r.brightness, r.notify, BrightnessBit)
    && Excused(d.tempBrightness, r.tempBrightness, r.notify, TempBrightnessBit)
    && Excused(d.status, r.status, r.notify, StatusBit)
  }

  lemma AnnouncedKeepsPending(d: Slot, r: Slot)
    requires Announces(d, r)
    ensures KeepsPending(d, r)
  {
  }

  /** A change of brightness touches nothing else, announces itself, and keeps the unit in step. */
  lemma BrightenedKeeps(d: Slot, change: BrightnessChange)
    ensures var r := Brightened(d, change);
            && Announces(d, r) && (UnitOk(d) ==> UnitOk(r))
            && r.path == d.path && r.serial == d.serial && r.status == d.status && r.lock == d.lock
            && r.unit.playing == d.unit.playing
  {
    hide MakeBrightness;
  }

  lemma RunThreadAnnounces(d: Slot, cmd: Command, output: int)
    ensures Announces(d, RunThread(d, cmd, output).0)
  {
    hide StoredName, MakeBrightness, Brightened, WellFormed, CString;
    if cmd.Brightness? { BrightenedKeeps(d, cmd.change); }
  }

  lemma RunThreadKeeps(d: Slot, cmd: Command, output: int)
    requires SlotOk(d) && Occupied(d) && output > 0
    ensures var r := RunThread(d, cmd, output).0;
            && SlotOk(r) && r.path == d.path && r.serial == d.serial
            && r.lock in {d.lock, output, -1}
            && KeepsPending(d, r)
  {
    hide StoredName, MakeBrightness, KeepsPending, Brightened, Announces, CString, WellFormed;
    if cmd.Brightness? { BrightenedKeeps(d, cmd.change); }
    RunThreadAnnounces(d, cmd, output);
    AnnouncedKeepsPending(d, RunThread(d, cmd, output).0);
  }

  /** The devices present are the same, and each pending notification is still pending. */
  predicate SameDevices(slots: seq<Slot>, after: seq<Slot>) {
    && |after| == |slots|
    && forall i | 0 <= i < |slots| ::
         after[i].path == slots[i].path && after[i].serial == slots[i].serial
  }

  lemma SameDevicesSameSerials(slots: seq<Slot>, after: seq<Slot>)
    requires SameDevices(slots, after)
    ensures Serials(after) == Serials(slots)
  {
    forall x ensures x in Serials(after) <==> x in Serials(slots) {
      if x in Serials(slots) {
        var k :| 0 <= k < |slots| && Occupied(slots[k]) && slots[k].serial == x;
        assert Occupied(after[k]) && after[k].serial == x;
      }
    }
  }

  /** Locks stay owned when no owner's socket disappears. */
  lemma OwnersStay(s: Server, t: Server)
    requires LocksOk(s) && |t.slots| == |s.slots| && |t.clients| == |s.clients|
    requires forall j | 0 <= j < |s.clients| && Live(s.clients[j]) :: t.clients[j].socket == s.clients[j].socket
    requires forall i | 0 <= i < |s.slots| :: t.slots[i].lock in {-1, s.slots[i].lock}
    ensures LocksOk(t)
  {
    forall i | 0 <= i < |t.slots| && t.slots[i].lock != -1
      ensures Owned(t.clients, t.slots[i].lock)
    {
      var j :| 0 <= j < |s.clients| && Live(s.clients[j]) && s.clients[j].socket == s.slots[i].lock;
      assert Live(t.clients[j]);
    }
  }

  lemma AcceptKeeps(s: Server, j: nat, socket: int)
    requires Inv(s) && Enabled(s, Accept(j, socket))
    ensures Inv(Next(s, Accept(j, socket)))
  {
    var t := Next(s, Accept(j, socket));
    OwnersStay(s, t);
  }

  lemma SerialsOfOneMore(init: seq<Slot>, d: Slot)
    ensures Serials(init + [d]) == Serials(init) + (if Occupied(d) then {d.serial} else {})
  {
    var slots := init + [d];
    forall x ensures x in Serials(slots) <==> x in Serials(init) || (Occupied(d) && x == d.serial) {
      if x in Serials(init) {
        var k :| 0 <= k < |init| && Occupied(init[k]) && init[k].serial == x;
        assert slots[k].serial == x;
      } else if Occupied(d) && x == d.serial {
        assert slots[|init|].serial == x;
      }
    }
  }

  /** The picture holds every device as it is. */
  ghost predicate Exact(slots: seq<Slot>, p: Picture) {
    && p.Keys == Serials(slots)
    && forall i | 0 <= i < |slots| && Occupied(slots[i]) :: p[slots[i].serial] == InfoOf(slots[i])
  }

  lemma ReadOneMore(entries: seq<(string, Info)>, e: (string, Info))
    ensures Read(entries + [e]) == Read(entries)[e.0 := e.1]
  {
    assert (entries + [e])[..|entries|] == entries;
  }

  lemma ExactOneMore(init: seq<Slot>, d: Slot, p: Picture)
    requires SlotsOk(init + [d]) && Exact(init, p)
    ensures Exact(init + [d], if Occupied(d) then p[d.serial := InfoOf(d)] else p)
  {
    var slots := init + [d];
    var q := if Occupied(d) then p[d.serial := InfoOf(d)] else p;
    SerialsOfOneMore(init, d);
    forall i | 0 <= i < |slots| && Occupied(slots[i]) ensures q[slots[i].serial] == InfoOf(slots[i]) {
      if i < |init| {
        assert slots[i] == init[i] && init[i].serial in Serials(init);
        assert Occupied(d) ==> slots[i].serial != slots[|init|].serial;
      }
    }
  }

  lemma {:induction false} SnapshotIsExact(slots: seq<Slot>)
    requires SlotsOk(slots)
    ensures Exact(slots, Read(Snapshot(slots)))
  {
    if slots == [] {
      assert Serials(slots) == {};
    } else {
      var n := |slots| - 1;
      var init, d := slots[..n], slots[n];
      assert slots == init + [d];
      SnapshotIsExact(init);
      ExactOneMore(init, d, Read(Snapshot(init)));
      assert SlotOk(d);
      if Occupied(d) {
        ReadOneMore(Snapshot(init), (d.serial, InfoOf(d)));
      } else {
        assert Snapshot(slots) == Snapshot(init);
      }
    }
  }

  lemma ExactAgrees(slots: seq<Slot>, p: Picture)
    requires Exact(slots, p)
    ensures Agrees(slots, p)
  {
  }

  lemma WelcomeKeeps(s: Server, j: nat)
    requires Inv(s) && Enabled(s, Welcome(j))
    ensures Inv(Next(s, Welcome(j)))
  {
    var t := Next(s, Welcome(j));
    var all := Snapshot(s.slots);
    OwnersStay(s, t);
    assert PictureOf(t.clients[j].sent) == Some(Read(all)) by {
      PictureOfAppend(s.clients[j].sent, Devices(all));
    }
    assert Agrees(s.slots, Read(all)) by {
      SnapshotIsExact(s.slots);
      ExactAgrees(s.slots, Read(all));
    }
    assert forall k | 0 <= k < |s.clients| && k != j :: t.clients[k] == s.clients[k];
  }

  lemma PicturesStay(slots: seq<Slot>, after: seq<Slot>, p: Picture)
    requires Agrees(slots, p) && SameDevices(slots, after)
    requires forall i | 0 <= i < |slots| && Occupied(slots[i]) :: KeepsPending(slots[i], after[i])
    ensures Agrees(after, p)
  {
    SameDevicesSameSerials(slots, after);
    forall i | 0 <= i < |after| && Occupied(after[i]) ensures UpToPending(after[i], p[after[i].serial]) {
      assert Occupied(slots[i]) && slots[i].serial in Serials(slots);
      assert UpToPending(slots[i], p[slots[i].serial]);
    }
  }

  lemma RunKeeps(s: Server, j: nat, i: nat, cmd: Command)
    requires Inv(s) && Enabled(s, Run(j, i, cmd))
    ensures Inv(Next(s, Run(j, i, cmd)))
  {
    hide Agrees, PictureOf, UpToPending;
    var t := Next(s, Run(j, i, cmd));
    RunThreadKeeps(s.slots[i], cmd, s.clients[j].socket);
    forall k | 0 <= k < |t.slots| && t.slots[k].lock != -1 ensures Owned(t.clients, t.slots[k].lock) {
      if t.slots[k].lock != s.slots[k].lock {
        assert t.slots[k].lock == t.clients[j].socket;
      }
    }
    forall k | 0 <= k < |s.clients| && Live(s.clients[k]) && PictureOf(s.clients[k].sent).Some?
      ensures Agrees(t.slots, PictureOf(t.clients[k].sent).value)
    {
      PicturesStay(s.slots, t.slots, PictureOf(s.clients[k].sent).value);
    }
  }

  lemma ReleaseKeeps(d: Slot, socket: int)
    requires SlotOk(d) && socket > 0
    ensures var r := Release(d, socket);
            && SlotOk(r) && r.path == d.path && r.serial == d.serial
            && r.lock == (if d.lock == socket then -1 else d.lock)
            && KeepsPending(d, r)
  {
  }

  lemma LeaveKeeps(s: Server, j: nat)
    requires Inv(s) && Enabled(s, Leave(j))
    ensures Inv(Next(s, Leave(j)))
  {
    hide Agrees, PictureOf, UpToPending;
    var t := Next(s, Leave(j));
    forall i | 0 <= i < |s.slots|
      ensures t.slots[i] == Release(s.slots[i], s.clients[j].socket) && KeepsPending(s.slots[i], t.slots[i])
    {
      assert SlotOk(s.slots[i]);
      ReleaseKeeps(s.slots[i], s.clients[j].socket);
    }
    forall i | 0 <= i < |t.slots| && t.slots[i].lock != -1 ensures Owned(t.clients, t.slots[i].lock) {
      var k :| 0 <= k < |s.clients| && Live(s.clients[k]) && s.clients[k].socket == s.slots[i].lock;
      assert k != j && Live(t.clients[k]);
    }
    forall k | 0 <= k < |t.clients| && Live(t.clients[k]) && PictureOf(t.clients[k].sent).Some?
      ensures Agrees(t.slots, PictureOf(t.clients[k].sent).value)
    {
      PicturesStay(s.slots, t.slots, PictureOf(s.clients[k].sent).value);
    }
  }

  /** A picture that agrees, across the removal of device i. */
  lemma RemoveKeepsPicture(slots: seq<Slot>, i: nat, p: Picture)
    requires SlotsOk(slots) && Agrees(slots, p) && i < |slots| && Occupied(slots[i])
    ensures Agrees(slots[i := EMPTY], p - {slots[i].serial})
  {
    var after, gone := slots[i := EMPTY], slots[i].serial;
    forall x ensures x in Serials(after) <==> x in Serials(slots) && x != gone {
      if x in Serials(slots) && x != gone {
        var k :| 0 <= k < |slots| && Occupied(slots[k]) && slots[k].serial == x;
        assert after[k].serial == x;
      }
    }
  }

  lemma RemovedReadBack(sent: seq<Message>, serial: string)
    ensures PictureOf(sent + [Removed(serial)]) ==
            if PictureOf(sent).Some? then Some(PictureOf(sent).value - {serial}) else None
  {
    PictureOfAppend(sent, Removed(serial));
  }

  lemma RemoveKeeps(s: Server, i: nat)
    requires Inv(s) && Enabled(s, Remove(i))
    ensures Inv(Next(s, Remove(i)))
  {
    hide Agrees, PictureOf, Applied;
    var t := Next(s, Remove(i));
    OwnersStay(s, t);
    forall k | 0 <= k < |t.clients| && Live(t.clients[k]) && PictureOf(t.clients[k].sent).Some?
      ensures Agrees(t.slots, PictureOf(t.clients[k].sent).value)
    {
      RemovedReadBack(s.clients[k].sent, s.slots[i].serial);
      RemoveKeepsPicture(s.slots, i, PictureOf(s.clients[k].sent).value);
    }
  }

  /** A picture that agrees, across the addition of a device in the free slot i. */
  lemma AddKeepsPicture(slots: seq<Slot>, i: nat, d: Slot, p: Picture)
    requires i < |slots| && !Occupied(slots[i]) && Occupied(d)
    requires SlotsOk(slots[i := d]) && Agrees(slots, p)
    ensures Agrees(slots[i := d], p[d.serial := InfoOf(d)])
  {
    var after := slots[i := d];
    forall x ensures x in Serials(after) <==> x in Serials(slots) || x == d.serial {
      if x in Serials(slots) {
        var k :| 0 <= k < |slots| && Occupied(slots[k]) && slots[k].serial == x;
        assert after[k].serial == x;
      } else if x == d.serial {
        assert after[i].serial == x;
      }
    }
    forall k | 0 <= k < |after| && Occupied(after[k])
      ensures UpToPending(after[k], p[d.serial := InfoOf(d)][after[k].serial])
    {
      if k != i {
        assert after[k] == slots[k] && after[k].serial != after[i].serial;
        assert slots[k].serial in Serials(slots);
      }
    }
  }

  lemma AddedReadBack(sent: seq<Message>, serial: string, info: Info)
    ensures PictureOf(sent + [Added(serial, info)]) ==
            if PictureOf(sent).Some? then Some(PictureOf(sent).value[serial := info]) else None
  {
    PictureOfAppend(sent, Added(serial, info));
  }

  lemma AddKeeps(s: Server, i: nat, path: string, hw: Hardware)
    requires Inv(s) && Enabled(s, Add(i, path, hw))
    ensures Inv(Next(s, Add(i, path, hw)))
  {
    hide Agrees, PictureOf, Applied;
    var t := Next(s, Add(i, path, hw));
    var d := NewSlot(path, hw);
    OwnersStay(s, t);
    forall k | 0 <= k < |t.clients| && Live(t.clients[k]) && PictureOf(t.clients[k].sent).Some?
      ensures Agrees(t.slots, PictureOf(t.clients[k].sent).value)
    {
      AddedReadBack(s.clients[k].sent, hw.serial, InfoOf(d));
      AddKeepsPicture(s.slots, i, d, PictureOf(s.clients[k].sent).value);
    }
  }

  /** An [update] block makes the picture of its device exact. */
  lemma UpdateMakesExact(d: Slot, p: Picture)
    requires d.serial in p && UpToPending(d, p[d.serial])
    ensures Applied(Some(p), UpdateOf(d)) == Some(p[d.serial := InfoOf(d)])
  {
  }

  /** One picture, across a flush of device i. */
  lemma FlushKeepsPicture(slots: seq<Slot>, i: nat, p: Picture)
    requires SlotsOk(slots) && Agrees(slots, p) && i < |slots| && Occupied(slots[i])
    ensures Applied(Some(p), UpdateOf(slots[i])).Some?
    ensures Agrees(slots[i := slots[i].(notify := {})], Applied(Some(p), UpdateOf(slots[i])).value)
  {
    hide SlotOk, UnitOk, WellFormed, Applied, UpdateOf;
    var d := slots[i];
    var after, q := slots[i := d.(notify := {})], p[d.serial := InfoOf(d)];
    assert d.serial in Serials(slots);
    UpdateMakesExact(d, p);
    SameDevicesSameSerials(slots, after);
    forall k | 0 <= k < |after| && Occupied(after[k]) ensures UpToPending(after[k], q[after[k].serial]) {
      if k != i {
        assert after[k] == slots[k] && slots[k].serial != d.serial;
      }
    }
  }

  lemma FlushKeeps(s: Server, i: nat)
    requires Inv(s) && Enabled(s, Flush(i))
    ensures Inv(Next(s, Flush(i)))
  {
    hide Agrees, PictureOf;
    var t := Next(s, Flush(i));
    var d := s.slots[i];
    assert SlotOk(d);
    if d.status != Disconnect && d.notify != {} {
      OwnersStay(s, t);
      forall k | 0 <= k < |t.clients| && Live(t.clients[k]) && PictureOf(t.clients[k].sent).Some?
        ensures Agrees(t.slots, PictureOf(t.clients[k].sent).value)
      {
        PictureOfAppend(s.clients[k].sent, UpdateOf(d));
        FlushKeepsPicture(s.slots, i, PictureOf(s.clients[k].sent).value);
      }
    }
  }

  lemma StepKeeps(s: Server, e: Event)
    requires Inv(s) && Enabled(s, e)
    ensures Inv(Next(s, e))
  {
    match e
    case Accept(j, socket) => AcceptKeeps(s, j, socket);
    case Welcome(j) => WelcomeKeeps(s, j);
    case Run(j, i, cmd) => RunKeeps(s, j, i, cmd);
    case Leave(j) => LeaveKeeps(s, j);
    case Join(j) => OwnersStay(s, Next(s, e));
    case Remove(i) => RemoveKeeps(s, i);
    case Add(i, path, hw) => AddKeeps(s, i, path, hw);
    case Flush(i) => FlushKeeps(s, i);
  }

  lemma {:induction false} RunKeepsInv(s: Server, es: seq<Event>)
    requires Inv(s) && IsRun(s, es)
    ensures Inv(After(s, es))
    decreases |es|
  {
    if es == [] {
    } else {
      StepKeeps(s, es[0]);
      RunKeepsInv(Next(s, es[0]), es[1..]);
    }
  }
}
