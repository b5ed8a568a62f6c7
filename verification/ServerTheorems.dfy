/** The server's guarantees over whole runs. */
module ServerTheorems {
  import opened Prelude
  import opened Device
  import opened Sequence
  import opened ServerTable
  import opened ServerRuns

  /** The states a run passes through, first and last included. */
  function States(s: Server, es: seq<Event>): (r: seq<Server>)
    requires IsRun(s, es)
    ensures |r| == |es| + 1 && r[0] == s && r[|es|] == After(s, es)
    decreases |es|
  {
    if es == [] then [s] else [s] + States(Next(s, es[0]), es[1..])
  }

  /** Each state follows from the one before it by its step. */
  lemma {:induction false} StatesFollow(s: Server, es: seq<Event>, n: nat)
    requires IsRun(s, es) && n < |es|
    ensures Enabled(States(s, es)[n], es[n]) && States(s, es)[n + 1] == Next(States(s, es)[n], es[n])
    decreases n
  {
    hide Next;
    if n == 0 {
    } else {
      StatesFollow(Next(s, es[0]), es[1..], n - 1);
    }
  }

  lemma InitialInv()
    ensures Inv(Initial())
  {
    var s := Initial();
    assert Serials(s.slots) == {};
  }

  /** In every reachable state each lock is free or belongs to an open connection,
      and a locked device has an owner. */
  lemma LocksAreOwned(es: seq<Event>, i: nat)
    requires IsRun(Initial(), es) && i < |After(Initial(), es).slots|
    ensures var s := After(Initial(), es);
            && (s.slots[i].lock == -1 || Owned(s.clients, s.slots[i].lock))
            && (s.slots[i].status == Locked ==> s.slots[i].lock != -1)
  {
    InitialInv();
    RunKeepsInv(Initial(), es);
    assert SlotOk(After(Initial(), es).slots[i]);
  }

  /** In every reachable state an informed client knows exactly the connected
      devices, and any wrong field it holds has its notify bit set. */
  lemma PicturesAgree(es: seq<Event>, j: nat)
    requires IsRun(Initial(), es)
    requires var s := After(Initial(), es);
             j < |s.clients| && Live(s.clients[j]) && PictureOf(s.clients[j].sent).Some?
    ensures var s := After(Initial(), es);
            Agrees(s.slots, PictureOf(s.clients[j].sent).value)
  {
    InitialInv();
    RunKeepsInv(Initial(), es);
  }

  // --------------------------------------------------------- tables and units

  lemma AgreesOn(slots: seq<Slot>, i: nat, p: Picture)
    requires Agrees(slots, p) && i < |slots| && Occupied(slots[i])
    ensures slots[i].serial in p && UpToPending(slots[i], p[slots[i].serial])
  {
    assert slots[i].serial in Serials(slots);
  }

  /** In every reachable state an informed client has the name and the saved
      brightness of a connected unit right, as the unit itself holds them, unless
      the notify bit is set. */
  lemma UnitsAgree(es: seq<Event>, i: nat, j: nat)
    requires IsRun(Initial(), es)
    requires var s := After(Initial(), es);
             && i < |s.slots| && Occupied(s.slots[i])
             && j < |s.clients| && Live(s.clients[j]) && PictureOf(s.clients[j].sent).Some?
    ensures var s := After(Initial(), es);
            var d, p := s.slots[i], PictureOf(s.clients[j].sent).value;
            && d.serial in p
            && Excused(p[d.serial].name, CString(d.unit.name), d.notify, NameBit)
            && Excused(p[d.serial].brightness, d.unit.brightness, d.notify, BrightnessBit)
  {
    PicturesAgree(es, j);
    InitialInv();
    RunKeepsInv(Initial(), es);
    var s := After(Initial(), es);
    assert SlotOk(s.slots[i]);
    AgreesOn(s.slots, i, PictureOf(s.clients[j].sent).value);
  }

  /** If the status is the shown one, playing or stopped, the unit does what it says. */
  predicate TellsTrue(d: Slot, shown: Status)
    requires shown == Play || shown == Idle
  {
    d.status == shown ==> d.unit.playing == (shown == Play)
  }

  predicate Permitted(d: Slot, output: int) { d.status != Locked || d.lock == output }

  /** The commands that make a status untrue. An upload ends with the unit started,
      or stopped if its version is unknown, and leaves the status; colours and fades
      set the status to stopped and leave the unit playing if it did. */
  predicate Misleads(d: Slot, cmd: Command, output: int, shown: Status) {
    && Permitted(d, output)
    && match cmd
       case Upload(file, _, _) => d.status == shown && Rejected(file) == (shown == Play)
       case Color(first, _, _) => shown == Idle && (d.unit.playing || (first.Some? && d.status == Play))
       case Fade(_, _) => shown == Idle && d.unit.playing
       case _ => false
  }

  lemma CommandMisleadsExactly(d: Slot, cmd: Command, output: int, shown: Status)
    requires shown == Play || shown == Idle
    requires TellsTrue(d, shown)
    ensures TellsTrue(RunThread(d, cmd, output).0, shown) <==> !Misleads(d, cmd, output, shown)
  {
    hide StoredName, MakeBrightness, Brightened, WellFormed, CString, Rejected;
    if cmd.Brightness? { BrightenedKeeps(d, cmd.change); }
  }

  predicate MisleadsAt(s: Server, e: Event, i: nat, shown: Status) {
    e.Run? && e.device == i && i < |s.slots| && e.client < |s.clients|
    && Misleads(s.slots[i], e.cmd, s.clients[e.client].socket, shown)
  }

  /** Those commands, and no other step, make a true status untrue. */
  lemma StatusBrokenExactly(s: Server, e: Event, i: nat, shown: Status)
    requires shown == Play || shown == Idle
    requires Inv(s) && Enabled(s, e) && i < |s.slots| && TellsTrue(s.slots[i], shown)
    ensures i < |Next(s, e).slots|
    ensures TellsTrue(Next(s, e).slots[i], shown) <==> !MisleadsAt(s, e, i, shown)
  {
    hide RunThread, Misleads, UnitOk, WellFormed;
    assert SlotOk(s.slots[i]);
    if e.Run? { CommandMisleadsExactly(s.slots[i], e.cmd, s.clients[e.client].socket, shown); }
  }

  /** Over whole runs: while no step misleads, playing is shown only of units that
      play, and stopped only of units that stand still. */
  lemma {:induction false} StatusIsTrue(s: Server, es: seq<Event>, i: nat, shown: Status)
    requires shown == Play || shown == Idle
    requires Inv(s) && IsRun(s, es) && i < |s.slots| && TellsTrue(s.slots[i], shown)
    requires forall n | 0 <= n < |es| :: !MisleadsAt(States(s, es)[n], es[n], i, shown)
    ensures i < |After(s, es).slots| && TellsTrue(After(s, es).slots[i], shown)
    decreases |es|
  {
    hide MisleadsAt, Inv;
    if es == [] {
    } else {
      var t := Next(s, es[0]);
      assert States(s, es)[0] == s;
      StatusBrokenExactly(s, es[0], i, shown);
      StepKeeps(s, es[0]);
      forall n | 0 <= n < |es| - 1 ensures !MisleadsAt(States(t, es[1..])[n], es[1..][n], i, shown) {
        assert States(s, es)[n + 1] == States(t, es[1..])[n] && es[n + 1] == es[1..][n];
      }
      StatusIsTrue(t, es[1..], i, shown);
    }
  }

  /** A file of unknown version. */
  const ODD_FILE: seq<string> := ["title", "version", ""]

  lemma OddFileIsRejected()
    ensures Readable(ODD_FILE) && Rejected(ODD_FILE)
  {
    CountIs(ODD_FILE, 2);
    assert ODD_FILE[1] == "version";
  }

  lemma {:induction false} AfterOneMore(s: Server, es: seq<Event>, e: Event)
    requires IsRun(s, es) && Enabled(After(s, es), e)
    ensures IsRun(s, es + [e]) && After(s, es + [e]) == Next(After(s, es), e)
    decreases |es|
  {
    if es == [] {
      assert [e][1..] == [];
    } else {
      assert (es + [e])[1..] == es[1..] + [e];
      AfterOneMore(Next(s, es[0]), es[1..], e);
    }
  }

  /** A client connects and a device is plugged in. */
  lemma FirstDevice(unit: Unit)
    ensures var es := [Accept(0, 5), Add(0, "path", Hardware("serial", unit))];
            && IsRun(Initial(), es) && Inv(After(Initial(), es))
            && |After(Initial(), es).slots| > 0 && |After(Initial(), es).clients| > 0
            && After(Initial(), es).slots[0] == NewSlot("path", Hardware("serial", unit))
            && After(Initial(), es).clients[0].socket == 5
            && Enabled(After(Initial(), es), Run(0, 0, Start))
  {
    hide RunThread, WellFormed, Inv;
    var accept, add := Accept(0, 5), Add(0, "path", Hardware("serial", unit));
    AfterOneMore(Initial(), [], accept);
    assert [] + [accept] == [accept];
    AfterOneMore(Initial(), [accept], add);
    assert [accept] + [add] == [accept, add];
    InitialInv();
    RunKeepsInv(Initial(), [accept, add]);
  }

  /** Both statuses can be untrue: after an upload of unknown version to a playing
      device, and after a colour for one. */
  lemma StatusCanMislead(shown: Status, unit: Unit, color: Rgb) returns (es: seq<Event>)
    requires shown == Play || shown == Idle
    ensures IsRun(Initial(), es) && |After(Initial(), es).slots| > 0 && !TellsTrue(After(Initial(), es).slots[0], shown)
  {
    hide RunThread, WellFormed, Inv, Rejected, Readable;
    OddFileIsRejected();
    FirstDevice(unit);
    es := [Accept(0, 5), Add(0, "path", Hardware("serial", unit))];
    var s := After(Initial(), es);
    var run := Run(0, 0, if shown == Play then Upload(ODD_FILE, false, 0) else Color(None, color, None));
    StatusBrokenExactly(s, run, 0, shown);
    AfterOneMore(Initial(), es, run);
    es := es + [run];
  }

  // ------------------------------------------------------------------ flushing

  /** One pass of the notification thread over the first n devices. */
  function FlushPass(n: nat): seq<Event> {
    if n == 0 then [] else FlushPass(n - 1) + [Flush(n - 1)]
  }

  /** The same devices with the same state, and the same connections. */
  predicate SameButNotify(s: Server, t: Server) {
    && |t.slots| == |s.slots| && |t.clients| == |s.clients|
    && (forall i | 0 <= i < |s.slots| :: t.slots[i].(notify := {}) == s.slots[i].(notify := {}))
    && forall j | 0 <= j < |s.clients| :: t.clients[j].socket == s.clients[j].socket
  }

  lemma FlushClears(s: Server, i: nat)
    requires Inv(s) && i < |s.slots|
    ensures var t := Next(s, Flush(i));
            && SameButNotify(s, t) && (Occupied(s.slots[i]) ==> t.slots[i].notify == {})
            && forall k | 0 <= k < |s.slots| && k != i :: t.slots[k] == s.slots[k]
  {
    assert SlotOk(s.slots[i]);
  }

  lemma {:induction false} FlushPassClears(s: Server, n: nat)
    requires Inv(s) && n <= |s.slots|
    ensures IsRun(s, FlushPass(n))
    ensures var t := After(s, FlushPass(n));
            && SameButNotify(s, t) && forall i | 0 <= i < n && Occupied(t.slots[i]) :: t.slots[i].notify == {}
  {
    if n == 0 {
    } else {
      hide Next;
      FlushPassClears(s, n - 1);
      var t := After(s, FlushPass(n - 1));
      RunKeepsInv(s, FlushPass(n - 1));
      FlushClears(t, n - 1);
      AfterOneMore(s, FlushPass(n - 1), Flush(n - 1));
    }
  }

  lemma NothingPendingIsExact(slots: seq<Slot>, p: Picture)
    requires Agrees(slots, p)
    requires forall i | 0 <= i < |slots| && Occupied(slots[i]) :: slots[i].notify == {}
    ensures Exact(slots, p)
  {
    forall i | 0 <= i < |slots| && Occupied(slots[i]) ensures p[slots[i].serial] == InfoOf(slots[i]) {
      assert slots[i].serial in Serials(slots) && UpToPending(slots[i], p[slots[i].serial]);
    }
  }

  /** A pass of the notification thread leaves every informed client with an
      exact picture, and changes no device. */
  lemma FlushPassMakesExact(s: Server, j: nat)
    requires Inv(s) && j < |s.clients| && Live(s.clients[j])
    ensures IsRun(s, FlushPass(|s.slots|))
    ensures var t := After(s, FlushPass(|s.slots|));
            && |t.slots| == |s.slots| && j < |t.clients|
            && (forall i | 0 <= i < |s.slots| :: InfoOf(t.slots[i]) == InfoOf(s.slots[i]))
            && (PictureOf(t.clients[j].sent).Some? ==> Exact(t.slots, PictureOf(t.clients[j].sent).value))
  {
    FlushPassClears(s, |s.slots|);
    RunKeepsInv(s, FlushPass(|s.slots|));
    var t := After(s, FlushPass(|s.slots|));
    if PictureOf(t.clients[j].sent).Some? {
      NothingPendingIsExact(t.slots, PictureOf(t.clients[j].sent).value);
    }
  }

  // ------------------------------------------ flushes with other steps in between

  /** What notify bit b is about: the same in two views of a device. */
  predicate SameField(known: Info, actual: Info, b: Bit) {
    match b
    case NameBit => known.name == actual.name
    case BrightnessBit => known.brightness == actual.brightness
    case TempBrightnessBit => known.tempBrightness == actual.tempBrightness
    case StatusBit => known.status == actual.status
  }

  predicate KnownTo(p: Picture, d: Slot, b: Bit) {
    d.serial in p && SameField(p[d.serial], InfoOf(d), b)
  }

  /** Every informed client knows the field of device i as it is. */
  ghost predicate KnownToAll(s: Server, i: nat, b: Bit)
    requires i < |s.slots|
  {
    forall j | 0 <= j < |s.clients| && Live(s.clients[j]) && PictureOf(s.clients[j].sent).Some? ::
      KnownTo(PictureOf(s.clients[j].sent).value, s.slots[i], b)
  }

  /** A step replaced the device in a slot, or changed the field of it. */
  predicate Changed(before: Slot, after: Slot, b: Bit) {
    before.path != after.path || before.serial != after.serial || !SameField(InfoOf(before), InfoOf(after), b)
  }

  /** One flush makes its device exact for every informed client, whatever else is pending. */
  lemma FlushMakesExact(s: Server, i: nat, b: Bit)
    requires Inv(s) && i < |s.slots| && Occupied(s.slots[i])
    ensures |Next(s, Flush(i)).slots| == |s.slots| && KnownToAll(Next(s, Flush(i)), i, b)
  {
    var t := Next(s, Flush(i));
    FlushClears(s, i);
    StepKeeps(s, Flush(i));
    hide Next, PictureOf;
    forall j | 0 <= j < |t.clients| && Live(t.clients[j]) && PictureOf(t.clients[j].sent).Some?
      ensures KnownTo(PictureOf(t.clients[j].sent).value, t.slots[i], b)
    {
      AgreesOn(t.slots, i, PictureOf(t.clients[j].sent).value);
    }
  }

  /** Messages about other devices, and updates of the device itself, leave a known field known. */
  lemma MessageKeepsKnown(sent: seq<Message>, m: Message, d: Slot, b: Bit)
    requires PictureOf(sent).Some? && KnownTo(PictureOf(sent).value, d, b)
    requires match m
      case Devices(_) => false
      case Added(serial, _) => serial != d.serial
      case Removed(serial) => serial != d.serial
      case Update(serial, _, _, _, _) => serial != d.serial || m == UpdateOf(d)
    ensures PictureOf(sent + [m]).Some? && KnownTo(PictureOf(sent + [m]).value, d, b)
  {
    PictureOfAppend(sent, m);
  }

  lemma WelcomedKnows(sent: seq<Message>, slots: seq<Slot>, i: nat, b: Bit)
    requires SlotsOk(slots) && i < |slots| && Occupied(slots[i])
    ensures PictureOf(sent + [Devices(Snapshot(slots))]) == Some(Read(Snapshot(slots)))
    ensures KnownTo(Read(Snapshot(slots)), slots[i], b)
  {
    PictureOfAppend(sent, Devices(Snapshot(slots)));
    SnapshotIsExact(slots);
    assert slots[i].serial in Serials(slots);
  }

  lemma OtherSerial(slots: seq<Slot>, i: nat, k: nat)
    requires SlotsOk(slots) && i < |slots| && k < |slots| && i != k && Occupied(slots[i]) && Occupied(slots[k])
    ensures slots[i].serial != slots[k].serial
  {
  }

  lemma NothingSent()
    ensures PictureOf([]) == None
  {
  }

  /** A message that went to every open connection. */
  lemma KnownBefore(s: Server, e: Event, i: nat, b: Bit, j: nat, m: Message)
    requires i < |s.slots| && KnownToAll(s, i, b) && j < |s.clients| && Live(s.clients[j])
    requires PictureOf(s.clients[j].sent + [m]).Some?
    requires match m
      case Devices(_) => false
      case Added(serial, _) => serial != s.slots[i].serial
      case Removed(serial) => serial != s.slots[i].serial
      case Update(serial, _, _, _, _) => serial != s.slots[i].serial || m == UpdateOf(s.slots[i])
    ensures KnownTo(PictureOf(s.clients[j].sent + [m]).value, s.slots[i], b)
  {
    PictureOfAppend(s.clients[j].sent, m);
    MessageKeepsKnown(s.clients[j].sent, m, s.slots[i], b);
  }

  /** The step seen by one client that stays. */
  lemma StepKeepsKnownTo(s: Server, e: Event, i: nat, b: Bit, j: nat)
    requires Inv(s) && Enabled(s, e) && i < |s.slots| && Occupied(s.slots[i])
    requires KnownToAll(s, i, b) && !Changed(s.slots[i], Next(s, e).slots[i], b)
    requires var c := Next(s, e).clients; j < |c| && Live(c[j]) && PictureOf(c[j].sent).Some?
    ensures KnownTo(PictureOf(Next(s, e).clients[j].sent).value, s.slots[i], b)
  {
    hide PictureOf, SameField, KnownTo;
    var sent := s.clients[j].sent;
    match e
    case Accept(k, _) =>
      if k == j { NothingSent(); }
    case Welcome(k) =>
      if k == j { WelcomedKnows(sent, s.slots, i, b); }
    case Remove(k) =>
      OtherSerial(s.slots, i, k);
      KnownBefore(s, e, i, b, j, Removed(s.slots[k].serial));
    case Add(k, path, hw) =>
      KnownBefore(s, e, i, b, j, Added(hw.serial, InfoOf(NewSlot(path, hw))));
    case Flush(k) =>
      assert SlotOk(s.slots[k]);
      if s.slots[k].status != Disconnect && s.slots[k].notify != {} {
        if k != i { OtherSerial(s.slots, i, k); }
        KnownBefore(s, e, i, b, j, UpdateOf(s.slots[k]));
      }
    case _ =>
  }

  /** While nobody changes a field of device i, everybody who knows it goes on knowing it. */
  lemma StepKeepsKnown(s: Server, e: Event, i: nat, b: Bit)
    requires Inv(s) && Enabled(s, e) && i < |s.slots| && Occupied(s.slots[i])
    requires KnownToAll(s, i, b) && !Changed(s.slots[i], Next(s, e).slots[i], b)
    ensures Occupied(Next(s, e).slots[i]) && KnownToAll(Next(s, e), i, b)
  {
    hide PictureOf;
    var t := Next(s, e);
    forall j | 0 <= j < |t.clients| && Live(t.clients[j]) && PictureOf(t.clients[j].sent).Some?
      ensures KnownTo(PictureOf(t.clients[j].sent).value, t.slots[i], b)
    {
      StepKeepsKnownTo(s, e, i, b, j);
    }
  }

  predicate ChangedAt(states: seq<Server>, n: nat, i: nat, b: Bit)
    requires n + 1 < |states|
  {
    i < |states[n].slots| && i < |states[n + 1].slots| && Changed(states[n].slots[i], states[n + 1].slots[i], b)
  }

  /** Somewhere along a run a step changed the field of device i. */
  predicate ChangedAlong(states: seq<Server>, i: nat, b: Bit) {
    exists n :: 0 <= n < |states| - 1 && ChangedAt(states, n, i, b)
  }

  lemma {:induction false} SizesStay(s: Server, es: seq<Event>)
    requires IsRun(s, es)
    ensures |After(s, es).slots| == |s.slots|
    decreases |es|
  {
    if es == [] {
    } else {
      SizesStay(Next(s, es[0]), es[1..]);
    }
  }

  lemma {:induction false} KnownOrChanged(s: Server, es: seq<Event>, i: nat, b: Bit)
    requires Inv(s) && IsRun(s, es) && i < |s.slots| && Occupied(s.slots[i]) && KnownToAll(s, i, b)
    ensures i < |After(s, es).slots|
    ensures KnownToAll(After(s, es), i, b) || ChangedAlong(States(s, es), i, b)
    decreases |es|
  {
    hide KnownToAll, Changed, Inv, RunThread, Broadcast;
    if es == [] {
    } else {
      var t, states := Next(s, es[0]), States(s, es);
      assert |t.slots| == |s.slots|;
      StepKeeps(s, es[0]);
      SizesStay(t, es[1..]);
      if Changed(s.slots[i], t.slots[i], b) {
        assert ChangedAt(states, 0, i, b);
      } else {
        StepKeepsKnown(s, es[0], i, b);
        KnownOrChanged(t, es[1..], i, b);
        if ChangedAlong(States(t, es[1..]), i, b) {
          var n :| 0 <= n < |states| - 2 && ChangedAt(States(t, es[1..]), n, i, b);
          assert ChangedAt(states, n + 1, i, b);
        }
      }
    }
  }

  lemma ShiftedSuffix<T>(s: seq<T>, n: nat)
    requires 0 < n <= |s|
    ensures s[1..][n - 1..] == s[n..] && (n < |s| ==> s[1..][n - 1] == s[n])
  {
  }

  /** A run from its state number n on. */
  lemma {:induction false} RunFrom(s: Server, es: seq<Event>, n: nat)
    requires Inv(s) && IsRun(s, es) && n <= |es|
    ensures Inv(States(s, es)[n]) && IsRun(States(s, es)[n], es[n..])
    ensures States(States(s, es)[n], es[n..]) == States(s, es)[n..]
    decreases n
  {
    hide Inv, Next;
    if n == 0 {
      assert es[0..] == es && States(s, es)[0..] == States(s, es);
    } else {
      var t, rest := Next(s, es[0]), es[1..];
      StepKeeps(s, es[0]);
      RunFrom(t, rest, n - 1);
      assert States(s, es)[1..] == States(t, rest);
      ShiftedSuffix(es, n);
      ShiftedSuffix(States(s, es), n);
    }
  }

  /** Flushes need not come in one piece. In any run in which step n flushes device
      i: a field of it that some informed client has wrong at the end was changed
      after that step. */
  lemma WrongMeansChangedSince(s: Server, es: seq<Event>, n: nat, i: nat, j: nat, b: Bit)
    requires Inv(s) && IsRun(s, es) && n < |es| && es[n] == Flush(i)
    requires var d := States(s, es)[n].slots; i < |d| && Occupied(d[i])
    requires var c := After(s, es).clients; j < |c| && Live(c[j]) && PictureOf(c[j].sent).Some?
    ensures var end := After(s, es);
            && i < |end.slots|
            && (KnownTo(PictureOf(end.clients[j].sent).value, end.slots[i], b)
                || ChangedAlong(States(s, es)[n + 1..], i, b))
  {
    hide Inv, PictureOf, KnownTo, ChangedAlong;
    var m := States(s, es)[n];
    RunFrom(s, es, n);
    RunFrom(s, es, n + 1);
    assert es[n..][0] == Flush(i) && es[n..][1..] == es[n + 1..];
    assert States(s, es)[n..][1] == States(s, es)[n + 1];
    FlushMakesExact(m, i, b);
    KnownOrChanged(Next(m, Flush(i)), es[n + 1..], i, b);
  }

  // --------------------------------------------------------------- lock safety

  /** Client j has device i locked. */
  predicate Holds(s: Server, j: nat, i: nat) {
    && j < |s.clients| && i < |s.slots| && Live(s.clients[j])
    && s.slots[i].status == Locked && s.slots[i].lock == s.clients[j].socket
  }

  predicate ChangesStatus(cmd: Command) {
    cmd.Unlock? || cmd.Start? || cmd.Stop? || cmd.Color? || cmd.Fade?
  }

  /** The owner changes the device's status or leaves, another client forces the
      lock, or the device goes away. */
  predicate EndsLock(e: Event, j: nat, i: nat) {
    match e
    case Run(k, m, cmd) => m == i && (if k == j then ChangesStatus(cmd) else cmd == ForceUnlock)
    case Leave(k) => k == j
    case Remove(m) => m == i
    case _ => false
  }

  predicate ByOwner(e: Event, j: nat, i: nat) {
    e.Run? && e.client == j && e.device == i
  }

  predicate ByAnother(e: Event, j: nat, i: nat) {
    e.Run? && e.client != j && e.device == i
  }

  /** Exactly the named steps end a lock. */
  lemma LockEndsExactly(s: Server, e: Event, j: nat, i: nat)
    requires Inv(s) && Enabled(s, e) && Holds(s, j, i)
    ensures Holds(Next(s, e), j, i) <==> !EndsLock(e, j, i)
  {
    assert SlotOk(s.slots[i]);
  }

  /** Until then, other clients are refused and nobody but the owner alters the device. */
  lemma LockedOut(s: Server, e: Event, j: nat, i: nat)
    requires Inv(s) && Enabled(s, e) && Holds(s, j, i) && !EndsLock(e, j, i)
    ensures var d, d' := s.slots[i], Next(s, e).slots[i];
            && (ByAnother(e, j, i) ==>
                  d' == d && RunThread(d, e.cmd, s.clients[e.client].socket).1 == PermissionDenied)
            && (!ByOwner(e, j, i) ==> d' == d || d' == d.(notify := {}))
  {
    assert SlotOk(s.slots[i]);
  }

  predicate ProtectedStep(s: Server, e: Event, t: Server, j: nat, i: nat) {
    && i < |s.slots| && i < |t.slots|
    && (ByAnother(e, j, i) ==> t.slots[i] == s.slots[i])
    && (!ByOwner(e, j, i) ==> InfoOf(t.slots[i]) == InfoOf(s.slots[i]) && t.slots[i].unit == s.slots[i].unit)
  }

  /** Client j holds device i in every state passed through; no step another client
      takes on the device alters it, and only the owner's commands alter the unit
      or what clients see of it. */
  predicate Protected(states: seq<Server>, es: seq<Event>, j: nat, i: nat)
    requires |states| == |es| + 1
  {
    && (forall n | 0 <= n < |states| :: Holds(states[n], j, i))
    && forall n | 0 <= n < |es| :: ProtectedStep(states[n], es[n], states[n + 1], j, i)
  }

  lemma ProtectedOneMore(s: Server, states: seq<Server>, e: Event, es: seq<Event>, j: nat, i: nat)
    requires |states| == |es| + 1 && Protected(states, es, j, i) && Holds(s, j, i)
    requires ProtectedStep(s, e, states[0], j, i)
    ensures Protected([s] + states, [e] + es, j, i)
  {
    var all, steps := [s] + states, [e] + es;
    forall n | 0 <= n < |steps| ensures ProtectedStep(all[n], steps[n], all[n + 1], j, i) {
      if n > 0 { assert steps[n] == es[n - 1] && all[n] == states[n - 1] && all[n + 1] == states[n]; }
    }
  }

  /** Over whole runs: a lock lasts, and protects its device, until a step that ends it. */
  lemma {:induction false} LockSafety(s: Server, es: seq<Event>, j: nat, i: nat)
    requires Inv(s) && IsRun(s, es) && Holds(s, j, i)
    requires forall n | 0 <= n < |es| :: !EndsLock(es[n], j, i)
    ensures Protected(States(s, es), es, j, i)
    decreases |es|
  {
    if es == [] {
    } else {
      LockEndsExactly(s, es[0], j, i);
      LockedOut(s, es[0], j, i);
      StepKeeps(s, es[0]);
      LockSafety(Next(s, es[0]), es[1..], j, i);
      ProtectedOneMore(s, States(Next(s, es[0]), es[1..]), es[0], es[1..], j, i);
      assert es == [es[0]] + es[1..];
    }
  }

  predicate NoneEnds(es: seq<Event>, j: nat, i: nat) {
    forall m | 0 <= m < |es| :: !EndsLock(es[m], j, i)
  }

  predicate TakesLock(s: Server, e: Event, j: nat, i: nat) {
    e == Run(j, i, LockDevice) && i < |s.slots| && s.slots[i].status != Locked
  }

  /** Step n is a lock command of client j that took device i, and no later step ends the lock. */
  predicate LockedSince(states: seq<Server>, es: seq<Event>, n: nat, j: nat, i: nat)
    requires n < |es| < |states|
  {
    TakesLock(states[n], es[n], j, i) && NoneEnds(es[n + 1..], j, i)
  }

  /** Who has the lock after a command: the client on socket keeps it or gets it. */
  lemma CommandHolds(d: Slot, cmd: Command, output: int, socket: int)
    ensures var r := RunThread(d, cmd, output).0;
            r.status == Locked && r.lock == socket <==>
            || (d.status == Locked && d.lock == socket &&
                !(if output == socket then ChangesStatus(cmd) else cmd == ForceUnlock))
            || (cmd == LockDevice && output == socket && d.status != Locked)
  {
    hide StoredName, MakeBrightness, Brightened, WellFormed, CString;
    if cmd.Brightness? { BrightenedKeeps(d, cmd.change); }
  }

  /** A step gives client j the device only as a lock command on a device that is not locked. */
  lemma HoldsStep(s: Server, e: Event, j: nat, i: nat)
    requires Inv(s) && Enabled(s, e)
    ensures Holds(Next(s, e), j, i) <==> (Holds(s, j, i) && !EndsLock(e, j, i)) || TakesLock(s, e, j, i)
  {
    hide RunThread, ChangesStatus, PicturesOk;
    if i < |s.slots| {
      assert SlotOk(s.slots[i]);
      assert s.slots[i].lock == -1 || Owned(s.clients, s.slots[i].lock);
      if e.Run? && j < |s.clients| {
        CommandHolds(s.slots[i], e.cmd, s.clients[e.client].socket, s.clients[j].socket);
      }
    }
  }

  /** Client j took device i along the run and has kept it. */
  predicate TookAndKept(states: seq<Server>, es: seq<Event>, j: nat, i: nat)
    requires |es| < |states|
  {
    exists n :: 0 <= n < |es| && LockedSince(states, es, n, j, i)
  }

  /** Taken at the first step, or later. */
  lemma TookAndKeptStep(states: seq<Server>, es: seq<Event>, later: seq<Server>, rest: seq<Event>, j: nat, i: nat)
    requires 0 < |es| < |states| && rest == es[1..] && later == states[1..]
    ensures TookAndKept(states, es, j, i) <==>
            (TakesLock(states[0], es[0], j, i) && NoneEnds(rest, j, i)) || TookAndKept(later, rest, j, i)
  {
    hide TakesLock, NoneEnds;
    if n :| 0 <= n < |es| && LockedSince(states, es, n, j, i) {
      if n > 0 {
        assert es[n + 1..] == rest[n..];
        assert LockedSince(later, rest, n - 1, j, i);
      }
    }
    if TakesLock(states[0], es[0], j, i) && NoneEnds(rest, j, i) {
      assert LockedSince(states, es, 0, j, i);
    }
    if n :| 0 <= n < |rest| && LockedSince(later, rest, n, j, i) {
      assert es[n + 2..] == rest[n + 1..];
      assert LockedSince(states, es, n + 1, j, i);
    }
  }

  lemma NoneEndsStep(es: seq<Event>, j: nat, i: nat)
    requires es != []
    ensures NoneEnds(es, j, i) <==> !EndsLock(es[0], j, i) && NoneEnds(es[1..], j, i)
  {
    assert es == [es[0]] + es[1..];
  }

  lemma NothingTaken(states: seq<Server>, j: nat, i: nat)
    requires states != []
    ensures NoneEnds([], j, i) && !TookAndKept(states, [], j, i)
  {
  }

  lemma {:induction false} HeldAfter(s: Server, es: seq<Event>, j: nat, i: nat)
    requires Inv(s) && IsRun(s, es)
    ensures Holds(After(s, es), j, i) <==>
            (Holds(s, j, i) && NoneEnds(es, j, i)) || TookAndKept(States(s, es), es, j, i)
    decreases |es|
  {
    hide Holds, EndsLock, TakesLock, NoneEnds, TookAndKept, Inv;
    if es == [] {
      NothingTaken(States(s, es), j, i);
    } else {
      var t, rest, states := Next(s, es[0]), es[1..], States(s, es);
      StepKeeps(s, es[0]);
      HoldsStep(s, es[0], j, i);
      HeldAfter(t, rest, j, i);
      NoneEndsStep(es, j, i);
      assert states[1..] == States(t, rest);
      TookAndKeptStep(states, es, States(t, rest), rest, j, i);
    }
  }

  /** The whole history of a lock: in every reachable state client j holds device i
      if and only if it took the device by a lock command that found it not locked,
      and no step since then ends the lock. */
  lemma HeldExactly(es: seq<Event>, j: nat, i: nat)
    requires IsRun(Initial(), es)
    ensures Holds(After(Initial(), es), j, i) <==> TookAndKept(States(Initial(), es), es, j, i)
  {
    InitialInv();
    HeldAfter(Initial(), es, j, i);
  }

  /** Force unlock frees a device only from somebody else's lock. On a free
      device, or for the owner, the server calls it an unknown command. */
  lemma ForceUnlockWorksExactly(d: Slot, output: int)
    requires SlotOk(d) && output > 0
    ensures var (r, reply) := RunThread(d, ForceUnlock, output);
            && (reply == NoReply <==> d.status == Locked && d.lock != output)
            && (reply == NoReply ==> r.status == Idle && r.lock == -1)
            && (reply != NoReply ==> r == d && reply == UnknownCommand)
  {
  }
}
