/** Readers, the transfer callback and shutdown around one report queue: the
    mutex and condition variable protocol of hidapi/linux/hid.c and
    hidapi/mac/hid.c as a state machine over its steps. */
module Readers {
  import opened Prelude
  import opened ReportQueue

  datatype Platform = Linux | Mac

  /** Where a thread stands inside a blocking or timed read. */
  datatype Reader =
    | Outside
    | Looking(timed: bool, resumed: bool)  // holds the mutex, about to look at list and flags
    | Committed(timed: bool)               // holds the mutex, has decided to wait
    | Asleep(timed: bool)
    | Signalled(timed: bool)               // taken off the condition, has yet to get the mutex
    | TimedOut

  /** The read thread; clean tells whether the stop flag was up at its broadcast. */
  datatype Thread = Running | Leaving | Finished(clean: bool)

  datatype Cause = Read | Evicted | Drained

  datatype Removal = Removal(report: Report, cause: Cause)

  /** received and removed record the past; stopped is shutdown_thread or, on the Mac, disconnected. */
  datatype State = State(
    queue: seq<Report>, received: seq<Report>, removed: seq<Removal>,
    stopped: bool, thread: Thread, mutex: Option<nat>, readers: seq<Reader>)

  function Initial(n: nat): State {
    State([], [], [], false, Running, None, seq(n, i => Outside))
  }

  datatype Event =
    | Arrive(report: Report, wake: nat)  // wake: the sleeper a signal picks
    | Poll                               // a non-blocking read
    | Call(reader: nat, timed: bool)
    | Look(reader: nat)
    | Wait(reader: nat)
    | Spurious(reader: nat)
    | Resume(reader: nat)
    | Expire(reader: nat)
    | GiveUp(reader: nat)
    | RaiseStop
    | LeaveLoop
    | WakeAll
    | Drain

  predicate Inside(r: Reader) { r.Looking? || r.Committed? }

  predicate SomeAsleep(s: State) { exists i :: 0 <= i < |s.readers| && s.readers[i].Asleep? }

  /** On Linux the loop can also be left through an error of the event call; on
      the Mac an error raises a flag first. */
  predicate Enabled(p: Platform, s: State, e: Event) {
    match e
    case Arrive(_, wake) =>
      s.mutex == None && (SomeAsleep(s) ==> wake < |s.readers| && s.readers[wake].Asleep?)
    case Poll => s.mutex == None
    case Call(r, _) => r < |s.readers| && s.mutex == None && s.readers[r] == Outside
    case Look(r) => r < |s.readers| && s.readers[r].Looking?
    case Wait(r) => r < |s.readers| && s.readers[r].Committed?
    case Spurious(r) => r < |s.readers| && s.readers[r].Asleep?
    case Resume(r) => r < |s.readers| && s.mutex == None && s.readers[r].Signalled?
    case Expire(r) => r < |s.readers| && s.readers[r] == Asleep(true)
    case GiveUp(r) => r < |s.readers| && s.mutex == None && s.readers[r] == TimedOut
    case RaiseStop => true
    case LeaveLoop => s.thread == Running && (p == Mac ==> s.stopped)
    case WakeAll => s.mutex == None && s.thread == Leaving
    case Drain => s.mutex == None && s.thread.Finished?
  }

  // -------------------------------------------------------------------- steps

  function Taken(s: State, cause: Cause): State
    requires s.queue != []
  {
    s.(queue := s.queue[1..], removed := s.removed + [Removal(s.queue[0], cause)])
  }

  /** An arriving report signals the condition; on Linux only if the list was empty. */
  predicate Signals(p: Platform, s: State) { p == Mac || s.queue == [] }

  function Received(p: Platform, s: State, report: Report, wake: nat): State
    requires Enabled(p, s, Arrive(report, wake))
  {
    var full := |s.queue| >= CAPACITY;
    s.(queue := Pushed(s.queue, report),
       received := s.received + [report],
       removed := if full then s.removed + [Removal(s.queue[0], Evicted)] else s.removed,
       readers := if SomeAsleep(s) && Signals(p, s)
                  then s.readers[wake := Signalled(s.readers[wake].timed)] else s.readers)
  }

  /** What a reader holding the mutex does on seeing the list and the flags. A
      resumed reader on the Mac looks at the flags first. */
  function Looked(p: Platform, s: State, r: nat): State
    requires Enabled(p, s, Look(r))
  {
    var me := s.readers[r];
    if p == Mac && me.resumed && s.stopped then s.(readers := s.readers[r := Outside], mutex := None)
    else if s.queue != [] then Taken(s, Read).(readers := s.readers[r := Outside], mutex := None)
    else if s.stopped then s.(readers := s.readers[r := Outside], mutex := None)
    else s.(readers := s.readers[r := Committed(me.timed)])
  }

  function Woken(r: Reader): Reader { if r.Asleep? then Signalled(r.timed) else r }

  function AllWoken(readers: seq<Reader>): (r: seq<Reader>)
    ensures |r| == |readers| && forall i | 0 <= i < |r| :: r[i] == Woken(readers[i])
  {
    seq(|readers|, i requires 0 <= i < |readers| => Woken(readers[i]))
  }

  function Removals(q: seq<Report>, cause: Cause): (r: seq<Removal>)
    ensures |r| == |q| && forall i | 0 <= i < |r| :: r[i] == Removal(q[i], cause)
  {
    seq(|q|, i requires 0 <= i < |q| => Removal(q[i], cause))
  }

  function Next(p: Platform, s: State, e: Event): State
    requires Enabled(p, s, e)
  {
    match e
    case Arrive(report, wake) => Received(p, s, report, wake)
    case Poll => if s.queue == [] then s else Taken(s, Read)
    case Call(r, timed) => s.(readers := s.readers[r := Looking(timed, false)], mutex := Some(r))
    case Look(r) => Looked(p, s, r)
    case Wait(r) => s.(readers := s.readers[r := Asleep(s.readers[r].timed)], mutex := None)
    case Spurious(r) => s.(readers := s.readers[r := Signalled(s.readers[r].timed)])
    case Resume(r) => s.(readers := s.readers[r := Looking(s.readers[r].timed, true)], mutex := Some(r))
    case Expire(r) => s.(readers := s.readers[r := TimedOut])
    case GiveUp(r) => s.(readers := s.readers[r := Outside])
    case RaiseStop => s.(stopped := true)
    case LeaveLoop => s.(thread := Leaving)
    case WakeAll => s.(readers := AllWoken(s.readers), thread := Finished(s.stopped))
    case Drain => s.(queue := [], removed := s.removed + Removals(s.queue, Drained))
  }

  predicate IsRun(p: Platform, s: State, es: seq<Event>)
    decreases |es|
  {
    es == [] || (Enabled(p, s, es[0]) && IsRun(p, Next(p, s, es[0]), es[1..]))
  }

  function After(p: Platform, s: State, es: seq<Event>): State
    requires IsRun(p, s, es)
    decreases |es|
  {
    if es == [] then s else After(p, Next(p, s, es[0]), es[1..])
  }

  // ---------------------------------------------------------------- invariant

  function Reports(removed: seq<Removal>): (r: seq<Report>)
    ensures |r| == |removed| && forall i | 0 <= i < |r| :: r[i] == removed[i].report
  {
    seq(|removed|, i requires 0 <= i < |removed| => removed[i].report)
  }

  predicate MutexOk(s: State) {
    && (forall r | 0 <= r < |s.readers| :: Inside(s.readers[r]) <==> s.mutex == Some(r))
    && (forall r | 0 <= r < |s.readers| && s.readers[r].Committed? :: s.queue == [])
  }

  /** The queue is what arrived and has not left, in order, and is bounded. */
  predicate QueueOk(s: State) {
    s.received == Reports(s.removed) + s.queue && |s.queue| <= CAPACITY
  }

  /** Once the read thread has broadcast with the flag up, nobody sleeps. */
  predicate ShutdownOk(p: Platform, s: State) {
    && (p == Mac && s.thread == Leaving ==> s.stopped)
    && (p == Mac && s.thread.Finished? ==> s.thread.clean)
    && (s.thread == Finished(true) ==>
          s.stopped && forall r | 0 <= r < |s.readers| :: !s.readers[r].Asleep? && !s.readers[r].Committed?)
  }

  /** A reader that was signalled and has not looked yet. */
  predicate OnItsWay(r: Reader) { r.Signalled? || (r.Looking? && r.resumed) }

  function Count(readers: seq<Reader>): nat {
    if readers == [] then 0
    else Count(readers[..|readers| - 1]) + (if OnItsWay(readers[|readers| - 1]) then 1 else 0)
  }

  /** Mac: queued reports never outnumber the signalled readers while somebody sleeps. */
  predicate EnoughSignals(s: State) {
    !s.stopped && SomeAsleep(s) ==> |s.queue| <= Count(s.readers)
  }

  /** Linux with one reader: it sleeps only on an empty queue. */
  predicate SleepsOnEmpty(s: State) {
    SomeAsleep(s) ==> s.queue == []
  }

  predicate Inv(p: Platform, s: State) {
    && MutexOk(s) && QueueOk(s) && ShutdownOk(p, s)
    && (p == Mac ==> EnoughSignals(s))
    && (p == Linux && |s.readers| <= 1 ==> SleepsOnEmpty(s))
  }

  lemma {:induction false} CountUpdate(readers: seq<Reader>, r: nat, x: Reader)
    requires r < |readers|
    ensures Count(readers[r := x]) ==
            Count(readers) - (if OnItsWay(readers[r]) then 1 else 0) + (if OnItsWay(x) then 1 else 0)
  {
    var n := |readers| - 1;
    if r < n {
      CountUpdate(readers[..n], r, x);
      assert readers[r := x][..n] == readers[..n][r := x];
    } else {
      assert readers[r := x][..n] == readers[..n];
    }
  }

  lemma QueueStep(p: Platform, s: State, e: Event)
    requires QueueOk(s) && Enabled(p, s, e)
    ensures QueueOk(Next(p, s, e))
  {
    var t := Next(p, s, e);
    if t.removed != s.removed || t.received != s.received {
      assert t.received == Reports(t.removed) + t.queue;
    }
  }

  lemma MutexStep(p: Platform, s: State, e: Event)
    requires MutexOk(s) && Enabled(p, s, e)
    ensures MutexOk(Next(p, s, e))
  {
  }

  lemma ShutdownStep(p: Platform, s: State, e: Event)
    requires MutexOk(s) && ShutdownOk(p, s) && Enabled(p, s, e)
    ensures ShutdownOk(p, Next(p, s, e))
  {
  }

  lemma MacStep(s: State, e: Event)
    requires MutexOk(s) && QueueOk(s) && ShutdownOk(Mac, s) && EnoughSignals(s) && Enabled(Mac, s, e)
    ensures EnoughSignals(Next(Mac, s, e))
  {
    var t := Next(Mac, s, e);
    if e.WakeAll? || e.Drain? || e.Poll? || e.RaiseStop? || e.LeaveLoop? {
    } else if e.Arrive? {
      if SomeAsleep(s) { CountUpdate(s.readers, e.wake, t.readers[e.wake]); }
    } else {
      CountUpdate(s.readers, e.reader, t.readers[e.reader]);
    }
  }

  lemma LinuxStep(s: State, e: Event)
    requires MutexOk(s) && |s.readers| <= 1 && SleepsOnEmpty(s) && Enabled(Linux, s, e)
    ensures SleepsOnEmpty(Next(Linux, s, e))
  {
  }

  lemma StepKeeps(p: Platform, s: State, e: Event)
    requires Inv(p, s) && Enabled(p, s, e)
    ensures Inv(p, Next(p, s, e)) && |Next(p, s, e).readers| == |s.readers|
  {
    QueueStep(p, s, e);
    MutexStep(p, s, e);
    ShutdownStep(p, s, e);
    if p == Mac { MacStep(s, e); } else if |s.readers| <= 1 { LinuxStep(s, e); }
  }

  lemma {:induction false} RunKeeps(p: Platform, s: State, es: seq<Event>)
    requires Inv(p, s) && IsRun(p, s, es)
    ensures Inv(p, After(p, s, es)) && |After(p, s, es).readers| == |s.readers|
    decreases |es|
  {
    if es == [] {
    } else {
      StepKeeps(p, s, es[0]);
      RunKeeps(p, Next(p, s, es[0]), es[1..]);
    }
  }
}
