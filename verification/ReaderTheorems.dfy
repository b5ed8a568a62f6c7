/** What the report queue and its readers guarantee over whole runs, and where
    the Linux protocol stops guaranteeing it. */
module ReaderTheorems {
  import opened Prelude
  import opened Readers

  lemma InitialInv(p: Platform, n: nat)
    ensures Inv(p, Initial(n))
  {
  }

  // -------------------------------------------------------------- conservation

  function CountCause(removed: seq<Removal>, cause: Cause): nat {
    if removed == [] then 0
    else CountCause(removed[..|removed| - 1], cause) + (if removed[|removed| - 1].cause == cause then 1 else 0)
  }

  lemma {:induction false} CausesAddUp(removed: seq<Removal>)
    ensures |removed| == CountCause(removed, Read) + CountCause(removed, Evicted) + CountCause(removed, Drained)
  {
    if removed == [] {
    } else {
      CausesAddUp(removed[..|removed| - 1]);
    }
  }

  /** Reports leave in the order they came, so the queue is always the most recent
      ones; none is lost or made up; never more than 32 wait. */
  lemma QueueConserves(p: Platform, n: nat, es: seq<Event>)
    requires IsRun(p, Initial(n), es)
    ensures var s := After(p, Initial(n), es);
            && |s.removed| <= |s.received|
            && Reports(s.removed) == s.received[..|s.removed|] && s.queue == s.received[|s.removed|..]
            && |s.received| == CountCause(s.removed, Read) + CountCause(s.removed, Evicted)
                               + CountCause(s.removed, Drained) + |s.queue|
            && |s.queue| <= 32
  {
    InitialInv(p, n);
    RunKeeps(p, Initial(n), es);
    CausesAddUp(After(p, Initial(n), es).removed);
  }

  lemma OneMoreRemoval(removed: seq<Removal>, r: Removal)
    ensures CountCause(removed + [r], Evicted) ==
            CountCause(removed, Evicted) + (if r.cause == Evicted then 1 else 0)
  {
    assert (removed + [r])[..|removed|] == removed;
  }

  lemma {:induction false} CountOfDrained(removed: seq<Removal>, more: seq<Removal>)
    requires forall i | 0 <= i < |more| :: more[i].cause == Drained
    ensures CountCause(removed + more, Evicted) == CountCause(removed, Evicted)
  {
    if more == [] {
      assert removed + more == removed;
    } else {
      var init := more[..|more| - 1];
      CountOfDrained(removed, init);
      assert (removed + more)[..|removed + more| - 1] == removed + init;
    }
  }

  /** A report is evicted exactly when another arrives with 32 queued, and it is the oldest. */
  lemma EvictsExactly(p: Platform, s: State, e: Event)
    requires QueueOk(s) && Enabled(p, s, e)
    ensures var t := Next(p, s, e);
            && CountCause(t.removed, Evicted) ==
               CountCause(s.removed, Evicted) + (if e.Arrive? && |s.queue| == 32 then 1 else 0)
            && (e.Arrive? && |s.queue| == 32 ==> t.removed == s.removed + [Removal(s.queue[0], Evicted)])
            && (e.Arrive? && |s.queue| < 32 ==> t.removed == s.removed && t.queue == s.queue + [e.report])
  {
    hide CountCause;
    var t := Next(p, s, e);
    if e.Drain? {
      CountOfDrained(s.removed, Removals(s.queue, Drained));
    } else if s.queue != [] {
      OneMoreRemoval(s.removed, Removal(s.queue[0], Evicted));
      OneMoreRemoval(s.removed, Removal(s.queue[0], Read));
    }
  }

  /** What a reader that looks does. It waits exactly if nothing is queued and no
      flag is up. It returns the oldest report if there is one, even once a flag is
      up; only a Mac reader that was woken then returns without. */
  lemma LookExactly(p: Platform, s: State, r: nat)
    requires Enabled(p, s, Look(r))
    ensures var t, me := Next(p, s, Look(r)), s.readers[r];
            && |t.readers| == |s.readers| && t.received == s.received
            && (t.readers[r] == Committed(me.timed) <==> s.queue == [] && !s.stopped)
            && (t.readers[r] == Outside && t.mutex == None <==> s.queue != [] || s.stopped)
            && (t.removed != s.removed <==> s.queue != [] && !(p == Mac && me.resumed && s.stopped))
            && (t.removed != s.removed ==>
                  t.removed == s.removed + [Removal(s.queue[0], Read)] && t.queue == s.queue[1..])
  {
  }

  /** A read returns only with the mutex in hand or free to take: also one that timed out. */
  lemma ReturnsUnderMutex(p: Platform, s: State, e: Event, r: nat)
    requires MutexOk(s) && Enabled(p, s, e) && r < |s.readers| && s.readers[r] != Outside
    requires |Next(p, s, e).readers| == |s.readers| && Next(p, s, e).readers[r] == Outside
    ensures s.mutex == None || s.mutex == Some(r)
    ensures Next(p, s, e).mutex == None
  {
  }

  // ------------------------------------------------------------------ wake-ups

  /** A reader sleeps beside a queued report only when another is on its way to it. */
  predicate NoLostWakeup(s: State) {
    SomeAsleep(s) && s.queue != [] ==> Count(s.readers) > 0
  }

  /** Mac, any number of readers: until a flag is raised, whenever a reader sleeps
      the queued reports are at most the readers on their way. */
  lemma MacWakesEnough(n: nat, es: seq<Event>)
    requires IsRun(Mac, Initial(n), es)
    requires !After(Mac, Initial(n), es).stopped && SomeAsleep(After(Mac, Initial(n), es))
    ensures var s := After(Mac, Initial(n), es); |s.queue| <= Count(s.readers) && NoLostWakeup(s)
  {
    InitialInv(Mac, n);
    RunKeeps(Mac, Initial(n), es);
  }

  lemma {:induction false} NobodyOnTheWay(readers: seq<Reader>)
    requires forall i | 0 <= i < |readers| :: !OnItsWay(readers[i])
    ensures Count(readers) == 0
  {
    if readers == [] {
    } else {
      NobodyOnTheWay(readers[..|readers| - 1]);
    }
  }

  lemma {:induction false} RunsJoin(p: Platform, s: State, es: seq<Event>, more: seq<Event>)
    requires IsRun(p, s, es) && IsRun(p, After(p, s, es), more)
    ensures IsRun(p, s, es + more) && After(p, s, es + more) == After(p, After(p, s, es), more)
    decreases |es|
  {
    hide Next, Enabled;
    if es == [] {
      assert es + more == more;
    } else {
      assert (es + more)[1..] == es[1..] + more;
      RunsJoin(p, Next(p, s, es[0]), es[1..], more);
    }
  }

  lemma OneStep(p: Platform, s: State, e: Event)
    requires Enabled(p, s, e)
    ensures IsRun(p, s, [e]) && After(p, s, [e]) == Next(p, s, e)
  {
    assert [e][1..] == [];
  }

  lemma LooksAndSleeps(p: Platform, a: State, r: nat) returns (es: seq<Event>)
    requires a.queue == [] && !a.stopped && r < |a.readers| && a.readers[r].Looking?
    ensures IsRun(p, a, es)
    ensures After(p, a, es) == a.(readers := a.readers[r := Asleep(a.readers[r].timed)], mutex := None)
  {
    var b := Next(p, a, Look(r));
    OneStep(p, a, Look(r));
    OneStep(p, b, Wait(r));
    RunsJoin(p, a, [Look(r)], [Wait(r)]);
    es := [Look(r)] + [Wait(r)];
    assert b.(readers := b.readers[r := Asleep(a.readers[r].timed)], mutex := None)
        == a.(readers := a.readers[r := Asleep(a.readers[r].timed)], mutex := None);
  }

  /** The three steps by which a reader that finds nothing goes to sleep. */
  lemma FallsAsleep(p: Platform, s: State, r: nat) returns (es: seq<Event>)
    requires s.mutex == None && s.queue == [] && !s.stopped && r < |s.readers| && s.readers[r] == Outside
    ensures IsRun(p, s, es) && After(p, s, es) == s.(readers := s.readers[r := Asleep(false)])
  {
    var a := Next(p, s, Call(r, false));
    OneStep(p, s, Call(r, false));
    es := LooksAndSleeps(p, a, r);
    RunsJoin(p, s, [Call(r, false)], es);
    es := [Call(r, false)] + es;
    assert a.(readers := a.readers[r := Asleep(false)], mutex := None) == s.(readers := s.readers[r := Asleep(false)]);
  }

  lemma SecondReportUnsignalled(s: State) returns (es: seq<Event>)
    requires s.queue == [] && s.mutex == None && !s.stopped && |s.readers| >= 2
    requires s.readers[0] == s.readers[1] == Asleep(false)
    ensures IsRun(Linux, s, es)
    ensures var t := After(Linux, s, es); t.queue == [[]] && t.readers == s.readers[0 := Outside]
  {
    var a := Next(Linux, s, Arrive([], 0));
    assert a.readers[1].Asleep?;
    var b := Next(Linux, a, Arrive([], 1));
    var c := Next(Linux, b, Resume(0));
    OneStep(Linux, s, Arrive([], 0));
    OneStep(Linux, a, Arrive([], 1));
    OneStep(Linux, b, Resume(0));
    OneStep(Linux, c, Look(0));
    RunsJoin(Linux, s, [Arrive([], 0)], [Arrive([], 1)]);
    RunsJoin(Linux, s, [Arrive([], 0)] + [Arrive([], 1)], [Resume(0)]);
    RunsJoin(Linux, s, [Arrive([], 0)] + [Arrive([], 1)] + [Resume(0)], [Look(0)]);
    es := [Arrive([], 0)] + [Arrive([], 1)] + [Resume(0)] + [Look(0)];
    assert Next(Linux, c, Look(0)).readers == s.readers[0 := Outside];
  }

  /** Linux, two readers: two quick reports raise one signal, and after the first
      reader has taken its report the second sleeps beside the other. */
  lemma LinuxLosesAWakeup(n: nat) returns (es: seq<Event>)
    requires n >= 2
    ensures IsRun(Linux, Initial(n), es) && !NoLostWakeup(After(Linux, Initial(n), es))
  {
    var s0 := Initial(n);
    var es1 := FallsAsleep(Linux, s0, 0);
    var s1 := After(Linux, s0, es1);
    var es2 := FallsAsleep(Linux, s1, 1);
    var s2 := After(Linux, s1, es2);
    RunsJoin(Linux, s0, es1, es2);
    var es3 := SecondReportUnsignalled(s2);
    RunsJoin(Linux, s0, es1 + es2, es3);
    es := es1 + es2 + es3;
    var s := After(Linux, s2, es3);
    assert s.readers[1].Asleep?;
    NobodyOnTheWay(s.readers);
  }

  /** Linux never loses a wake-up exactly when at most one thread reads the
      device in blocking or timed mode. */
  lemma LinuxNeedsOneReader(n: nat)
    ensures (forall es :: IsRun(Linux, Initial(n), es) ==> NoLostWakeup(After(Linux, Initial(n), es))) <==> n <= 1
  {
    if n <= 1 {
      forall es | IsRun(Linux, Initial(n), es) ensures NoLostWakeup(After(Linux, Initial(n), es)) {
        InitialInv(Linux, n);
        RunKeeps(Linux, Initial(n), es);
      }
    } else {
      var es := LinuxLosesAWakeup(n);
    }
  }

  // ------------------------------------------------------------------ shutdown

  lemma {:induction false} StillClean(p: Platform, s: State, es: seq<Event>)
    requires Inv(p, s) && s.thread == Finished(true) && IsRun(p, s, es)
    ensures !SomeAsleep(After(p, s, es))
    decreases |es|
  {
    if es == [] {
    } else {
      StepKeeps(p, s, es[0]);
      StillClean(p, Next(p, s, es[0]), es[1..]);
    }
  }

  /** After a broadcast with the flag up, on either system and with any number of
      readers, nobody is asleep and nobody ever sleeps again. */
  lemma ShutdownIsFinal(p: Platform, s: State, es: seq<Event>)
    requires Inv(p, s) && Enabled(p, s, WakeAll) && s.stopped && IsRun(p, Next(p, s, WakeAll), es)
    ensures !SomeAsleep(After(p, Next(p, s, WakeAll), es))
  {
    StepKeeps(p, s, WakeAll);
    StillClean(p, Next(p, s, WakeAll), es);
  }

  lemma {:induction false} PollsEmpty(p: Platform, s: State) returns (es: seq<Event>)
    requires s.mutex == None
    ensures IsRun(p, s, es)
    ensures var t := After(p, s, es); t.queue == [] && t.mutex == None && t.stopped == s.stopped && t.readers == s.readers
    decreases |s.queue|
  {
    if s.queue == [] {
      es := [];
    } else {
      OneStep(p, s, Poll);
      es := PollsEmpty(p, Next(p, s, Poll));
      RunsJoin(p, s, [Poll], es);
      es := [Poll] + es;
    }
  }

  /** Whatever reader r is doing, it can get to sleep on an empty queue with the flag down. */
  lemma CanSleep(p: Platform, s: State, r: nat) returns (es: seq<Event>)
    requires MutexOk(s) && s.mutex == None && s.queue == [] && !s.stopped && r < |s.readers|
    ensures IsRun(p, s, es) && SomeAsleep(After(p, s, es))
  {
    assert !Inside(s.readers[r]);
    if s.readers[r].Asleep? {
      es := [];
    } else if s.readers[r].Signalled? {
      var a := Next(p, s, Resume(r));
      OneStep(p, s, Resume(r));
      es := LooksAndSleeps(p, a, r);
      assert After(p, a, es).readers[r].Asleep?;
      RunsJoin(p, s, [Resume(r)], es);
      es := [Resume(r)] + es;
    } else if s.readers[r] == TimedOut {
      var a := Next(p, s, GiveUp(r));
      OneStep(p, s, GiveUp(r));
      es := FallsAsleep(p, a, r);
      assert After(p, a, es).readers[r].Asleep?;
      RunsJoin(p, s, [GiveUp(r)], es);
      es := [GiveUp(r)] + es;
    } else {
      es := FallsAsleep(p, s, r);
      assert After(p, s, es).readers[r].Asleep?;
    }
  }

  /** A broadcast ends all sleeping for good exactly when the stop flag is up at
      the broadcast. */
  lemma ShutdownCleanExactly(p: Platform, s: State)
    requires Inv(p, s) && Enabled(p, s, WakeAll) && |s.readers| > 0
    ensures (forall es :: IsRun(p, Next(p, s, WakeAll), es) ==> !SomeAsleep(After(p, Next(p, s, WakeAll), es)))
            <==> s.stopped
  {
    var t := Next(p, s, WakeAll);
    StepKeeps(p, s, WakeAll);
    if s.stopped {
      forall es | IsRun(p, t, es) ensures !SomeAsleep(After(p, t, es)) {
        ShutdownIsFinal(p, s, es);
      }
    } else {
      var polls := PollsEmpty(p, t);
      RunKeeps(p, t, polls);
      var sleep := CanSleep(p, After(p, t, polls), 0);
      RunsJoin(p, t, polls, sleep);
    }
  }

  /** On Linux the flag can be down at the broadcast: the loop ends on an event
      error, and the transfer is not cancelled with success, for that would raise
      the flag. A reader that comes later sleeps with the read thread gone. */
  lemma LinuxCanEndUnclean(n: nat) returns (es: seq<Event>)
    requires n > 0
    ensures IsRun(Linux, Initial(n), [LeaveLoop, WakeAll] + es)
    ensures var s := After(Linux, Initial(n), [LeaveLoop, WakeAll] + es); s.thread == Finished(false) && SomeAsleep(s)
  {
    var s := Initial(n);
    var a := Next(Linux, s, LeaveLoop);
    var b := Next(Linux, a, WakeAll);
    OneStep(Linux, s, LeaveLoop);
    OneStep(Linux, a, WakeAll);
    RunsJoin(Linux, s, [LeaveLoop], [WakeAll]);
    assert [LeaveLoop] + [WakeAll] == [LeaveLoop, WakeAll];
    es := FallsAsleep(Linux, b, 0);
    assert After(Linux, b, es).readers[0].Asleep?;
    RunsJoin(Linux, s, [LeaveLoop, WakeAll], es);
  }

  /** On the Mac the flag is always up by then. */
  lemma MacShutdownIsClean(n: nat, es: seq<Event>)
    requires IsRun(Mac, Initial(n), es) && After(Mac, Initial(n), es).thread.Finished?
    ensures !SomeAsleep(After(Mac, Initial(n), es))
  {
    InitialInv(Mac, n);
    RunKeeps(Mac, Initial(n), es);
  }
}
