/** The linked list driven through the runs of the reader protocol: the same
    reports are in the list as the state machine says, and readers are given them
    in the order they arrived. */
module DeviceRuns {
  import opened Prelude
  import opened ReportQueue
  import opened Readers
  import opened ReaderTheorems

  /** The reports that were read, each cut to the reader's length. */
  function GivenOut(removed: seq<Removal>, length: nat): seq<Report> {
    if removed == [] then []
    else
      var last := removed[|removed| - 1];
      GivenOut(removed[..|removed| - 1], length)
      + (if last.cause == Read then [Delivered(last.report, length)] else [])
  }

  lemma GivenOutOneMore(removed: seq<Removal>, r: Removal, length: nat)
    ensures GivenOut(removed + [r], length)
         == GivenOut(removed, length) + (if r.cause == Read then [Delivered(r.report, length)] else [])
  {
    assert (removed + [r])[..|removed|] == removed;
  }

  lemma {:induction false} DrainedGiveNothing(removed: seq<Removal>, q: seq<Report>, length: nat)
    ensures GivenOut(removed + Removals(q, Drained), length) == GivenOut(removed, length)
  {
    if q == [] {
      assert removed + Removals(q, Drained) == removed;
    } else {
      hide GivenOut;
      var init := q[..|q| - 1];
      DrainedGiveNothing(removed, init, length);
      var last := Removal(q[|q| - 1], Drained);
      assert removed + Removals(q, Drained) == removed + Removals(init, Drained) + [last];
      GivenOutOneMore(removed + Removals(init, Drained), last, length);
    }
  }

  /** The reports that readers took, in order. */
  function ReportsRead(removed: seq<Removal>): seq<Report> {
    if removed == [] then []
    else
      var last := removed[|removed| - 1];
      ReportsRead(removed[..|removed| - 1]) + (if last.cause == Read then [last.report] else [])
  }

  /** Reader k got the start of the report it took: all of it if it fits. */
  predicate GotItsPart(given: seq<Report>, reports: seq<Report>, length: nat) {
    && |given| == |reports|
    && forall k | 0 <= k < |given| :: IsStartOf(given[k], reports[k], length)
  }

  lemma {:induction false} GivenOutIsPart(removed: seq<Removal>, length: nat)
    ensures GotItsPart(GivenOut(removed, length), ReportsRead(removed), length)
  {
    if removed == [] {
    } else {
      GivenOutIsPart(removed[..|removed| - 1], length);
    }
  }

  /** If every report fits, readers got exactly the reports they took. */
  lemma NothingCutOff(given: seq<Report>, reports: seq<Report>, length: nat)
    requires GotItsPart(given, reports, length) && forall k | 0 <= k < |reports| :: |reports[k]| <= length
    ensures given == reports
  {
    forall k | 0 <= k < |given| ensures given[k] == reports[k] {
      assert IsStartOf(given[k], reports[k], length);
    }
  }

  /** If readers took everything that left the list, they took the first reports received. */
  lemma {:induction false} ReadsArePrefix(removed: seq<Removal>)
    ensures (forall k | 0 <= k < |removed| :: removed[k].cause == Read) <==> |ReportsRead(removed)| == |removed|
    ensures |ReportsRead(removed)| <= |removed|
    ensures |ReportsRead(removed)| == |removed| ==> ReportsRead(removed) == Reports(removed)
  {
    if removed == [] {
    } else {
      var init := removed[..|removed| - 1];
      ReadsArePrefix(init);
      assert Reports(removed) == Reports(init) + [removed[|removed| - 1].report];
      assert forall k | 0 <= k < |removed| :: removed[k] == if k < |init| then init[k] else removed[|removed| - 1];
    }
  }

  lemma {:induction false} ReadsCount(removed: seq<Removal>)
    ensures |ReportsRead(removed)| == CountCause(removed, Read)
  {
    if removed == [] {
    } else {
      ReadsCount(removed[..|removed| - 1]);
    }
  }

  lemma {:induction false} ReadsWereReceived(removed: seq<Removal>)
    ensures forall r | r in ReportsRead(removed) :: r in Reports(removed)
  {
    if removed == [] {
    } else {
      var init, last := removed[..|removed| - 1], removed[|removed| - 1];
      ReadsWereReceived(init);
      assert Reports(removed) == Reports(init) + [last.report];
    }
  }

  predicate GivesUpFirst(p: Platform, s: State, r: nat)
    requires r < |s.readers| && s.readers[r].Looking?
  {
    p == Mac && s.readers[r].resumed && s.stopped
  }

  /** What one step reads. */
  function Reading(p: Platform, s: State, e: Event, length: nat): Option<Report>
    requires Enabled(p, s, e)
  {
    if s.queue != [] && (e.Poll? || (e.Look? && !GivesUpFirst(p, s, e.reader)))
    then Some(Delivered(s.queue[0], length)) else None
  }

  lemma StepGives(p: Platform, s: State, e: Event, length: nat)
    requires Enabled(p, s, e)
    ensures GivenOut(Next(p, s, e).removed, length)
         == GivenOut(s.removed, length) + (match Reading(p, s, e, length) case None => [] case Some(r) => [r])
  {
    hide GivenOut;
    if e.Drain? {
      DrainedGiveNothing(s.removed, s.queue, length);
    } else if s.queue != [] {
      GivenOutOneMore(s.removed, Removal(s.queue[0], Read), length);
      GivenOutOneMore(s.removed, Removal(s.queue[0], Evicted), length);
    }
  }

  /** What a step does to the list, and whether it signals the condition. */
  method Perform(dev: HidDevice, p: Platform, s: State, e: Event, length: nat)
    returns (signalled: bool, data: Option<Report>)
    requires dev.Valid() && dev.Queue() == s.queue && Enabled(p, s, e)
    modifies dev, dev.nodes
    ensures dev.Valid() && dev.Queue() == Next(p, s, e).queue
    ensures forall k | 0 <= k < |dev.nodes| :: dev.nodes[k] in old(dev.nodes) || fresh(dev.nodes[k])
    ensures signalled <==> e.Arrive? && Signals(p, s)
    ensures data == Reading(p, s, e, length)
    ensures data.Some? ==> s.queue != [] && IsStartOf(data.value, s.queue[0], length)
  {
    signalled, data := false, None;
    match e
    case Arrive(report, _) =>
      if p == Linux {
        signalled := dev.ReadCallback(report);
      } else {
        signalled := dev.HidReportCallback(report);
      }
    case Poll =>
      data := dev.Poll(length);
    case Look(r) =>
      if !GivesUpFirst(p, s, r) {
        data := dev.Poll(length);
      }
    case Drain =>
      dev.Drain();
    case _ =>
  }

  /** What was handed out, seen from what was received. */
  lemma GivenIsRead(s: State, given: seq<Report>, length: nat)
    requires given == GivenOut(s.removed, length)
    requires |s.removed| <= |s.received| && Reports(s.removed) == s.received[..|s.removed|]
    requires |s.removed| == CountCause(s.removed, Read) + CountCause(s.removed, Evicted) + CountCause(s.removed, Drained)
    ensures GotItsPart(given, ReportsRead(s.removed), length)
    ensures (forall r | r in s.received :: |r| <= length) ==> given == ReportsRead(s.removed)
    ensures (forall r | r in s.received :: |r| <= length)
            && CountCause(s.removed, Evicted) == CountCause(s.removed, Drained) == 0
            ==> given == s.received[..|s.removed|]
  {
    hide GivenOut, ReportsRead, GotItsPart, CountCause;
    GivenOutIsPart(s.removed, length);
    ReadsCount(s.removed);
    ReadsArePrefix(s.removed);
    if forall r | r in s.received :: |r| <= length {
      ReadsWereReceived(s.removed);
      forall k | 0 <= k < |ReportsRead(s.removed)| ensures |ReportsRead(s.removed)[k]| <= length {
        assert ReportsRead(s.removed)[k] in Reports(s.removed);
      }
      NothingCutOff(given, ReportsRead(s.removed), length);
    }
  }

  /** Any run of callbacks, readers and shutdown on a new device. The list holds
      exactly the reports that came last, and the readers were given theirs in order. */
  method Replay(dev: HidDevice, p: Platform, n: nat, es: seq<Event>, length: nat)
    returns (s: State, given: seq<Report>)
    requires dev.Valid() && dev.Queue() == [] && IsRun(p, Initial(n), es)
    modifies dev, dev.nodes
    ensures dev.Valid() && s == After(p, Initial(n), es)
    ensures |s.removed| <= |s.received| && Reports(s.removed) == s.received[..|s.removed|]
    ensures dev.Queue() == s.received[|s.removed|..] && |dev.Queue()| <= CAPACITY
    ensures GotItsPart(given, ReportsRead(s.removed), length)
    ensures (forall r | r in s.received :: |r| <= length) ==> given == ReportsRead(s.removed)
    ensures (forall r | r in s.received :: |r| <= length)
            && CountCause(s.removed, Evicted) == CountCause(s.removed, Drained) == 0
            ==> given == s.received[..|s.removed|]
  {
    s, given := Initial(n), [];
    for i := 0 to |es|
      invariant dev.Valid() && dev.Queue() == s.queue
      invariant forall k | 0 <= k < |dev.nodes| :: dev.nodes[k] in old(dev.nodes) || fresh(dev.nodes[k])
      invariant IsRun(p, s, es[i..]) && After(p, s, es[i..]) == After(p, Initial(n), es)
      invariant given == GivenOut(s.removed, length)
    {
      StepGives(p, s, es[i], length);
      assert es[i..][1..] == es[i + 1..];
      var _, data := Perform(dev, p, s, es[i], length);
      if data.Some? {
        given := given + [data.value];
      }
      s := Next(p, s, es[i]);
    }
    hide GivenOut, ReportsRead, GotItsPart, CountCause, Enabled, Next;
    QueueConserves(p, n, es);
    GivenIsRead(s, given, length);
  }
}
