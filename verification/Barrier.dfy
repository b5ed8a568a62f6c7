/** The thread barrier built for systems without one (hidapi/mac/hid.c). Every
    call gets a ticket in order of entry; tickets are grouped in rounds of
    tripCount calls. */
module Barrier {
  import opened Arithmetic

  datatype Call = Waiting | Released | Returned(value: int)

  /** calls[k] is where the call with ticket k stands; its length is how many have entered. */
  datatype State = State(tripCount: nat, count: nat, calls: seq<Call>)

  function Initial(tripCount: nat): State { State(tripCount, 0, []) }

  datatype Event = Enter | Resume(ticket: nat) | Spurious(ticket: nat)

  function MovedOn(c: Call): Call { if c == Waiting then Released else c }

  /** A broadcast moves every waiting call on. */
  function Broadcast(calls: seq<Call>): (r: seq<Call>)
    ensures |r| == |calls| && forall k | 0 <= k < |r| :: r[k] == MovedOn(calls[k])
  {
    seq(|calls|, k requires 0 <= k < |calls| => MovedOn(calls[k]))
  }

  /** The part of pthread_barrier_wait up to returning or waiting. */
  function Entered(s: State): State {
    if s.count + 1 >= s.tripCount then State(s.tripCount, 0, Broadcast(s.calls) + [Returned(1)])
    else State(s.tripCount, s.count + 1, s.calls + [Waiting])
  }

  /** A wait that returns without a broadcast is possible only if spurious is set. */
  predicate Enabled(spurious: bool, s: State, e: Event) {
    match e
    case Enter => true
    case Resume(k) => k < |s.calls| && s.calls[k] == Released
    case Spurious(k) => spurious && k < |s.calls| && s.calls[k] == Waiting
  }

  function Next(spurious: bool, s: State, e: Event): State
    requires Enabled(spurious, s, e)
  {
    match e
    case Enter => Entered(s)
    case Resume(k) => s.(calls := s.calls[k := Returned(0)])
    case Spurious(k) => s.(calls := s.calls[k := Released])
  }

  predicate IsRun(spurious: bool, s: State, es: seq<Event>)
    decreases |es|
  {
    es == [] || (Enabled(spurious, s, es[0]) && IsRun(spurious, Next(spurious, s, es[0]), es[1..]))
  }

  function After(spurious: bool, s: State, es: seq<Event>): State
    requires IsRun(spurious, s, es)
    decreases |es|
  {
    if es == [] then s else After(spurious, Next(spurious, s, es[0]), es[1..])
  }

  /** The barrier object: count and its threads, changed by each call. */
  class PthreadBarrier {
    const tripCount: nat
    var count: nat
    ghost var calls: seq<Call>

    ghost function View(): State
      reads this
    {
      State(tripCount, count, calls)
    }

    constructor (tripCount: nat)
      requires tripCount > 0
      ensures View() == Initial(tripCount)
    {
      this.tripCount := tripCount;
      count := 0;
      calls := [];
    }

    /** One entry under the mutex; last tells whether this call returns 1 at once. */
    method Enter() returns (last: bool)
      modifies this
      ensures View() == Entered(old(View()))
      ensures last <==> calls[|calls| - 1] == Returned(1)
    {
      count := count + 1;
      if count >= tripCount {
        count := 0;
        calls := Broadcast(calls) + [Returned(1)];
        last := true;
      } else {
        calls := calls + [Waiting];
        last := false;
      }
    }
  }

  // ------------------------------------------------------------------ safety

  /** How many calls have entered in complete rounds. */
  function Completed(s: State): nat
    requires s.count <= |s.calls|
  {
    |s.calls| - s.count
  }

  /** k holds the last ticket of its round. */
  predicate IsLast(tripCount: nat, k: nat) { tripCount > 0 && (k + 1) % tripCount == 0 }

  /** A call of an unfinished round is waiting; of a finished round, released or
      returned, the last one with 1 and the others with 0. */
  predicate Inv(s: State) {
    && s.tripCount > 0 && s.count < s.tripCount && s.count <= |s.calls|
    && Completed(s) % s.tripCount == 0
    && forall k | 0 <= k < |s.calls| ::
         if k >= Completed(s) then s.calls[k] == Waiting
         else if IsLast(s.tripCount, k) then s.calls[k] == Returned(1)
         else s.calls[k] in {Released, Returned(0)}
  }

  lemma NextMultiple(a: nat, t: nat)
    requires t > 0 && a % t == 0
    ensures (a + t) % t == 0
  {
    assert a + t == t * (a / t) + t == t * (a / t + 1);
    QuotientRemainder(t, a / t + 1, 0);
  }

  /** Between multiples there is none. */
  lemma NoMultipleBetween(a: nat, t: nat, d: nat)
    requires t > 0 && a % t == 0 && 0 < d < t
    ensures (a + d) % t != 0
  {
    assert a + d == t * (a / t) + d;
    QuotientRemainder(t, a / t, d);
  }

  lemma EnterKeeps(s: State)
    requires Inv(s)
    ensures Inv(Entered(s))
  {
    var t := Entered(s);
    var base, trip := Completed(s), s.tripCount;
    if s.count + 1 >= trip {
      NextMultiple(base, trip);
      forall k | base <= k < |s.calls| ensures !IsLast(trip, k) {
        NoMultipleBetween(base, trip, k + 1 - base);
      }
      assert IsLast(trip, |s.calls|);
    }
  }

  lemma StepKeeps(s: State, e: Event)
    requires Inv(s) && Enabled(false, s, e)
    ensures Inv(Next(false, s, e)) && Next(false, s, e).tripCount == s.tripCount
  {
    if e == Enter {
      EnterKeeps(s);
    }
  }

  lemma {:induction false} RunKeeps(s: State, es: seq<Event>)
    requires Inv(s) && IsRun(false, s, es)
    ensures Inv(After(false, s, es)) && After(false, s, es).tripCount == s.tripCount
    decreases |es|
  {
    if es == [] {
    } else {
      StepKeeps(s, es[0]);
      RunKeeps(Next(false, s, es[0]), es[1..]);
    }
  }

  /** Round of a ticket. */
  function Round(tripCount: nat, k: nat): nat
    requires tripCount > 0
  {
    k / tripCount
  }

  /** No call returns before every call of its round has entered, and of each
      complete round exactly the last call returns 1, and has returned. */
  predicate Safe(s: State) {
    && s.tripCount > 0
    && (forall k | 0 <= k < |s.calls| && s.calls[k] != Waiting :: (Round(s.tripCount, k) + 1) * s.tripCount <= |s.calls|)
    && (forall k | 0 <= k < |s.calls| && s.calls[k] == Waiting :: |s.calls| < (Round(s.tripCount, k) + 1) * s.tripCount)
    && (forall k | 0 <= k < |s.calls| && s.calls[k].Returned? :: s.calls[k].value == if IsLast(s.tripCount, k) then 1 else 0)
    && (forall k | 0 <= k < |s.calls| && IsLast(s.tripCount, k) :: s.calls[k] == Returned(1))
  }

  /** Where a ticket's round ends, against the complete rounds. */
  lemma RoundEnd(base: nat, trip: nat, k: nat)
    requires trip > 0 && base % trip == 0
    ensures k < base ==> (Round(trip, k) + 1) * trip <= base
    ensures base <= k ==> base + trip <= (Round(trip, k) + 1) * trip
  {
    var b, r := base / trip, k / trip;
    assert base == trip * b && k == trip * r + k % trip;
    assert (r + 1) * trip == trip * r + trip;
    if r < b {
      MulMonotone(trip, r + 1, b);
    } else {
      MulMonotone(trip, b, r);
    }
  }

  lemma InvIsSafe(s: State)
    requires Inv(s)
    ensures Safe(s)
  {
    var base := Completed(s);
    forall k | 0 <= k < |s.calls|
      ensures s.calls[k] != Waiting ==> (Round(s.tripCount, k) + 1) * s.tripCount <= |s.calls|
      ensures s.calls[k] == Waiting ==> |s.calls| < (Round(s.tripCount, k) + 1) * s.tripCount
      ensures IsLast(s.tripCount, k) ==> k < base
    {
      RoundEnd(base, s.tripCount, k);
      if k >= base {
        NoMultipleBetween(base, s.tripCount, k + 1 - base);
      }
    }
  }

  /** With a wait that can return on its own, one call enters, wakes and returns alone. */
  lemma SpuriousBreaks(tripCount: nat)
    requires tripCount >= 2
    ensures IsRun(true, Initial(tripCount), [Enter, Spurious(0), Resume(0)])
    ensures !Safe(After(true, Initial(tripCount), [Enter, Spurious(0), Resume(0)]))
  {
    var s := Initial(tripCount);
    var a := Next(true, s, Enter);
    var b := Next(true, a, Spurious(0));
    var c := Next(true, b, Resume(0));
    assert IsRun(true, c, []) && IsRun(true, b, [Resume(0)]) by { assert [Resume(0)][1..] == []; }
    assert IsRun(true, a, [Spurious(0), Resume(0)]) && After(true, a, [Spurious(0), Resume(0)]) == c by {
      assert [Spurious(0), Resume(0)][1..] == [Resume(0)];
      assert [Resume(0)][1..] == [];
    }
    assert [Enter, Spurious(0), Resume(0)][1..] == [Spurious(0), Resume(0)];
    assert c.calls == [Returned(0)];
    assert (Round(tripCount, 0) + 1) * tripCount == tripCount;
  }

  /** With a trip count of one nobody ever waits, so nothing can wake early. */
  lemma {:induction false} OnlyReturned(s: State, es: seq<Event>)
    requires s.tripCount == 1 && s.count == 0 && (forall k | 0 <= k < |s.calls| :: s.calls[k].Returned?)
    requires IsRun(true, s, es)
    ensures IsRun(false, s, es) && After(false, s, es) == After(true, s, es)
    decreases |es|
  {
    if es == [] {
    } else {
      assert es[0] == Enter;
      OnlyReturned(Next(true, s, es[0]), es[1..]);
    }
  }

  /** The barrier holds its promise over every run exactly when waits return only
      on the broadcast, or there is nothing to wait for. */
  lemma SafeExactly(tripCount: nat, spurious: bool)
    requires tripCount > 0
    ensures (forall es :: IsRun(spurious, Initial(tripCount), es) ==> Safe(After(spurious, Initial(tripCount), es)))
            <==> !spurious || tripCount == 1
  {
    if spurious && tripCount >= 2 {
      SpuriousBreaks(tripCount);
    } else {
      forall es | IsRun(spurious, Initial(tripCount), es) ensures Safe(After(spurious, Initial(tripCount), es)) {
        if spurious { OnlyReturned(Initial(1), es); }
        assert Inv(Initial(tripCount));
        RunKeeps(Initial(tripCount), es);
        InvIsSafe(After(false, Initial(tripCount), es));
      }
    }
  }
}
