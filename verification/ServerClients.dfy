/** What connections are sent, and when an entry of the client table can be used again. */
module ServerClients {
  import opened Prelude
  import opened ServerTable
  import opened ServerRuns
  import opened ServerTheorems

  /** A step sends at most one message on a connection, and only while it is open; a
      new connection starts with none. */
  lemma SentOnlyToOpen(s: Server, e: Event, j: nat)
    requires Enabled(s, e) && j < |s.clients|
    ensures |Next(s, e).clients| == |s.clients|
    ensures var before, after := s.clients[j], Next(s, e).clients[j];
            || after.sent == before.sent
            || (e.Accept? && e.client == j && after.sent == [])
            || (Live(before) && |after.sent| == |before.sent| + 1 && after.sent[..|before.sent|] == before.sent)
  {
  }

  /** A flush sends something exactly if something is pending for a connected device. */
  lemma FlushSendsExactly(s: Server, i: nat, j: nat)
    requires Inv(s) && Enabled(s, Flush(i)) && j < |s.clients| && Live(s.clients[j])
    ensures var t := Next(s, Flush(i));
            t.clients[j].sent != s.clients[j].sent <==> Occupied(s.slots[i]) && s.slots[i].notify != {}
  {
    assert SlotOk(s.slots[i]);
  }

  /** An update says nothing of a field that is not pending. */
  lemma UpdateTouchesOnlyPending(d: Slot, p: Picture, b: Bit)
    requires d.serial in p && b !in d.notify
    ensures var q := Applied(Some(p), UpdateOf(d));
            && q.Some? && q.value.Keys == p.Keys && SameField(q.value[d.serial], p[d.serial], b)
            && forall x | x in p && x != d.serial :: q.value[x] == p[x]
  {
  }

  /** The device list has one entry for each connected device, in slot order. */
  lemma {:induction false} SnapshotOfConcat(a: seq<Slot>, b: seq<Slot>)
    ensures Snapshot(a + b) == Snapshot(a) + Snapshot(b)
    decreases |b|
  {
    if b == [] {
      assert a + b == a;
    } else {
      SnapshotOfConcat(a, b[..|b| - 1]);
      assert (a + b)[..|a + b| - 1] == a + b[..|b| - 1];
    }
  }

  lemma SnapshotOfOne(d: Slot)
    requires SlotOk(d)
    ensures Snapshot([d]) == if Occupied(d) then [(d.serial, InfoOf(d))] else []
  {
    assert [d][..0] == [];
  }

  /** The entry of a connection that has ended is not used again before its thread
      was joined. */
  lemma {:induction false} EndedUntilJoined(s: Server, es: seq<Event>, j: nat)
    requires IsRun(s, es) && j < |s.clients| && s.clients[j].socket == -1 && Join(j) !in es
    ensures |After(s, es).clients| == |s.clients| && After(s, es).clients[j].socket == -1
    ensures forall socket :: Accept(j, socket) !in es
    decreases |es|
  {
    hide RunThread;
    if es == [] {
    } else {
      assert es[0] in es && forall e | e in es[1..] :: e in es;
      EndedUntilJoined(Next(s, es[0]), es[1..], j);
      assert es == [es[0]] + es[1..];
    }
  }

  /** Between the end of a connection and the next one in its entry there is a join. */
  lemma JoinBetween(s: Server, es: seq<Event>, j: nat)
    requires Enabled(s, Leave(j)) && IsRun(Next(s, Leave(j)), es)
    ensures (exists socket :: Accept(j, socket) in es) ==> Join(j) in es
  {
    if Join(j) !in es {
      EndedUntilJoined(Next(s, Leave(j)), es, j);
    }
  }
}
