/** One device scan: slots whose path is no longer enumerated are freed, then
    free slots take the new paths (src/ptrim-server.cc, monitorDevices). */
module ServerScan {
  import opened ServerTable
  import opened ServerRuns

  /** The paths that can be opened at some moment, and what is behind them. A scan
      is told one World for each slot: what opens while that slot is being filled. */
  type World = map<string, Hardware>

  /** Takes a path off the list of unclaimed ones. */
  function Cleared(current: seq<string>, path: string): (r: seq<string>)
    ensures |r| == |current| && forall j | 0 <= j < |r| :: r[j] == if current[j] == path then "" else current[j]
  {
    seq(|current|, j requires 0 <= j < |current| => if current[j] == path then "" else current[j])
  }

  /** The first pass, from slot i on, with the list of unclaimed paths it leaves. */
  function RemovePass(s: Server, i: nat, current: seq<string>): (Server, seq<string>)
    requires i <= |s.slots|
    decreases |s.slots| - i
  {
    if i == |s.slots| then (s, current)
    else if !Occupied(s.slots[i]) then RemovePass(s, i + 1, current)
    else if s.slots[i].path in current then RemovePass(s, i + 1, Cleared(current, s.slots[i].path))
    else RemovePass(Next(s, Remove(i)), i + 1, current)
  }

  function FirstOpenable(current: seq<string>, opens: World, j: nat): (r: nat)
    requires j <= |current|
    ensures j <= r <= |current|
    ensures forall k | j <= k < r :: current[k] == "" || current[k] !in opens
    ensures r < |current| ==> current[r] != "" && current[r] in opens
    decreases |current| - j
  {
    if j == |current| || (current[j] != "" && current[j] in opens) then j
    else FirstOpenable(current, opens, j + 1)
  }

  /** The second pass, from slot i on. */
  function AddPass(s: Server, i: nat, current: seq<string>, opens: seq<World>): Server
    requires i <= |s.slots| == |opens|
    decreases |s.slots| - i
  {
    if i == |s.slots| then s
    else if Occupied(s.slots[i]) then AddPass(s, i + 1, current, opens)
    else
      var j := FirstOpenable(current, opens[i], 0);
      if j == |current| then AddPass(s, i + 1, current, opens)
      else AddPass(Next(s, Add(i, current[j], opens[i][current[j]])), i + 1, current[j := ""], opens)
  }

  lemma {:induction false} SlotsStay(s: Server, i: nat, current: seq<string>)
    requires i <= |s.slots|
    ensures |RemovePass(s, i, current).0.slots| == |s.slots|
    decreases |s.slots| - i
  {
    if i == |s.slots| {
    } else {
      if !Occupied(s.slots[i]) {
        SlotsStay(s, i + 1, current);
      } else if s.slots[i].path in current {
        SlotsStay(s, i + 1, Cleared(current, s.slots[i].path));
      } else {
        SlotsStay(Next(s, Remove(i)), i + 1, current);
      }
    }
  }

  /** Only the first MAX_DEVICES enumerated paths are looked at. */
  function Truncated(enumerated: seq<string>): (r: seq<string>)
    ensures r <= enumerated && |r| == if |enumerated| <= MAX_DEVICES then |enumerated| else MAX_DEVICES
  {
    if |enumerated| > MAX_DEVICES then enumerated[..MAX_DEVICES] else enumerated
  }

  function Scan(s: Server, enumerated: seq<string>, opens: seq<World>): Server
    requires |s.slots| == |opens|
  {
    SlotsStay(s, 0, Truncated(enumerated));
    var (t, current) := RemovePass(s, 0, Truncated(enumerated));
    AddPass(t, 0, current, opens)
  }

  // ------------------------------------------------------------ the first pass

  ghost function Paths(slots: seq<Slot>): set<string> {
    set i | 0 <= i < |slots| && Occupied(slots[i]) :: slots[i].path
  }

  predicate DistinctPaths(slots: seq<Slot>) {
    forall i, k | 0 <= i < k < |slots| && Occupied(slots[i]) && Occupied(slots[k]) :: slots[i].path != slots[k].path
  }

  /** A list of paths in which every entry is a path or cleared, and no path is twice. */
  predicate DistinctEntries(current: seq<string>) {
    forall j, k | 0 <= j < k < |current| && current[j] != "" :: current[j] != current[k]
  }

  lemma PathIn(slots: seq<Slot>, i: nat)
    requires i < |slots| && Occupied(slots[i])
    ensures slots[i].path in Paths(slots)
  {
  }

  /** The path is that of a slot from i on. */
  ghost predicate HasSlot(slots: seq<Slot>, i: nat, p: string) {
    exists k :: i <= k < |slots| && Occupied(slots[k]) && slots[k].path == p
  }

  lemma HasSlotStep(slots: seq<Slot>, i: nat, p: string)
    requires i < |slots|
    ensures HasSlot(slots, i, p) <==> HasSlot(slots, i + 1, p) || (Occupied(slots[i]) && slots[i].path == p)
    ensures HasSlot(slots[i := EMPTY], i + 1, p) <==> HasSlot(slots, i + 1, p)
    ensures !HasSlot(slots, i, "")
  {
    if HasSlot(slots, i + 1, p) {
      var k :| i + 1 <= k < |slots| && Occupied(slots[k]) && slots[k].path == p;
      assert slots[i := EMPTY][k] == slots[k];
    }
  }

  /** Taking one slot's path off the list does not matter to the slots behind it. */
  lemma ClearedForOthers(slots: seq<Slot>, i: nat, current: seq<string>, k: nat)
    requires i < k < |slots| && DistinctPaths(slots) && Occupied(slots[i]) && Occupied(slots[k])
    ensures slots[k].path in Cleared(current, slots[i].path) <==> slots[k].path in current
  {
    var cleared := Cleared(current, slots[i].path);
    if slots[k].path in current {
      var j :| 0 <= j < |current| && current[j] == slots[k].path;
      assert cleared[j] == current[j];
    }
  }

  /** The first pass empties the slots whose path is not listed. */
  lemma {:induction false} RemovePassSlots(s: Server, i: nat, current: seq<string>)
    requires i <= |s.slots| && DistinctPaths(s.slots)
    ensures var t := RemovePass(s, i, current).0;
            && |t.slots| == |s.slots|
            && forall k | 0 <= k < |s.slots| :: t.slots[k] ==
                  if i <= k && Occupied(s.slots[k]) && s.slots[k].path !in current then EMPTY else s.slots[k]
    decreases |s.slots| - i
  {
    if i == |s.slots| {
    } else {
      if !Occupied(s.slots[i]) {
        RemovePassSlots(s, i + 1, current);
      } else if s.slots[i].path in current {
        RemovePassSlots(s, i + 1, Cleared(current, s.slots[i].path));
        forall k | i < k < |s.slots| && Occupied(s.slots[k])
          ensures s.slots[k].path in Cleared(current, s.slots[i].path) <==> s.slots[k].path in current
        {
          ClearedForOthers(s.slots, i, current, k);
        }
      } else {
        RemovePassSlots(Next(s, Remove(i)), i + 1, current);
      }
    }
  }

  lemma NoneLeft(slots: seq<Slot>, p: string)
    ensures !HasSlot(slots, |slots|, p)
  {
  }

  /** It takes off the list the paths that have a slot. */
  lemma {:induction false} RemovePassList(s: Server, i: nat, current: seq<string>)
    requires i <= |s.slots|
    ensures var rest := RemovePass(s, i, current).1;
            && |rest| == |current|
            && forall j | 0 <= j < |current| :: rest[j] == if HasSlot(s.slots, i, current[j]) then "" else current[j]
    decreases |s.slots| - i
  {
    hide HasSlot;
    if i == |s.slots| {
      forall p ensures !HasSlot(s.slots, i, p) { NoneLeft(s.slots, p); }
    } else {
      forall p ensures HasSlot(s.slots, i, p) <==>
                       HasSlot(s.slots, i + 1, p) || (Occupied(s.slots[i]) && s.slots[i].path == p)
               ensures HasSlot(s.slots[i := EMPTY], i + 1, p) <==> HasSlot(s.slots, i + 1, p)
               ensures !HasSlot(s.slots, i, "")
      {
        HasSlotStep(s.slots, i, p);
      }
      if !Occupied(s.slots[i]) {
        RemovePassList(s, i + 1, current);
      } else if s.slots[i].path in current {
        RemovePassList(s, i + 1, Cleared(current, s.slots[i].path));
      } else {
        RemovePassList(Next(s, Remove(i)), i + 1, current);
      }
    }
  }

  /** What the first pass leaves in each slot and in the list. */
  lemma RemovePassResult(s: Server, current: seq<string>)
    requires DistinctPaths(s.slots)
    ensures var (t, rest) := RemovePass(s, 0, current);
            && |t.slots| == |s.slots| && |rest| == |current|
            && (forall k | 0 <= k < |s.slots| :: t.slots[k] ==
                  if Occupied(s.slots[k]) && s.slots[k].path !in current then EMPTY else s.slots[k])
            && (forall j | 0 <= j < |current| :: rest[j] == if current[j] in Paths(s.slots) then "" else current[j])
  {
    hide RemovePass;
    RemovePassSlots(s, 0, current);
    RemovePassList(s, 0, current);
    assert forall p :: p in Paths(s.slots) <==> HasSlot(s.slots, 0, p);
  }

  // ----------------------------------------------------------- the second pass

  /** The paths still on the list. */
  ghost function Unclaimed(current: seq<string>): set<string> {
    set p | p in current && p != ""
  }

  /** The path opens whichever slot is being filled. */
  predicate AlwaysOpens(p: string, opens: seq<World>) {
    forall k | 0 <= k < |opens| :: p in opens[k]
  }

  function Free(slots: seq<Slot>, i: nat): nat
    requires i <= |slots|
    decreases |slots| - i
  {
    if i == |slots| then 0 else (if Occupied(slots[i]) then 0 else 1) + Free(slots, i + 1)
  }

  lemma {:induction false} FreeDependsOnTail(slots: seq<Slot>, after: seq<Slot>, i: nat)
    requires |slots| == |after| && i <= |slots|
    requires forall k | i <= k < |slots| :: after[k] == slots[k]
    ensures Free(after, i) == Free(slots, i)
    decreases |slots| - i
  {
    if i == |slots| {
    } else {
      FreeDependsOnTail(slots, after, i + 1);
    }
  }

  lemma UnclaimedAfterClaim(current: seq<string>, j: nat)
    requires DistinctEntries(current) && j < |current| && current[j] != ""
    ensures DistinctEntries(current[j := ""])
    ensures Unclaimed(current[j := ""]) == Unclaimed(current) - {current[j]}
    ensures |Unclaimed(current[j := ""])| == |Unclaimed(current)| - 1
  {
    var rest := current[j := ""];
    forall p ensures p in Unclaimed(rest) <==> p in Unclaimed(current) && p != current[j] {
      if p in Unclaimed(rest) {
        var k :| 0 <= k < |rest| && rest[k] == p;
        assert current[k] == p && k != j;
      }
      if p in Unclaimed(current) && p != current[j] {
        var k :| 0 <= k < |current| && current[k] == p;
        assert rest[k] == p;
      }
    }
    assert current[j] in Unclaimed(current);
  }

  lemma PathsAfterAdd(slots: seq<Slot>, i: nat, d: Slot)
    requires i < |slots| && !Occupied(slots[i]) && Occupied(d)
    ensures Paths(slots[i := d]) == Paths(slots) + {d.path}
  {
    var after := slots[i := d];
    forall p ensures p in Paths(after) <==> p in Paths(slots) || p == d.path {
      if p in Paths(slots) {
        var k :| 0 <= k < |slots| && Occupied(slots[k]) && slots[k].path == p;
        assert after[k].path == p;
      } else if p == d.path {
        assert after[i].path == p;
      }
    }
  }

  predicate Opened(d: Slot, opens: World) {
    d.path in opens && d == NewSlot(d.path, opens[d.path])
  }

  /** after is slots with free slots filled from unclaimed paths that opened then;
      every unclaimed path that always opens got a slot. */
  ghost predicate Filled(slots: seq<Slot>, after: seq<Slot>, unclaimed: set<string>, opens: seq<World>) {
    && |after| == |slots| == |opens| && DistinctPaths(after)
    && (forall k | 0 <= k < |slots| && Occupied(slots[k]) :: after[k] == slots[k])
    && (forall k | 0 <= k < |slots| && after[k] != slots[k] ::
          after[k].path in unclaimed && Opened(after[k], opens[k]))
    && forall p | p in unclaimed && AlwaysOpens(p, opens) :: p in Paths(after)
  }

  lemma FilledOneMore(slots: seq<Slot>, i: nat, between: seq<Slot>, after: seq<Slot>, unclaimed: set<string>, opens: seq<World>)
    requires i < |slots| == |between| == |opens| && !Occupied(slots[i])
    requires between == slots[i := between[i]] && Occupied(between[i]) && Opened(between[i], opens[i])
    requires Filled(between, after, unclaimed, opens)
    ensures Filled(slots, after, unclaimed + {between[i].path}, opens)
  {
    hide DistinctPaths;
    PathIn(after, i);
    assert forall k | 0 <= k < |slots| && k != i :: between[k] == slots[k];
  }

  /** There is a slot for each unclaimed path, or none of them opens every time. */
  ghost predicate Room(slots: seq<Slot>, i: nat, current: seq<string>, opens: seq<World>)
    requires i <= |slots|
  {
    |Unclaimed(current)| <= Free(slots, i) || forall p | p in Unclaimed(current) :: !AlwaysOpens(p, opens)
  }

  lemma NewPathStaysDistinct(slots: seq<Slot>, i: nat, d: Slot)
    requires i < |slots| && DistinctPaths(slots) && d.path !in Paths(slots)
    ensures DistinctPaths(slots[i := d])
  {
    forall k | 0 <= k < |slots| && Occupied(slots[k]) ensures slots[k].path != d.path {
      PathIn(slots, k);
    }
  }

  /** Claiming a path leaves the second pass's conditions standing for the next slot. */
  lemma ClaimLeavesRoom(slots: seq<Slot>, i: nat, current: seq<string>, opens: seq<World>, j: nat)
    requires i < |slots| == |opens| && !Occupied(slots[i]) && DistinctPaths(slots) && DistinctEntries(current)
    requires j < |current| && current[j] != "" && current[j] in opens[i]
    requires Unclaimed(current) !! Paths(slots) && Room(slots, i, current, opens)
    ensures var after := slots[i := NewSlot(current[j], opens[i][current[j]])];
            && DistinctPaths(after) && DistinctEntries(current[j := ""])
            && Unclaimed(current[j := ""]) !! Paths(after)
            && Room(after, i + 1, current[j := ""], opens)
            && Unclaimed(current) == Unclaimed(current[j := ""]) + {current[j]}
  {
    hide AlwaysOpens, DistinctEntries, DistinctPaths;
    var path := current[j];
    var d := NewSlot(path, opens[i][path]);
    var after := slots[i := d];
    assert path in Unclaimed(current);
    UnclaimedAfterClaim(current, j);
    PathsAfterAdd(slots, i, d);
    FreeDependsOnTail(slots, after, i + 1);
    assert Free(slots, i) == 1 + Free(slots, i + 1);
    NewPathStaysDistinct(slots, i, d);
  }

  /** The second pass seen from the slots alone. */
  function FillFree(slots: seq<Slot>, i: nat, current: seq<string>, opens: seq<World>): seq<Slot>
    requires i <= |slots| == |opens|
    decreases |slots| - i
  {
    if i == |slots| then slots
    else
      var j := FirstOpenable(current, opens[i], 0);
      if Occupied(slots[i]) || j == |current| then FillFree(slots, i + 1, current, opens)
      else FillFree(slots[i := NewSlot(current[j], opens[i][current[j]])], i + 1, current[j := ""], opens)
  }

  lemma {:induction false} AddPassFillsFree(s: Server, i: nat, current: seq<string>, opens: seq<World>)
    requires i <= |s.slots| == |opens|
    ensures AddPass(s, i, current, opens).slots == FillFree(s.slots, i, current, opens)
    decreases |s.slots| - i
  {
    if i == |s.slots| {
    } else {
      var j := FirstOpenable(current, opens[i], 0);
      if Occupied(s.slots[i]) || j == |current| {
        AddPassFillsFree(s, i + 1, current, opens);
      } else {
        AddPassFillsFree(Next(s, Add(i, current[j], opens[i][current[j]])), i + 1, current[j := ""], opens);
      }
    }
  }

  /** A slot that stays free though paths are left shows that none of them always opens. */
  lemma NothingOpensHere(current: seq<string>, opens: seq<World>, i: nat)
    requires i < |opens| && FirstOpenable(current, opens[i], 0) == |current|
    ensures forall p | p in Unclaimed(current) :: !AlwaysOpens(p, opens)
  {
    forall p | p in Unclaimed(current) ensures !AlwaysOpens(p, opens) {
      var k :| 0 <= k < |current| && current[k] == p;
      assert p !in opens[i];
    }
  }

  /** With enough free slots ahead, the second pass claims every path that always opens. */
  lemma {:induction false} FillFreeResult(slots: seq<Slot>, i: nat, current: seq<string>, opens: seq<World>)
    requires i <= |slots| == |opens| && DistinctPaths(slots) && DistinctEntries(current)
    requires Unclaimed(current) !! Paths(slots) && Room(slots, i, current, opens)
    ensures Filled(slots, FillFree(slots, i, current, opens), Unclaimed(current), opens)
    decreases |slots| - i
  {
    hide DistinctEntries, DistinctPaths, AlwaysOpens;
    if i == |slots| {
      assert |Unclaimed(current)| == 0 ==> Unclaimed(current) == {};
    } else if Occupied(slots[i]) {
      FillFreeResult(slots, i + 1, current, opens);
    } else if FirstOpenable(current, opens[i], 0) == |current| {
      NothingOpensHere(current, opens, i);
      FillFreeResult(slots, i + 1, current, opens);
    } else {
      var j := FirstOpenable(current, opens[i], 0);
      var between, rest := slots[i := NewSlot(current[j], opens[i][current[j]])], current[j := ""];
      ClaimLeavesRoom(slots, i, current, opens, j);
      FillFreeResult(between, i + 1, rest, opens);
      FilledOneMore(slots, i, between, FillFree(between, i + 1, rest, opens), Unclaimed(rest), opens);
    }
  }

  // ------------------------------------------------------------- reconciliation

  lemma {:induction false} DistinctEntriesCount(current: seq<string>)
    ensures |set p | p in current| <= |current|
  {
    if current == [] {
    } else {
      var init, last := current[..|current| - 1], current[|current| - 1];
      DistinctEntriesCount(init);
      assert (set p | p in current) == (set p | p in init) + {last};
    }
  }

  lemma PathsOneMore(d: Slot, rest: seq<Slot>)
    ensures Paths([d] + rest) == Paths(rest) + (if Occupied(d) then {d.path} else {})
  {
    var all := [d] + rest;
    forall p ensures p in Paths(all) <==> p in Paths(rest) || (Occupied(d) && p == d.path) {
      if p in Paths(rest) {
        var k :| 0 <= k < |rest| && Occupied(rest[k]) && rest[k].path == p;
        assert all[k + 1].path == p;
      } else if Occupied(d) && p == d.path {
        assert all[0].path == p;
      }
    }
  }

  lemma PathNotAgain(slots: seq<Slot>, i: nat)
    requires i < |slots| && DistinctPaths(slots) && Occupied(slots[i])
    ensures slots[i].path !in Paths(slots[i + 1..])
  {
    var rest := slots[i + 1..];
    forall p | p in Paths(rest) ensures p != slots[i].path {
      var k :| 0 <= k < |rest| && Occupied(rest[k]) && rest[k].path == p;
      assert rest[k] == slots[i + 1 + k];
    }
  }

  /** Occupied slots hold different paths, so the rest are free. */
  lemma {:induction false} FreeCount(slots: seq<Slot>, i: nat)
    requires i <= |slots| && DistinctPaths(slots)
    ensures Free(slots, i) + |Paths(slots[i..])| == |slots| - i
    decreases |slots| - i
  {
    hide DistinctPaths;
    if i == |slots| {
      assert Paths(slots[i..]) == {};
    } else {
      var d, rest := slots[i], slots[i + 1..];
      FreeCount(slots, i + 1);
      PathsOneMore(d, rest);
      assert slots[i..] == [d] + rest;
      if Occupied(d) { PathNotAgain(slots, i); }
    }
  }

  lemma SubsetSize<T>(a: set<T>, b: set<T>)
    requires a <= b
    ensures |a| <= |b|
  {
    assert b == a + (b - a);
  }

  /** There is room: kept paths and new ones together were enumerated. */
  lemma RoomForAll(slots: seq<Slot>, current: seq<string>, enumerated: seq<string>)
    requires DistinctPaths(slots) && |enumerated| <= |slots|
    requires Paths(slots) !! Unclaimed(current)
    requires forall p | p in Paths(slots) + Unclaimed(current) :: p in enumerated
    ensures |Unclaimed(current)| <= Free(slots, 0)
  {
    var listed := set p | p in enumerated;
    DistinctEntriesCount(enumerated);
    var used := Paths(slots) + Unclaimed(current);
    assert used <= listed;
    SubsetSize(used, listed);
    FreeCount(slots, 0);
    assert slots[0..] == slots;
  }

  lemma PathsAfterRemovePass(slots: seq<Slot>, after: seq<Slot>, enumerated: seq<string>)
    requires |after| == |slots|
    requires forall k | 0 <= k < |slots| ::
               after[k] == if Occupied(slots[k]) && slots[k].path !in enumerated then EMPTY else slots[k]
    ensures Paths(after) == set p | p in enumerated && p in Paths(slots)
    ensures DistinctPaths(slots) ==> DistinctPaths(after)
  {
    forall p ensures p in Paths(after) <==> p in enumerated && p in Paths(slots) {
      if p in enumerated && p in Paths(slots) {
        var k :| 0 <= k < |slots| && Occupied(slots[k]) && slots[k].path == p;
        assert after[k].path == p;
      }
    }
  }

  lemma UnclaimedAfterRemovePass(slots: seq<Slot>, enumerated: seq<string>, rest: seq<string>)
    requires |rest| == |enumerated| && "" !in enumerated
    requires forall j | 0 <= j < |enumerated| :: rest[j] == if enumerated[j] in Paths(slots) then "" else enumerated[j]
    ensures Unclaimed(rest) == set p | p in enumerated && p !in Paths(slots)
    ensures DistinctEntries(enumerated) ==> DistinctEntries(rest)
  {
    forall p ensures p in Unclaimed(rest) <==> p in enumerated && p !in Paths(slots) {
      if p in enumerated && p !in Paths(slots) {
        var j :| 0 <= j < |enumerated| && enumerated[j] == p;
        assert rest[j] == p;
      }
    }
  }

  /** A device still enumerated keeps its slot and its whole state; any other
      occupied slot was filled from an enumerated path that had no slot and opened
      then; no path has two slots, none that is not enumerated has one; and every
      enumerated path that had a slot or opens at every attempt has one. */
  ghost predicate Reconciled(slots: seq<Slot>, after: seq<Slot>, enumerated: seq<string>, opens: seq<World>) {
    && |after| == |slots| == |opens| && DistinctPaths(after)
    && (forall k | 0 <= k < |slots| && Occupied(slots[k]) && slots[k].path in enumerated :: after[k] == slots[k])
    && (forall k | 0 <= k < |slots| && Occupied(after[k]) && after[k] != slots[k] ::
          after[k].path !in Paths(slots) && Opened(after[k], opens[k]))
    && (forall p | p in Paths(after) :: p in enumerated)
    && forall p | p in enumerated && (p in Paths(slots) || AlwaysOpens(p, opens)) :: p in Paths(after)
  }

  /** Each slot, followed through both passes. */
  lemma BothPassesReconcile(slots: seq<Slot>, between: seq<Slot>, after: seq<Slot>, enumerated: seq<string>, opens: seq<World>)
    requires |between| == |slots| && "" !in enumerated
    requires forall k | 0 <= k < |slots| ::
               between[k] == if Occupied(slots[k]) && slots[k].path !in enumerated then EMPTY else slots[k]
    requires Filled(between, after, (set p | p in enumerated && p !in Paths(slots)), opens)
    ensures Reconciled(slots, after, enumerated, opens)
  {
    hide DistinctPaths, AlwaysOpens, Opened;
    PathsAfterRemovePass(slots, between, enumerated);
    forall p | p in Paths(after) ensures p in enumerated {
      var k :| 0 <= k < |after| && Occupied(after[k]) && after[k].path == p;
      if after[k] == between[k] { PathIn(between, k); }
    }
    forall p | p in enumerated && p in Paths(slots) ensures p in Paths(after) {
      var k :| 0 <= k < |between| && Occupied(between[k]) && between[k].path == p;
      PathIn(after, k);
    }
  }

  /** One scan over distinct paths reconciles the table with the first
      MAX_DEVICES of them. */
  lemma Reconciles(s: Server, enumerated: seq<string>, opens: seq<World>)
    requires |s.slots| == |opens| == MAX_DEVICES && DistinctPaths(s.slots)
    requires DistinctEntries(enumerated) && "" !in enumerated
    ensures Reconciled(s.slots, Scan(s, enumerated, opens).slots, Truncated(enumerated), opens)
  {
    hide NewSlot, Opened, Unclaimed, RemovePass, AddPass, FillFree, Filled, Reconciled;
    var seen := Truncated(enumerated);
    var (m, rest) := RemovePass(s, 0, seen);
    RemovePassResult(s, seen);
    PathsAfterRemovePass(s.slots, m.slots, seen);
    UnclaimedAfterRemovePass(s.slots, seen, rest);
    RoomForAll(m.slots, rest, seen);
    AddPassFillsFree(m, 0, rest, opens);
    FillFreeResult(m.slots, 0, rest, opens);
    BothPassesReconcile(s.slots, m.slots, FillFree(m.slots, 0, rest, opens), seen, opens);
  }

  /** If a path opens either always or never during the scan, the occupied paths
      are exactly the enumerated ones that had a slot or open. */
  lemma ReconcilesSteadily(s: Server, enumerated: seq<string>, opens: World)
    requires |s.slots| == MAX_DEVICES && DistinctPaths(s.slots)
    requires DistinctEntries(enumerated) && "" !in enumerated
    ensures Paths(Scan(s, enumerated, seq(MAX_DEVICES, k => opens)).slots)
         == set p | p in Truncated(enumerated) && (p in Paths(s.slots) || p in opens)
  {
    hide Scan, Truncated, DistinctPaths, DistinctEntries;
    var worlds := seq(MAX_DEVICES, k => opens);
    var after, seen := Scan(s, enumerated, worlds).slots, Truncated(enumerated);
    Reconciles(s, enumerated, worlds);
    forall p | p in Paths(after) ensures p in Paths(s.slots) || p in opens {
      var k :| 0 <= k < |after| && Occupied(after[k]) && after[k].path == p;
      if after[k] == s.slots[k] { PathIn(s.slots, k); }
    }
  }

  // --------------------------------------------------- a scan is made of steps

  lemma {:induction false} RemovePassIsRun(s: Server, i: nat, current: seq<string>) returns (es: seq<Event>)
    requires i <= |s.slots|
    ensures IsRun(s, es) && After(s, es) == RemovePass(s, i, current).0
    decreases |s.slots| - i
  {
    if i == |s.slots| {
      es := [];
    } else if !Occupied(s.slots[i]) {
      es := RemovePassIsRun(s, i + 1, current);
    } else if s.slots[i].path in current {
      es := RemovePassIsRun(s, i + 1, Cleared(current, s.slots[i].path));
    } else {
      var later := RemovePassIsRun(Next(s, Remove(i)), i + 1, current);
      es := [Remove(i)] + later;
      assert es[1..] == later;
    }
  }

  /** No two devices, present or to come, share a serial number. */
  ghost predicate OwnSerials(slots: seq<Slot>, coming: set<string>, opens: seq<World>) {
    && (forall k, p | 0 <= k < |opens| && p in coming && p in opens[k] ::
          opens[k][p].serial != "" && opens[k][p].serial !in Serials(slots))
    && forall k, l, p, q | 0 <= k < |opens| && 0 <= l < |opens| && p in coming && q in coming && p != q
                           && p in opens[k] && q in opens[l] :: opens[k][p].serial != opens[l][q].serial
  }

  lemma OwnSerialsOneMore(slots: seq<Slot>, i: nat, path: string, coming: set<string>, opens: seq<World>)
    requires i < |slots| == |opens| && !Occupied(slots[i]) && path != ""
    requires path in coming && path in opens[i] && OwnSerials(slots, coming, opens)
    ensures OwnSerials(slots[i := NewSlot(path, opens[i][path])], coming - {path}, opens)
  {
    var after := slots[i := NewSlot(path, opens[i][path])];
    forall x | x in Serials(after) ensures x in Serials(slots) || x == opens[i][path].serial {
      var k :| 0 <= k < |after| && Occupied(after[k]) && after[k].serial == x;
      if k != i { assert slots[k].serial == x; }
    }
  }

  lemma AdditionEnabled(s: Server, i: nat, current: seq<string>, opens: seq<World>, j: nat)
    requires i < |s.slots| == |opens| && !Occupied(s.slots[i])
    requires j < |current| && current[j] != "" && current[j] in opens[i]
    requires DistinctEntries(current) && Unclaimed(current) !! Paths(s.slots)
    requires OwnSerials(s.slots, Unclaimed(current), opens)
    ensures Enabled(s, Add(i, current[j], opens[i][current[j]]))
    ensures var after, rest := s.slots[i := NewSlot(current[j], opens[i][current[j]])], current[j := ""];
            DistinctEntries(rest) && Unclaimed(rest) !! Paths(after) && OwnSerials(after, Unclaimed(rest), opens)
  {
    assert current[j] in Unclaimed(current);
    UnclaimedAfterClaim(current, j);
    PathsAfterAdd(s.slots, i, NewSlot(current[j], opens[i][current[j]]));
    OwnSerialsOneMore(s.slots, i, current[j], Unclaimed(current), opens);
    forall k | 0 <= k < |s.slots| && Occupied(s.slots[k])
      ensures s.slots[k].path != current[j] && s.slots[k].serial != opens[i][current[j]].serial
    {
      PathIn(s.slots, k);
      assert s.slots[k].serial in Serials(s.slots);
    }
  }

  lemma {:induction false} AddPassIsRun(s: Server, i: nat, current: seq<string>, opens: seq<World>) returns (es: seq<Event>)
    requires i <= |s.slots| == |opens| && DistinctEntries(current)
    requires Unclaimed(current) !! Paths(s.slots)
    requires OwnSerials(s.slots, Unclaimed(current), opens)
    ensures IsRun(s, es) && After(s, es) == AddPass(s, i, current, opens)
    decreases |s.slots| - i
  {
    hide Unclaimed, OwnSerials, DistinctEntries;
    if i == |s.slots| {
      es := [];
    } else if Occupied(s.slots[i]) || FirstOpenable(current, opens[i], 0) == |current| {
      es := AddPassIsRun(s, i + 1, current, opens);
    } else {
      var j := FirstOpenable(current, opens[i], 0);
      var e := Add(i, current[j], opens[i][current[j]]);
      AdditionEnabled(s, i, current, opens, j);
      var later := AddPassIsRun(Next(s, e), i + 1, current[j := ""], opens);
      es := [e] + later;
      assert es[1..] == later;
    }
  }

  lemma {:induction false} RunsJoin(s: Server, es: seq<Event>, more: seq<Event>)
    requires IsRun(s, es) && IsRun(After(s, es), more)
    ensures IsRun(s, es + more) && After(s, es + more) == After(After(s, es), more)
    decreases |es|
  {
    hide Next;
    if es == [] {
      assert es + more == more;
    } else {
      assert (es + more)[1..] == es[1..] + more;
      RunsJoin(Next(s, es[0]), es[1..], more);
    }
  }

  /** A scan is a sequence of single removals and additions, each enabled when it
      happens; so everything a run keeps, a scan keeps. */
  lemma ScanIsRun(s: Server, enumerated: seq<string>, opens: seq<World>) returns (es: seq<Event>)
    requires |s.slots| == |opens| && DistinctPaths(s.slots) && DistinctEntries(enumerated) && "" !in enumerated
    requires OwnSerials(RemovePass(s, 0, Truncated(enumerated)).0.slots,
                        (set p | p in Truncated(enumerated) && p !in Paths(s.slots)), opens)
    ensures IsRun(s, es) && After(s, es) == Scan(s, enumerated, opens)
    ensures Inv(s) ==> Inv(Scan(s, enumerated, opens))
  {
    var seen := Truncated(enumerated);
    var (m, rest) := RemovePass(s, 0, seen);
    RemovePassResult(s, seen);
    PathsAfterRemovePass(s.slots, m.slots, seen);
    UnclaimedAfterRemovePass(s.slots, seen, rest);
    var removals := RemovePassIsRun(s, 0, seen);
    var additions := AddPassIsRun(m, 0, rest, opens);
    es := removals + additions;
    RunsJoin(s, removals, additions);
    if Inv(s) {
      RunKeepsInv(s, es);
    }
  }
}
