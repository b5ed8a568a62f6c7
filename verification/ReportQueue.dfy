/** The queue of input reports: a linked list appended to by the transfer
    callback and popped by readers (hidapi/linux/hid.c, hidapi/mac/hid.c). */
module ReportQueue {
  import opened Prelude

  type Report = seq<Byte>

  /** A report that arrives when this many are queued pushes out the oldest. */
  const CAPACITY := 32

  function Pushed(q: seq<Report>, r: Report): seq<Report> {
    if |q| >= CAPACITY then q[1..] + [r] else q + [r]
  }

  /** data is the start of the report: all of it if there is room, else what fits. */
  predicate IsStartOf(data: Report, r: Report, length: nat) {
    data <= r && |data| == if |r| <= length then |r| else length
  }

  /** The bytes a reader with room for length bytes gets of a report. */
  function Delivered(r: Report, length: nat): (data: Report)
    ensures IsStartOf(data, r, length)
  {
    if length < |r| then r[..length] else r
  }

  class InputReport {
    const data: seq<Byte>
    var next: InputReport?

    constructor (data: seq<Byte>)
      ensures this.data == data && next == null
    {
      this.data := data;
      next := null;
    }
  }

  class HidDevice {
    var inputReports: InputReport?
    /** The list's nodes, head first. */
    ghost var nodes: seq<InputReport>

    ghost predicate Valid()
      reads this, nodes
    {
      && (if nodes == [] then inputReports == null
          else inputReports == nodes[0] && nodes[|nodes| - 1].next == null)
      && forall i {:trigger nodes[i].next} | 0 <= i < |nodes| - 1 :: nodes[i].next == nodes[i + 1]
    }

    ghost function Queue(): (q: seq<Report>)
      reads this
      ensures |q| == |nodes| && forall i | 0 <= i < |q| :: q[i] == nodes[i].data
    {
      seq(|nodes|, i requires 0 <= i < |nodes| reads this => nodes[i].data)
    }

    constructor ()
      ensures Valid() && Queue() == []
    {
      inputReports := null;
      nodes := [];
    }

    /** Unlinks the first report and hands over as much of it as fits. */
    method ReturnData(length: nat) returns (data: Report)
      requires Valid() && Queue() != []
      modifies this
      ensures Valid() && Queue() == old(Queue())[1..]
      ensures nodes == old(nodes)[1..]
      ensures data == Delivered(old(Queue())[0], length) && IsStartOf(data, old(Queue())[0], length)
    {
      var rpt := inputReports;
      var len := if length < |rpt.data| then length else |rpt.data|;
      data := rpt.data[..len];
      inputReports := rpt.next;
      nodes := nodes[1..];
    }

    /** Walks to the end of a non-empty list, counting the links followed. */
    method FindEnd() returns (cur: InputReport, numQueued: nat)
      requires Valid() && Queue() != []
      ensures numQueued == |Queue()| - 1 && cur == nodes[numQueued]
    {
      cur := inputReports;
      numQueued := 0;
      while cur.next != null
        invariant numQueued < |nodes| && cur == nodes[numQueued]
        decreases |nodes| - numQueued
      {
        cur := cur.next;
        numQueued := numQueued + 1;
      }
    }

    /** Links a report behind the last one of a non-empty list. */
    method Link(rpt: InputReport) returns (numQueued: nat)
      requires Valid() && Queue() != [] && rpt !in nodes && rpt.next == null
      modifies this, nodes
      ensures Valid() && nodes == old(nodes) + [rpt] && numQueued == |old(nodes)| - 1
      ensures Queue() == old(Queue()) + [rpt.data]
    {
      var cur;
      cur, numQueued := FindEnd();
      cur.next := rpt;
      nodes := nodes + [rpt];
    }

    /** Attaches a report to the end of the list, and drops the first one if the
        list was full. */
    method Append(report: Report)
      requires Valid()
      modifies this, nodes
      ensures Valid() && Queue() == Pushed(old(Queue()), report)
      ensures forall k | 0 <= k < |nodes| :: nodes[k] in old(nodes) || fresh(nodes[k])
    {
      var rpt := new InputReport(report);
      if inputReports == null {
        inputReports := rpt;
        nodes := [rpt];
      } else {
        var numQueued := Link(rpt);
        if numQueued > 30 {
          var _ := ReturnData(0);
        }
      }
    }

    /** The completed-transfer callback on Linux: only a report that finds the list
        empty signals a reader. */
    method ReadCallback(report: Report) returns (signalled: bool)
      requires Valid()
      modifies this, nodes
      ensures Valid() && Queue() == Pushed(old(Queue()), report)
      ensures forall k | 0 <= k < |nodes| :: nodes[k] in old(nodes) || fresh(nodes[k])
      ensures signalled <==> old(Queue()) == []
    {
      signalled := inputReports == null;
      Append(report);
    }

    /** The report callback on the Mac: every report signals. */
    method HidReportCallback(report: Report) returns (signalled: bool)
      requires Valid()
      modifies this, nodes
      ensures Valid() && Queue() == Pushed(old(Queue()), report) && signalled
      ensures forall k | 0 <= k < |nodes| :: nodes[k] in old(nodes) || fresh(nodes[k])
    {
      Append(report);
      signalled := true;
    }

    /** Empties the list when the device is closed. */
    method Drain()
      requires Valid()
      modifies this
      ensures Valid() && Queue() == [] && nodes == []
    {
      while inputReports != null
        invariant Valid()
        decreases |nodes|
      {
        var _ := ReturnData(0);
      }
    }

    /** The part of a read that finds a report waiting, or not. */
    method Poll(length: nat) returns (data: Option<Report>)
      requires Valid()
      modifies this
      ensures Valid() && nodes == old(nodes)[if old(nodes) == [] then 0 else 1..]
      ensures old(Queue()) == [] ==> data == None && Queue() == []
      ensures old(Queue()) != [] ==>
        && data == Some(Delivered(old(Queue())[0], length)) && IsStartOf(data.value, old(Queue())[0], length)
        && Queue() == old(Queue())[1..]
    {
      if inputReports != null {
        var d := ReturnData(length);
        data := Some(d);
      } else {
        data := None;
      }
    }
  }
}
