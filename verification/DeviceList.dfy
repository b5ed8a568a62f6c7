/** The linked list of open devices (hidapi/mac/hid.c: new_hid_device,
    free_hid_device, hid_device_removal_callback). */
module DeviceList {

  class HidDevice {
    const handle: int
    var disconnected: bool
    var next: HidDevice?

    constructor (handle: int)
      ensures this.handle == handle && !disconnected && next == null
    {
      this.handle := handle;
      disconnected := false;
      next := null;
    }
  }

  class Devices {
    var first: HidDevice?
    ghost var list: seq<HidDevice>

    ghost predicate Valid()
      reads this, list
    {
      && (if list == [] then first == null else first == list[0] && list[|list| - 1].next == null)
      && (forall i {:trigger list[i].next} | 0 <= i < |list| - 1 :: list[i].next == list[i + 1])
      && forall i, j | 0 <= i < j < |list| :: list[i] != list[j]
    }

    constructor ()
      ensures Valid() && list == []
    {
      first := null;
      list := [];
    }

    /** A new device goes to the end of the list. */
    method Add(handle: int) returns (dev: HidDevice)
      requires Valid()
      modifies this, list
      ensures Valid() && fresh(dev) && dev.handle == handle && !dev.disconnected
      ensures list == old(list) + [dev]
      ensures forall d | d in old(list) :: d.disconnected == old(d.disconnected)
    {
      dev := new HidDevice(handle);
      if first == null {
        first := dev;
      } else {
        var d := first;
        ghost var i := 0;
        while d.next != null
          invariant i < |list| && d == list[i]
          decreases |list| - i
        {
          d := d.next;
          i := i + 1;
        }
        d.next := dev;
      }
      list := list + [dev];
    }

    method RemoveFirst()
      requires Valid() && list != []
      modifies this
      ensures Valid() && list == old(list)[1..] && old(list)[0] !in list
    {
      first := first.next;
      list := list[1..];
    }

    method Unlink(d: HidDevice, ghost i: nat)
      requires Valid() && i + 1 < |list| && d == list[i]
      modifies this, d
      ensures Valid() && list == old(list)[..i + 1] + old(list)[i + 2..] && old(list)[i + 1] !in list
      ensures d.disconnected == old(d.disconnected)
    {
      d.next := d.next.next;
      list := list[..i + 1] + list[i + 2..];
    }

    /** Takes a device off the list; one that is not on it leaves the list as it is. */
    method Remove(dev: HidDevice)
      requires Valid()
      modifies this, list
      ensures Valid()
      ensures dev !in old(list) ==> list == old(list)
      ensures dev in old(list) ==>
        exists i :: 0 <= i < |old(list)| && old(list)[i] == dev && list == old(list)[..i] + old(list)[i + 1..]
      ensures dev !in list
      ensures forall d | d in old(list) :: d.disconnected == old(d.disconnected)
    {
      if first == dev {
        RemoveFirst();
      } else {
        var d := first;
        ghost var i := 0;
        while d != null
          invariant i <= |list| && d == (if i < |list| then list[i] else null)
          invariant dev !in list[..i] && (i < |list| ==> dev != list[i])
          decreases |list| - i
        {
          if d.next == dev {
            Unlink(d, i);
            return;
          }
          d := d.next;
          i := i + 1;
        }
      }
    }

    /** Marks every open device with the handle that went away. */
    method MarkDisconnected(handle: int)
      requires Valid()
      modifies list
      ensures Valid() && list == old(list)
      ensures forall d | d in list :: d.disconnected == (old(d.disconnected) || d.handle == handle)
    {
      var d := first;
      ghost var i := 0;
      while d != null
        invariant i <= |list| && d == (if i < |list| then list[i] else null)
        invariant Valid() && list == old(list)
        invariant forall k | 0 <= k < i :: list[k].disconnected == (old(list[k].disconnected) || list[k].handle == handle)
        invariant forall k | i <= k < |list| :: list[k].disconnected == old(list[k].disconnected)
        decreases |list| - i
      {
        if d.handle == handle {
          d.disconnected := true;
        }
        d := d.next;
        i := i + 1;
      }
    }
  }
}
