/** The device list of usbuart.c: a doubly linked list reached from an arbitrary node,
    with hot-plug, opening, closing and unplugging. */
module DeviceRegistry {
  import opened Arith
  import opened Bits

  // ---------------------------------------------------------------- specification: records in list order

  /** What is relevant of a _DeviceUsbUart: its address, its number, the three bits of iFlags, lDescriptor. */
  datatype Dev = Dev(addr: nat, devnum: nat, present: bool, busy: bool, uart: bool, descriptor: nat)

  /** The position of the first record that satisfies p, or the length. */
  function First(ds: seq<Dev>, p: Dev -> bool): (i: nat)
    ensures i <= |ds|
    ensures forall k :: 0 <= k < i ==> !p(ds[k])
    ensures i < |ds| ==> p(ds[i])
  {
    FirstFrom(ds, p, 0)
  }

  function FirstFrom(ds: seq<Dev>, p: Dev -> bool, from: nat): (i: nat)
    requires from <= |ds|
    ensures from <= i <= |ds|
    ensures forall k :: from <= k < i ==> !p(ds[k])
    ensures i < |ds| ==> p(ds[i])
    decreases |ds| - from
  {
    if from == |ds| || p(ds[from]) then from else FirstFrom(ds, p, from + 1)
  }

  function ByNumber(ds: seq<Dev>, devnum: nat): nat { First(ds, (d: Dev) => d.devnum == devnum) }

  function ByDescriptor(ds: seq<Dev>, descriptor: nat): nat { First(ds, (d: Dev) => d.descriptor == descriptor) }

  function ByAddress(ds: seq<Dev>, addr: nat): nat { First(ds, (d: Dev) => d.addr == addr) }

  ghost predicate Uses(ds: seq<Dev>, devnum: nat) {
    exists i :: 0 <= i < |ds| && ds[i].devnum == devnum
  }

  /** The least number no device has. */
  ghost predicate LeastUnused(ds: seq<Dev>, n: nat) {
    !Uses(ds, n) && forall m: nat :: m < n ==> Uses(ds, m)
  }

  /** The handle given out on opening: the 32-bit sum of address and process number. */
  function Handle(addr: nat, pid: nat): nat {
    (addr + pid) % WORD32
  }

  predicate CanOpen(ds: seq<Dev>, devnum: nat) {
    var i := ByNumber(ds, devnum);
    i < |ds| && ds[i].present && !ds[i].busy
  }

  function Opened(ds: seq<Dev>, devnum: nat, pid: nat, uart: bool): seq<Dev> {
    var i := ByNumber(ds, devnum);
    if CanOpen(ds, devnum) then ds[i := ds[i].(busy := true, uart := uart, descriptor := Handle(ds[i].addr, pid))]
    else ds
  }

  function Closed(ds: seq<Dev>, descriptor: nat): seq<Dev> {
    var i := ByDescriptor(ds, descriptor);
    if i < |ds| then ds[i := ds[i].(busy := false, uart := false, descriptor := 0)] else ds
  }

  function Plugged(ds: seq<Dev>, addr: nat, devnum: nat): seq<Dev> {
    ds + [Dev(addr, devnum, true, false, false, 0)]
  }

  /** Only a device nobody holds open leaves the list. */
  function Unplugged(ds: seq<Dev>, addr: nat): seq<Dev> {
    var i := ByAddress(ds, addr);
    if i == |ds| then ds
    else if ds[i].busy || ds[i].uart then ds[i := ds[i].(present := false)]
    else ds[..i] + ds[i + 1..]
  }

  /** What every call keeps. */
  ghost predicate Coherent(ds: seq<Dev>) {
    && (forall i, j :: 0 <= i < j < |ds| ==> ds[i].addr != ds[j].addr && ds[i].devnum != ds[j].devnum)
    && (forall i :: 0 <= i < |ds| ==> (ds[i].uart ==> ds[i].busy) && (ds[i].busy <==> ds[i].descriptor != 0))
  }

  // ---------------------------------------------------------------- the linked list

  class Device {
    const addr: nat
    var devnum: nat
    var last: Device?
    var next: Device?
    var present: bool
    var busy: bool
    var uart: bool
    var lDescriptor: nat

    ghost function Record(): Dev
      reads this
    {
      Dev(addr, devnum, present, busy, uart, lDescriptor)
    }

    /** The zeroed record of a new device. */
    constructor (addr: nat)
      ensures this.addr == addr && Record() == Dev(addr, 0, false, false, false, 0) && last == null && next == null
    {
      this.addr, devnum, last, next := addr, 0, null, null;
      present, busy, uart, lDescriptor := false, false, false, 0;
    }
  }

  class Registry {
    /** rootDevice: any node of the list. */
    var root: Device?
    /** booChangeList. */
    var changed: bool
    /** The nodes, from first to last. */
    ghost var spine: seq<Device>
    /** What they hold. */
    ghost var devs: seq<Dev>

    ghost predicate Valid()
      reads this, spine
    {
      Linked() && Recorded()
    }

    /** One well-formed doubly linked list with `root` somewhere in it. */
    ghost predicate Linked()
      reads this, spine
    {
      && (forall i, j :: 0 <= i < j < |spine| ==> spine[i] != spine[j])
      && (forall i {:trigger spine[i].last} :: 0 <= i < |spine| ==>
            spine[i].last == if i == 0 then null else spine[i - 1])
      && (forall i {:trigger spine[i].next} :: 0 <= i < |spine| ==>
            spine[i].next == if i + 1 == |spine| then null else spine[i + 1])
      && (if spine == [] then root == null else root != null && root in spine)
    }

    ghost predicate Recorded()
      reads this, spine
    {
      && |devs| == |spine|
      && forall i {:trigger spine[i]} {:trigger devs[i]} :: 0 <= i < |spine| ==> devs[i] == spine[i].Record()
    }

    constructor ()
      ensures Valid() && devs == [] && spine == []
    {
      root, changed, spine, devs := null, false, [], [];
    }

    /** "goto first". */
    method GotoFirst() returns (dev: Device)
      requires Valid() && root != null
      ensures spine != [] && dev == spine[0]
    {
      dev := root;
      ghost var i :| 0 <= i < |spine| && spine[i] == dev;
      while dev.last != null
        invariant 0 <= i < |spine| && spine[i] == dev
        decreases i
      {
        dev := dev.last;
        i := i - 1;
      }
    }

    /** SeekUartDevice. */
    method SeekUartDevice(wanted: Device?) returns (r: Device?)
      requires Valid()
      ensures r == if wanted != null && wanted in spine then wanted else null
    {
      r := null;
      if root != null {
        var dev := GotoFirst();
        ghost var i := 0;
        while true
          invariant 0 <= i < |spine| && spine[i] == dev
          invariant forall k :: 0 <= k < i ==> spine[k] != wanted
          decreases |spine| - i
        {
          if dev == wanted {
            return dev;
          } else if dev.next != null {
            dev := dev.next;
            i := i + 1;
          } else {
            break;
          }
        }
      }
    }

    /** SeekToDescriptor: the first device with that descriptor. */
    method SeekToDescriptor(lDescriptor: nat) returns (r: Device?, ghost i: nat)
      requires Valid()
      ensures i == ByDescriptor(devs, lDescriptor)
      ensures r == if ByDescriptor(devs, lDescriptor) < |spine| then spine[ByDescriptor(devs, lDescriptor)] else null
    {
      r, i := null, 0;
      if root != null {
        var dev := GotoFirst();
        while true
          invariant 0 <= i < |spine| && spine[i] == dev
          invariant forall k :: 0 <= k < i ==> spine[k].lDescriptor != lDescriptor
          decreases |spine| - i
        {
          if dev.lDescriptor == lDescriptor {
            r := dev;
            break;
          } else if dev.next != null {
            dev := dev.next;
            i := i + 1;
          } else {
            i := i + 1;
            break;
          }
        }
      }
    }

    /** The search of SetBusy. */
    method SeekToNumber(devnum: nat) returns (r: Device?, ghost i: nat)
      requires Valid()
      ensures i == ByNumber(devs, devnum)
      ensures r == if ByNumber(devs, devnum) < |spine| then spine[ByNumber(devs, devnum)] else null
    {
      r, i := null, 0;
      if root != null {
        var dev := GotoFirst();
        while true
          invariant 0 <= i < |spine| && spine[i] == dev
          invariant forall k :: 0 <= k < i ==> spine[k].devnum != devnum
          decreases |spine| - i
        {
          if dev.devnum == devnum {
            r := dev;
            break;
          } else if dev.next != null {
            dev := dev.next;
            i := i + 1;
          } else {
            i := i + 1;
            break;
          }
        }
      }
    }

    /** SetBusy with the mode bit set or cleared behind it, as ProcCmd_OPEN_UART and ProcCmd_OPEN_RAW do. */
    method Open(devnum: nat, pid: nat, uart: bool) returns (handle: nat)
      requires Valid()
      modifies spine, this`devs
      ensures Valid() && spine == old(spine) && root == old(root)
      ensures devs == Opened(old(devs), devnum, pid, uart)
      ensures handle == if CanOpen(old(devs), devnum)
                        then Handle(old(devs)[ByNumber(old(devs), devnum)].addr, pid) else 0
    {
      var dev, i := SeekToNumber(devnum);
      handle := 0;
      if dev != null {
        if dev.present {
          if !dev.busy {
            dev.busy := true;
            dev.lDescriptor := Handle(dev.addr, pid);
            dev.uart := uart;
            handle := dev.lDescriptor;
            devs := devs[i := dev.Record()];
          }
        }
      }
    }

    /** ProcCmd_CLOSE_DEVICE. */
    method Close(lDescriptor: nat) returns (ok: bool)
      requires Valid()
      modifies spine, this`devs
      ensures Valid() && spine == old(spine) && root == old(root)
      ensures devs == Closed(old(devs), lDescriptor)
      ensures ok <==> ByDescriptor(old(devs), lDescriptor) < |old(devs)|
    {
      var dev, i := SeekToDescriptor(lDescriptor);
      if dev != null {
        dev.busy := false;
        dev.uart := false;
        dev.lDescriptor := 0;
        devs := devs[i := dev.Record()];
      }
      ok := dev != null;
    }

    /** The numbering loop of Additive: every match restarts the scan from the first node with the next number. */
    method FreeNumber() returns (n: nat)
      requires Valid()
      ensures LeastUnused(devs, n)
    {
      n := 0;
      if root != null {
        var dev: Device? := root;
        while dev != null
          invariant dev != null ==> dev in spine
          invariant forall m: nat :: m < n ==> Uses(devs, m)
          invariant dev == null ==> !Uses(devs, n)
          decreases |spine| - n, dev != null
        {
          Pigeonhole(devs, n);
          dev := GotoFirst();
          ghost var i := 0;
          while dev != null
            invariant 0 <= i <= |spine| && dev == (if i < |spine| then spine[i] else null)
            invariant forall k :: 0 <= k < i ==> spine[k].devnum != n
            decreases |spine| - i
          {
            if dev.devnum == n {
              assert devs[i].devnum == n;
              break;
            }
            dev := dev.next;
            i := i + 1;
          }
          if dev != null {
            n := n + 1;
            Pigeonhole(devs, n);
          }
        }
      }
    }

    /** Additive, for a device at `addr` if it can be allocated; unknown devices and failed allocations
        are rejected without a trace. */
    method Additive(known: bool, memory: bool, addr: nat) returns (dev: Device?)
      requires Valid()
      modifies this, spine
      ensures Valid()
      ensures !known || !memory ==> dev == null && spine == old(spine) && devs == old(devs) && changed == old(changed)
      ensures known && memory ==>
        && dev != null && fresh(dev) && root == dev && changed
        && spine == old(spine) + [dev]
        && LeastUnused(old(devs), dev.devnum) && devs == Plugged(old(devs), addr, dev.devnum)
    {
      if !known || !memory {
        return null;
      }
      var n := FreeNumber();
      dev := Enlist(addr, n);
      changed := true;
    }

    method Enlist(addr: nat, n: nat) returns (dev: Device)
      requires Valid()
      modifies this`root, this`spine, this`devs, spine
      ensures Valid() && fresh(dev) && dev.devnum == n && root == dev
      ensures spine == old(spine) + [dev] && devs == Plugged(old(devs), addr, n)
    {
      dev := new Device(addr);
      Append(dev);
      dev.devnum := n;
      dev.present := true;
      devs := devs + [dev.Record()];
    }

    method Append(dev: Device)
      requires Linked() && dev !in spine
      modifies this`root, this`spine, spine`next, dev`last, dev`next
      ensures Linked() && root == dev && spine == old(spine) + [dev]
    {
      if root != null {
        GotoEnd();
        root.next := dev;
      }
      dev.last := root;
      dev.next := null;
      root := dev;
      spine := spine + [dev];
    }

    /** "goto ended", moving rootDevice itself. */
    method GotoEnd()
      requires Linked() && root != null
      modifies this`root
      ensures Linked() && spine != [] && root == spine[|spine| - 1]
    {
      ghost var i :| 0 <= i < |spine| && spine[i] == root;
      while root.next != null
        invariant 0 <= i < |spine| && spine[i] == root
        decreases |spine| - i
      {
        root := root.next;
        i := i + 1;
      }
    }

    /** Disconnected, which the USB stack calls with a device that is in the list. */
    method Disconnected(dev: Device)
      requires Valid() && dev in spine && Coherent(devs)
      modifies this, spine
      ensures Valid() && changed
      ensures devs == Unplugged(old(devs), dev.addr)
      ensures
        var i := ByAddress(old(devs), dev.addr);
        i < |old(spine)| && spine == if old(dev.busy) || old(dev.uart) then old(spine) else old(spine)[..i] + old(spine)[i + 1..]
    {
      ghost var i :| 0 <= i < |spine| && spine[i] == dev;
      UnpluggedAt(devs, i, dev.addr);
      Detach(dev, i);
    }

    method Detach(dev: Device, ghost i: nat)
      requires Valid() && i < |spine| && spine[i] == dev
      modifies this, spine
      ensures Valid() && changed
      ensures if old(dev.busy) || old(dev.uart)
              then spine == old(spine) && devs == old(devs)[i := old(devs)[i].(present := false)]
              else spine == old(spine)[..i] + old(spine)[i + 1..] && devs == old(devs)[..i] + old(devs)[i + 1..]
    {
      changed := true;
      MarkAbsent(dev, i);
      if !dev.busy && !dev.uart {
        Remove(dev, i);
      }
    }

    method MarkAbsent(dev: Device, ghost i: nat)
      requires Valid() && i < |spine| && spine[i] == dev
      modifies this`devs, dev`present
      ensures Valid() && devs == old(devs)[i := old(devs)[i].(present := false)]
    {
      dev.present := false;
      devs := devs[i := devs[i].(present := false)];
    }

    method Remove(dev: Device, ghost i: nat)
      requires Valid() && i < |spine| && spine[i] == dev
      modifies this`root, this`spine, this`devs, spine`last, spine`next
      ensures Valid() && spine == old(spine)[..i] + old(spine)[i + 1..]
      ensures devs == old(devs)[..i] + old(devs)[i + 1..] && dev !in spine
    {
      Unlink(dev, i);
      devs := devs[..i] + devs[i + 1..];
    }

    /** "delete of list": rootDevice moves to a neighbour. */
    method Unlink(dev: Device, ghost i: nat)
      requires Linked() && i < |spine| && spine[i] == dev
      modifies this`root, this`spine, spine`last, spine`next
      ensures Linked() && spine == old(spine)[..i] + old(spine)[i + 1..]
    {
      var last, next := dev.last, dev.next;
      if last != null {
        last.next := next;
        root := last;
      }
      if next != null {
        next.last := last;
        root := next;
      }
      if next == null && last == null {
        root := null;
      }
      spine := spine[..i] + spine[i + 1..];
    }

    /** USBUART_CMD_FIRST_DEVICE_USBUART. */
    method FirstDevice() returns (dev: Device?)
      requires Valid()
      ensures dev == if spine == [] then null else spine[0]
    {
      dev := null;
      if root != null {
        dev := GotoFirst();
      }
    }

    /** USBUART_CMD_NEXT_DEVICE_USBUART behind `found`. */
    method NextDevice(found: Device?) returns (dev: Device?)
      requires Valid()
      ensures found == null || found !in spine ==> dev == null
      ensures forall i {:trigger spine[i]} :: 0 <= i < |spine| && found == spine[i] ==>
        dev == if i + 1 < |spine| then spine[i + 1] else null
    {
      dev := null;
      if root != null {
        if found != null {
          var r := SeekUartDevice(found);
          if r != null && r.next != null {
            dev := r.next;
          }
        }
      }
    }

    /** A client that asks FIRST once and NEXT until it fails sees every device exactly once, in list order. */
    method Enumerate() returns (visited: seq<Device>)
      requires Valid()
      ensures visited == spine
    {
      visited := [];
      var dev := FirstDevice();
      ghost var i := 0;
      while dev != null
        invariant i <= |spine| && visited == spine[..i]
        invariant dev == if i < |spine| then spine[i] else null
        decreases |spine| - i
      {
        assert spine[..i + 1] == spine[..i] + [spine[i]];
        visited := visited + [dev];
        dev := NextDevice(dev);
        i := i + 1;
      }
    }
  }

  lemma AddressFinds(ds: seq<Dev>, i: nat)
    requires Coherent(ds) && i < |ds|
    ensures ByAddress(ds, ds[i].addr) == i
  {
  }

  lemma UnpluggedAt(ds: seq<Dev>, i: nat, addr: nat)
    requires Coherent(ds) && i < |ds| && ds[i].addr == addr
    ensures ByAddress(ds, addr) == i
    ensures Unplugged(ds, addr) ==
      if ds[i].busy || ds[i].uart then ds[i := ds[i].(present := false)] else ds[..i] + ds[i + 1..]
  {
    AddressFinds(ds, i);
  }

  // ---------------------------------------------------------------- numbers

  ghost function Numbers(ds: seq<Dev>): (s: set<nat>)
    ensures forall n :: n in s <==> Uses(ds, n)
    ensures |s| <= |ds|
  {
    if ds == [] then {}
    else
      var rest := ds[..|ds| - 1];
      assert forall n: nat :: Uses(ds, n) <==> Uses(rest, n) || n == ds[|ds| - 1].devnum by {
        forall n: nat ensures Uses(ds, n) <==> Uses(rest, n) || n == ds[|ds| - 1].devnum {
          if Uses(rest, n) {
            var i :| 0 <= i < |rest| && rest[i].devnum == n;
            assert ds[i].devnum == n;
          }
          if Uses(ds, n) && n != ds[|ds| - 1].devnum {
            var i :| 0 <= i < |ds| && ds[i].devnum == n;
            assert rest[i].devnum == n;
          }
          if n == ds[|ds| - 1].devnum {
            assert ds[|ds| - 1].devnum == n;
          }
        }
      }
      Numbers(rest) + {ds[|ds| - 1].devnum}
  }

  ghost function Below(n: nat): (s: set<nat>)
    ensures |s| == n && forall m: nat :: m in s <==> m < n
  {
    if n == 0 then {} else Below(n - 1) + {n - 1}
  }

  /** n different numbers need n devices: the bound that ends the restarting scan. */
  lemma Pigeonhole(ds: seq<Dev>, n: nat)
    requires forall m: nat :: m < n ==> Uses(ds, m)
    ensures n <= |ds|
  {
    SubsetSize(Below(n), Numbers(ds));
  }

  lemma LeastUnusedFrom(ds: seq<Dev>, n: nat) returns (r: nat)
    requires forall m: nat :: m < n ==> Uses(ds, m)
    ensures LeastUnused(ds, r)
    decreases |ds| - n
  {
    Pigeonhole(ds, n);
    if Uses(ds, n) {
      Pigeonhole(ds, n + 1);
      r := LeastUnusedFrom(ds, n + 1);
    } else {
      r := n;
    }
  }

  ghost function NewNumber(ds: seq<Dev>): (n: nat)
    ensures LeastUnused(ds, n)
  {
    assert exists n: nat :: LeastUnused(ds, n) by {
      var r := LeastUnusedFrom(ds, 0);
    }
    var n: nat :| LeastUnused(ds, n);
    n
  }

  // ---------------------------------------------------------------- runs of hot-plug, open, close and unplug

  datatype Op =
    | Plug(addr: nat)
    | Unplug(addr: nat)
    | OpenDevice(devnum: nat, pid: nat, uart: bool)
    | CloseDevice(descriptor: nat)

  /** The kernel hands out addresses not in use and reports the removal of a device once;
      no process number makes a handle zero. */
  ghost predicate Allowed(ds: seq<Dev>, op: Op) {
    match op
    case Plug(addr) => ByAddress(ds, addr) == |ds|
    case Unplug(addr) => ByAddress(ds, addr) < |ds| && ds[ByAddress(ds, addr)].present
    case OpenDevice(devnum, pid, _) => CanOpen(ds, devnum) ==> Handle(ds[ByNumber(ds, devnum)].addr, pid) != 0
    case CloseDevice(_) => true
  }

  ghost function Step(ds: seq<Dev>, op: Op): seq<Dev> {
    match op
    case Plug(addr) => Plugged(ds, addr, NewNumber(ds))
    case Unplug(addr) => Unplugged(ds, addr)
    case OpenDevice(devnum, pid, uart) => Opened(ds, devnum, pid, uart)
    case CloseDevice(descriptor) => Closed(ds, descriptor)
  }

  ghost predicate Possible(ds: seq<Dev>, ops: seq<Op>)
    decreases |ops|
  {
    ops == [] || (Allowed(ds, ops[0]) && Possible(Step(ds, ops[0]), ops[1..]))
  }

  ghost function Run(ds: seq<Dev>, ops: seq<Op>): seq<Dev>
    decreases |ops|
  {
    if ops == [] then ds else Run(Step(ds, ops[0]), ops[1..])
  }

  lemma PluggedCoherent(ds: seq<Dev>, addr: nat, devnum: nat)
    requires Coherent(ds) && ByAddress(ds, addr) == |ds| && LeastUnused(ds, devnum)
    ensures Coherent(Plugged(ds, addr, devnum))
  {
    forall i | 0 <= i < |ds|
      ensures ds[i].devnum != devnum
    {
      assert Uses(ds, ds[i].devnum);
    }
  }

  /** Coherence survives the removal of a record, and does not depend on the presence bits. */
  lemma RemovedCoherent(ds: seq<Dev>, i: nat)
    requires Coherent(ds) && i < |ds|
    ensures Coherent(ds[..i] + ds[i + 1..])
  {
    var r := ds[..i] + ds[i + 1..];
    forall j, k | 0 <= j < k < |r|
      ensures r[j].addr != r[k].addr && r[j].devnum != r[k].devnum
    {
      var j', k' := if j < i then j else j + 1, if k < i then k else k + 1;
      assert r[j] == ds[j'] && r[k] == ds[k'];
    }
    forall k | 0 <= k < |r|
      ensures (r[k].uart ==> r[k].busy) && (r[k].busy <==> r[k].descriptor != 0)
    {
      assert r[k] == ds[if k < i then k else k + 1];
    }
  }

  lemma UnpluggedCoherent(ds: seq<Dev>, addr: nat)
    requires Coherent(ds)
    ensures Coherent(Unplugged(ds, addr))
  {
    var i := ByAddress(ds, addr);
    if i < |ds| {
      if !ds[i].busy && !ds[i].uart {
        RemovedCoherent(ds, i);
      } else {
        assert Coherent(ds[i := ds[i].(present := false)]);
      }
    }
  }

  lemma {:induction false} StepCoherent(ds: seq<Dev>, op: Op)
    requires Coherent(ds) && Allowed(ds, op)
    ensures Coherent(Step(ds, op))
  {
    match op {
      case Plug(addr) =>
        PluggedCoherent(ds, addr, NewNumber(ds));
      case Unplug(addr) =>
        UnpluggedCoherent(ds, addr);
      case OpenDevice(devnum, pid, uart) =>
        if CanOpen(ds, devnum) {
          OpenCoherentExactly(ds, devnum, pid, uart);
        }
      case CloseDevice(descriptor) =>
        ClosedCoherent(ds, descriptor);
    }
  }

  lemma ClosedCoherent(ds: seq<Dev>, descriptor: nat)
    requires Coherent(ds)
    ensures Coherent(Closed(ds, descriptor))
  {
  }

  /** In every reachable state UART mode implies an open device, a device is open exactly if it has a descriptor,
      and addresses and numbers are distinct. */
  lemma {:induction false} RunCoherent(ds: seq<Dev>, ops: seq<Op>)
    requires Coherent(ds) && Possible(ds, ops)
    ensures Coherent(Run(ds, ops))
    decreases |ops|
  {
    if ops != [] {
      StepCoherent(ds, ops[0]);
      RunCoherent(Step(ds, ops[0]), ops[1..]);
    }
  }

  /** The one thing opening can break: a sum of address and process number that is 0 modulo 2^32. */
  lemma OpenCoherentExactly(ds: seq<Dev>, devnum: nat, pid: nat, uart: bool)
    requires Coherent(ds) && CanOpen(ds, devnum)
    ensures Coherent(Opened(ds, devnum, pid, uart)) <==> Handle(ds[ByNumber(ds, devnum)].addr, pid) != 0
  {
    var i := ByNumber(ds, devnum);
    var r := Opened(ds, devnum, pid, uart);
    assert r[i].busy && r[i].descriptor == Handle(ds[i].addr, pid);
  }

  /** The device at address a is held open with descriptor h. */
  ghost predicate Held(ds: seq<Dev>, a: nat, h: nat, devnum: nat, uart: bool) {
    var i := ByAddress(ds, a);
    i < |ds| && ds[i].busy && ds[i].descriptor == h && ds[i].devnum == devnum && ds[i].uart == uart
  }

  /** Where the i-th device is after a step that does not remove it. */
  ghost function Moved(ds: seq<Dev>, op: Op, i: nat): nat
    requires i < |ds|
  {
    if op.Unplug? && ByAddress(ds, op.addr) < i && !ds[ByAddress(ds, op.addr)].busy then i - 1 else i
  }

  /** Its address and number never change; an open one stays as it is until its own close, an absent one absent. */
  ghost predicate Followed(ds: seq<Dev>, op: Op, i: nat)
    requires i < |ds|
  {
    var r, j := Step(ds, op), Moved(ds, op, i);
    && j < |r| && r[j].addr == ds[i].addr && r[j].devnum == ds[i].devnum
    && (!ds[i].present ==> !r[j].present)
    && (ds[i].busy && op != CloseDevice(ds[i].descriptor) ==>
          r[j].busy && r[j].uart == ds[i].uart && r[j].descriptor == ds[i].descriptor)
  }

  lemma FollowUnplug(ds: seq<Dev>, addr: nat, i: nat)
    requires Coherent(ds) && Allowed(ds, Unplug(addr)) && i < |ds| && (ds[i].busy || !ds[i].present)
    ensures Followed(ds, Unplug(addr), i)
  {
    var k := ByAddress(ds, addr);
    if !ds[k].busy {
      assert k != i;
      assert Unplugged(ds, addr) == ds[..k] + ds[k + 1..];
    }
  }

  lemma FollowOpen(ds: seq<Dev>, op: Op, i: nat)
    requires op.OpenDevice? && i < |ds| && (ds[i].busy || !ds[i].present)
    ensures Followed(ds, op, i)
  {
  }

  lemma FollowClose(ds: seq<Dev>, descriptor: nat, i: nat)
    requires i < |ds| && (ds[i].busy || !ds[i].present)
    ensures Followed(ds, CloseDevice(descriptor), i)
  {
  }

  lemma Follow(ds: seq<Dev>, op: Op, i: nat)
    requires Coherent(ds) && Allowed(ds, op) && i < |ds| && (ds[i].busy || !ds[i].present)
    ensures Followed(ds, op, i) && ByAddress(Step(ds, op), ds[i].addr) == Moved(ds, op, i)
  {
    match op {
      case Plug(_) =>
      case Unplug(addr) => FollowUnplug(ds, addr, i);
      case OpenDevice(_, _, _) => FollowOpen(ds, op, i);
      case CloseDevice(descriptor) => FollowClose(ds, descriptor, i);
    }
    StepCoherent(ds, op);
    AddressFinds(Step(ds, op), Moved(ds, op, i));
  }

  lemma OpenedKeepsPlace(ds: seq<Dev>, devnum: nat, pid: nat, uart: bool)
    requires Coherent(ds) && CanOpen(ds, devnum)
    ensures
      var i := ByNumber(ds, devnum);
      ByAddress(Opened(ds, devnum, pid, uart), ds[i].addr) == i
  {
    var i, r := ByNumber(ds, devnum), Opened(ds, devnum, pid, uart);
    forall j | 0 <= j < i
      ensures r[j].addr != ds[i].addr
    {
      assert r[j] == ds[j];
    }
    assert r[i].addr == ds[i].addr;
  }

  /** Opening makes the device held, and closing through a handle that leads back to it sets it free again. */
  lemma OpenHoldsCloseFrees(ds: seq<Dev>, devnum: nat, pid: nat, uart: bool)
    requires Coherent(ds) && CanOpen(ds, devnum)
    ensures
      var d := ds[ByNumber(ds, devnum)];
      var h, opened' := Handle(d.addr, pid), Opened(ds, devnum, pid, uart);
      && Held(opened', d.addr, h, devnum, uart)
      && (h != 0 && ByDescriptor(opened', h) == ByNumber(ds, devnum) ==> Closed(opened', h) == ds)
  {
    var i := ByNumber(ds, devnum);
    var r := Opened(ds, devnum, pid, uart);
    OpenedKeepsPlace(ds, devnum, pid, uart);
    assert ds[i] == ds[i].(busy := false, uart := false, descriptor := 0);
  }

  lemma {:induction false} HeldStep(ds: seq<Dev>, op: Op, a: nat, h: nat, devnum: nat, uart: bool)
    requires Coherent(ds) && Allowed(ds, op) && Held(ds, a, h, devnum, uart) && op != CloseDevice(h)
    ensures Held(Step(ds, op), a, h, devnum, uart)
  {
    Follow(ds, op, ByAddress(ds, a));
  }

  /** Between open and close: whatever else is plugged, unplugged, opened or closed, the device stays in the list,
      keeps number, mode and handle, and cannot be opened a second time. */
  lemma {:induction false} HeldUntilClosed(ds: seq<Dev>, ops: seq<Op>, a: nat, h: nat, devnum: nat, uart: bool)
    requires Coherent(ds) && Possible(ds, ops) && Held(ds, a, h, devnum, uart)
    requires CloseDevice(h) !in ops
    ensures Held(Run(ds, ops), a, h, devnum, uart)
    ensures !CanOpen(Run(ds, ops), devnum)
    decreases |ops|
  {
    if ops == [] {
      var i := ByAddress(ds, a);
      NumberFinds(ds, i);
    } else {
      HeldStep(ds, ops[0], a, h, devnum, uart);
      StepCoherent(ds, ops[0]);
      HeldUntilClosed(Step(ds, ops[0]), ops[1..], a, h, devnum, uart);
    }
  }

  lemma NumberFinds(ds: seq<Dev>, i: nat)
    requires Coherent(ds) && i < |ds|
    ensures ByNumber(ds, ds[i].devnum) == i
  {
  }

  // ---------------------------------------------------------------- does a handle lead back to its device?

  /** The handle h finds the device at address a. */
  ghost predicate Resolves(ds: seq<Dev>, a: nat, h: nat) {
    ByDescriptor(ds, h) == ByAddress(ds, a) < |ds|
  }

  /** A device in front of the i-th has the descriptor h too. */
  ghost predicate Shadowed(ds: seq<Dev>, i: nat, h: nat) {
    exists j :: 0 <= j < i && j < |ds| && ds[j].descriptor == h
  }

  lemma ResolvesUnlessShadowed(ds: seq<Dev>, a: nat, h: nat)
    requires ByAddress(ds, a) < |ds| && ds[ByAddress(ds, a)].descriptor == h
    ensures Resolves(ds, a, h) <==> !Shadowed(ds, ByAddress(ds, a), h)
  {
  }

  /** The handle an open gives out leads to the device opened, exactly if no device in front of it
      already has that sum for its descriptor. */
  lemma OpenResolvesExactly(ds: seq<Dev>, devnum: nat, pid: nat, uart: bool)
    requires Coherent(ds) && CanOpen(ds, devnum)
    ensures
      var i := ByNumber(ds, devnum);
      var h := Handle(ds[i].addr, pid);
      Resolves(Opened(ds, devnum, pid, uart), ds[i].addr, h) <==> forall j :: 0 <= j < i ==> ds[j].descriptor != h
  {
    var i, r := ByNumber(ds, devnum), Opened(ds, devnum, pid, uart);
    var h := Handle(ds[i].addr, pid);
    OpenedKeepsPlace(ds, devnum, pid, uart);
    ResolvesUnlessShadowed(r, ds[i].addr, h);
    assert forall j :: 0 <= j < i ==> r[j] == ds[j];
  }

  /** The step opens a device in front of the one at address a, and the sum comes to h. */
  ghost predicate Steals(ds: seq<Dev>, op: Op, a: nat, h: nat) {
    op.OpenDevice? && CanOpen(ds, op.devnum) && ByNumber(ds, op.devnum) < ByAddress(ds, a)
    && Handle(ds[ByNumber(ds, op.devnum)].addr, op.pid) == h
  }

  ghost predicate Stolen(ds: seq<Dev>, ops: seq<Op>, a: nat, h: nat)
    decreases |ops|
  {
    ops != [] && (Steals(ds, ops[0], a, h) || Stolen(Step(ds, ops[0]), ops[1..], a, h))
  }

  lemma ShadowRemoved(ds: seq<Dev>, k: nat, i: nat, h: nat)
    requires k < |ds| && i < |ds| && k != i && ds[k].descriptor != h
    ensures Shadowed(ds[..k] + ds[k + 1..], if k < i then i - 1 else i, h) <==> Shadowed(ds, i, h)
  {
    var r, i' := ds[..k] + ds[k + 1..], if k < i then i - 1 else i;
    if Shadowed(ds, i, h) {
      var j :| 0 <= j < i && ds[j].descriptor == h;
      assert r[if k < j then j - 1 else j] == ds[j];
    }
    if Shadowed(r, i', h) {
      var j :| 0 <= j < i' && r[j].descriptor == h;
      assert ds[if k <= j then j + 1 else j] == r[j];
    }
  }

  lemma ShadowUnplug(ds: seq<Dev>, addr: nat, i: nat, h: nat)
    requires Coherent(ds) && Allowed(ds, Unplug(addr)) && i < |ds| && ds[i].busy && h != 0
    ensures Shadowed(Step(ds, Unplug(addr)), Moved(ds, Unplug(addr), i), h) <==> Shadowed(ds, i, h)
  {
    var k, r := ByAddress(ds, addr), Step(ds, Unplug(addr));
    if !ds[k].busy {
      ShadowRemoved(ds, k, i, h);
    } else {
      assert forall j :: 0 <= j < |ds| ==> r[j].descriptor == ds[j].descriptor;
    }
  }

  lemma ShadowOpen(ds: seq<Dev>, op: Op, a: nat, h: nat)
    requires Coherent(ds) && op.OpenDevice? && ByAddress(ds, a) < |ds| && ds[ByAddress(ds, a)].busy && h != 0
    ensures
      var i := ByAddress(ds, a);
      Shadowed(Step(ds, op), i, h) <==> Shadowed(ds, i, h) || Steals(ds, op, a, h)
  {
    var i, k, r := ByAddress(ds, a), ByNumber(ds, op.devnum), Step(ds, op);
    if CanOpen(ds, op.devnum) {
      assert ds[k].descriptor == 0 && r[k].descriptor == Handle(ds[k].addr, op.pid);
      assert forall j :: 0 <= j < |ds| && j != k ==> r[j] == ds[j];
    }
  }

  lemma ShadowClose(ds: seq<Dev>, descriptor: nat, i: nat, h: nat)
    requires i < |ds| && h != 0 && descriptor != h
    ensures Shadowed(Step(ds, CloseDevice(descriptor)), i, h) <==> Shadowed(ds, i, h)
  {
    var k, r := ByDescriptor(ds, descriptor), Step(ds, CloseDevice(descriptor));
    assert forall j :: 0 <= j < |ds| && j != k ==> r[j] == ds[j];
    assert k < |ds| ==> ds[k].descriptor == descriptor && r[k].descriptor == 0;
  }

  lemma ShadowStep(ds: seq<Dev>, op: Op, a: nat, h: nat)
    requires Coherent(ds) && Allowed(ds, op) && op != CloseDevice(h)
    requires ByAddress(ds, a) < |ds| && ds[ByAddress(ds, a)].busy && ds[ByAddress(ds, a)].descriptor == h
    ensures
      var i := ByAddress(ds, a);
      Shadowed(Step(ds, op), Moved(ds, op, i), h) <==> Shadowed(ds, i, h) || Steals(ds, op, a, h)
  {
    var i := ByAddress(ds, a);
    match op {
      case Plug(addr) =>
        assert forall j :: 0 <= j < i ==> Step(ds, op)[j] == ds[j];
      case Unplug(addr) => ShadowUnplug(ds, addr, i, h);
      case OpenDevice(_, _, _) => ShadowOpen(ds, op, a, h);
      case CloseDevice(descriptor) => ShadowClose(ds, descriptor, i, h);
    }
  }

  lemma ResolvesStep(ds: seq<Dev>, op: Op, a: nat, h: nat, devnum: nat, uart: bool)
    requires Coherent(ds) && Allowed(ds, op) && Held(ds, a, h, devnum, uart) && op != CloseDevice(h)
    ensures Resolves(Step(ds, op), a, h) <==> Resolves(ds, a, h) && !Steals(ds, op, a, h)
  {
    var i := ByAddress(ds, a);
    Follow(ds, op, i);
    ShadowStep(ds, op, a, h);
    ResolvesUnlessShadowed(ds, a, h);
    ResolvesUnlessShadowed(Step(ds, op), a, h);
  }

  /** Between open and close, over any run: the handle still finds its device exactly if it did at the start
      and no device in front of it has been opened with the same sum since. */
  lemma {:induction false} HandleFindsUntilStolen(ds: seq<Dev>, ops: seq<Op>, a: nat, h: nat, devnum: nat, uart: bool)
    requires Coherent(ds) && Possible(ds, ops) && Held(ds, a, h, devnum, uart) && CloseDevice(h) !in ops
    ensures Resolves(Run(ds, ops), a, h) <==> Resolves(ds, a, h) && !Stolen(ds, ops, a, h)
    decreases |ops|
  {
    if ops != [] {
      StepCoherent(ds, ops[0]);
      HeldStep(ds, ops[0], a, h, devnum, uart);
      ResolvesStep(ds, ops[0], a, h, devnum, uart);
      HandleFindsUntilStolen(Step(ds, ops[0]), ops[1..], a, h, devnum, uart);
    }
  }

  /** One process never gets the same sum for two addresses. */
  lemma HandlesOfOneProcess(addr: nat, addr': nat, pid: nat)
    requires addr < WORD32 && addr' < WORD32 && Handle(addr, pid) == Handle(addr', pid)
    ensures addr == addr'
  {
    var q, q' := (addr + pid) / WORD32, (addr' + pid) / WORD32;
    assert addr + pid == q * WORD32 + Handle(addr, pid);
    assert addr' + pid == q' * WORD32 + Handle(addr', pid);
    assert addr - addr' == (q - q') * WORD32;
  }

  /** All open devices were opened by one process, and addresses are 32-bit words. */
  ghost predicate OneOwner(ds: seq<Dev>, pid: nat) {
    forall i :: 0 <= i < |ds| ==> ds[i].addr < WORD32 && (ds[i].busy ==> ds[i].descriptor == Handle(ds[i].addr, pid))
  }

  predicate ByOwner(op: Op, pid: nat) {
    && (op.Plug? ==> op.addr < WORD32)
    && (op.OpenDevice? ==> op.pid == pid)
  }

  lemma OneOwnerStep(ds: seq<Dev>, op: Op, pid: nat)
    requires OneOwner(ds, pid) && ByOwner(op, pid)
    ensures OneOwner(Step(ds, op), pid)
  {
  }

  lemma OneOwnerResolves(ds: seq<Dev>, pid: nat, i: nat)
    requires Coherent(ds) && OneOwner(ds, pid) && i < |ds| && ds[i].busy
    ensures Resolves(ds, ds[i].addr, ds[i].descriptor)
  {
    AddressFinds(ds, i);
    forall j | 0 <= j < i
      ensures ds[j].descriptor != ds[i].descriptor
    {
      if ds[j].descriptor == ds[i].descriptor {
        HandlesOfOneProcess(ds[j].addr, ds[i].addr, pid);
      }
    }
  }

  ghost predicate AllResolve(ds: seq<Dev>) {
    forall i :: 0 <= i < |ds| && ds[i].busy ==> Resolves(ds, ds[i].addr, ds[i].descriptor)
  }

  /** While one process opens all devices, in every reachable state every handle leads back to its own device. */
  lemma {:induction false} HandlesOfOneProcessResolve(ds: seq<Dev>, ops: seq<Op>, pid: nat)
    requires Coherent(ds) && OneOwner(ds, pid) && Possible(ds, ops) && forall op :: op in ops ==> ByOwner(op, pid)
    ensures AllResolve(Run(ds, ops))
    decreases |ops|
  {
    if ops == [] {
      forall i | 0 <= i < |ds| && ds[i].busy
        ensures Resolves(ds, ds[i].addr, ds[i].descriptor)
      {
        OneOwnerResolves(ds, pid, i);
      }
    } else {
      StepCoherent(ds, ops[0]);
      OneOwnerStep(ds, ops[0], pid);
      HandlesOfOneProcessResolve(Step(ds, ops[0]), ops[1..], pid);
    }
  }

  lemma NewNumberIs(ds: seq<Dev>, n: nat)
    requires LeastUnused(ds, n)
    ensures NewNumber(ds) == n
  {
  }

  const FIRST: Dev := Dev(0x10000, 0, true, false, false, 0)
  const SECOND: Dev := Dev(0x20000, 1, true, false, false, 0)
  const CLASH: seq<Op> := [Plug(0x10000), Plug(0x20000), OpenDevice(0, 0x10010, true), OpenDevice(1, 0x10, true)]

  lemma PlugTwo()
    ensures Possible([], CLASH) <==> Possible([FIRST, SECOND], CLASH[2..])
    ensures Run([], CLASH) == Run([FIRST, SECOND], CLASH[2..])
  {
    NewNumberIs([], 0);
    assert Step([], CLASH[0]) == [FIRST];
    assert FIRST.devnum == 0 && Uses([FIRST], 0) by {
      assert [FIRST][0].devnum == 0;
    }
    NewNumberIs([FIRST], 1);
    assert Step([FIRST], CLASH[1]) == [FIRST, SECOND];
    assert CLASH[1..][1..] == CLASH[2..];
  }

  lemma OpenTwo()
    ensures Possible([FIRST, SECOND], CLASH[2..])
    ensures Run([FIRST, SECOND], CLASH[2..]) ==
      [FIRST.(busy := true, uart := true, descriptor := 0x20010), SECOND.(busy := true, uart := true, descriptor := 0x20010)]
  {
    var ds := [FIRST, SECOND];
    assert ds[0].devnum == 0;
    assert ByNumber(ds, 0) == 0;
    var r := Step(ds, CLASH[2]);
    assert r == [FIRST.(busy := true, uart := true, descriptor := 0x20010), SECOND];
    assert r[0].devnum == 0 && r[1].devnum == 1;
    assert ByNumber(r, 1) == 1;
    var r' := Step(r, CLASH[3]);
    assert CLASH[2..][1..] == [CLASH[3]] && [CLASH[3]][1..] == [];
    assert Run(r', []) == r';
    assert Run(r, [CLASH[3]]) == r';
  }

  /** Two processes can get the same sum for two devices. The second one's handle then finds the first one's device:
      closing it frees that device, and leaves the second one's open. */
  lemma HandlesOfTwoProcessesClash()
    ensures Possible([], CLASH)
    ensures
      var r := Run([], CLASH);
      && |r| == 2 && r[0].busy && r[1].busy && r[0].descriptor == r[1].descriptor == Handle(0x20000, 0x10)
      && !Resolves(r, 0x20000, r[1].descriptor)
      && Closed(r, r[1].descriptor) == [FIRST, r[1]]
  {
    PlugTwo();
    OpenTwo();
    var r := Run([], CLASH);
    assert ByDescriptor(r, 0x20010) == 0 && ByAddress(r, 0x20000) == 1;
  }

  /** The handle 0 finds an idle device, but closing through it changes nothing. */
  lemma CloseZeroChangesNothing(ds: seq<Dev>)
    requires Coherent(ds)
    ensures Closed(ds, 0) == ds
  {
  }

  /** An unplugged device that was still open never leaves the list any more, closed or not: its number stays taken. */
  lemma {:induction false} UnpluggedWhileOpenStays(ds: seq<Dev>, ops: seq<Op>, a: nat)
    requires Coherent(ds) && Possible(ds, ops)
    requires ByAddress(ds, a) < |ds| && !ds[ByAddress(ds, a)].present
    ensures
      var r, i := Run(ds, ops), ByAddress(Run(ds, ops), a);
      i < |r| && !r[i].present && r[i].devnum == ds[ByAddress(ds, a)].devnum
    decreases |ops|
  {
    if ops != [] {
      StepCoherent(ds, ops[0]);
      Follow(ds, ops[0], ByAddress(ds, a));
      UnpluggedWhileOpenStays(Step(ds, ops[0]), ops[1..], a);
    }
  }

  lemma AbsentIdleStep(ds: seq<Dev>, op: Op, a: nat)
    requires Coherent(ds) && Allowed(ds, op)
    requires
      var i := ByAddress(ds, a);
      i < |ds| && !ds[i].present && !ds[i].busy
    ensures
      var r, j := Step(ds, op), ByAddress(Step(ds, op), a);
      j < |r| && !r[j].present && !r[j].busy
  {
    var i := ByAddress(ds, a);
    Follow(ds, op, i);
    if op.Unplug? {
      assert ByAddress(ds, op.addr) != i;
    }
  }

  /** A listed device that is neither present nor open is never open again, over any run. */
  lemma {:induction false} AbsentNeverOpened(ds: seq<Dev>, ops: seq<Op>, a: nat)
    requires Coherent(ds) && Possible(ds, ops)
    requires
      var i := ByAddress(ds, a);
      i < |ds| && !ds[i].present && !ds[i].busy
    ensures
      var r, j := Run(ds, ops), ByAddress(Run(ds, ops), a);
      j < |r| && !r[j].present && !r[j].busy
    decreases |ops|
  {
    if ops != [] {
      StepCoherent(ds, ops[0]);
      AbsentIdleStep(ds, ops[0], a);
      AbsentNeverOpened(Step(ds, ops[0]), ops[1..], a);
    }
  }

  // ---------------------------------------------------------------- what each operation does to the devices

  /** A device can be opened exactly if it is listed under the number, present and not open. */
  lemma OpenSucceedsExactly(ds: seq<Dev>, devnum: nat)
    requires Coherent(ds)
    ensures CanOpen(ds, devnum) <==> exists d :: d in ds && d.devnum == devnum && d.present && !d.busy
  {
    if d :| d in ds && d.devnum == devnum && d.present && !d.busy {
      var i :| 0 <= i < |ds| && ds[i] == d;
      NumberFinds(ds, i);
    }
    if CanOpen(ds, devnum) {
      assert ds[ByNumber(ds, devnum)] in ds;
    }
  }

  /** A device just plugged in can be opened, and unplugging it again restores the list. */
  lemma PlugUnplugRestores(ds: seq<Dev>, addr: nat, devnum: nat)
    requires Coherent(ds) && ByAddress(ds, addr) == |ds| && LeastUnused(ds, devnum)
    ensures CanOpen(Plugged(ds, addr, devnum), devnum)
    ensures Unplugged(Plugged(ds, addr, devnum), addr) == ds
  {
    var r := Plugged(ds, addr, devnum);
    PluggedCoherent(ds, addr, devnum);
    NumberFinds(r, |ds|);
    UnpluggedAt(r, |ds|, addr);
    assert r[..|ds|] + r[|ds| + 1..] == ds;
  }

  /** Unplugging leaves all other devices as they are; the device itself stays exactly if it was open,
      and is then absent. */
  lemma UnplugTakesOne(ds: seq<Dev>, addr: nat, d: Dev)
    requires Coherent(ds) && Allowed(ds, Unplug(addr))
    ensures
      var r, old_d := Unplugged(ds, addr), ds[ByAddress(ds, addr)];
      if d.addr != addr then d in r <==> d in ds
      else d in r <==> old_d.busy && d == old_d.(present := false)
  {
    var i := ByAddress(ds, addr);
    UnpluggedAt(ds, i, addr);
    if ds[i].busy {
      var r := ds[i := ds[i].(present := false)];
      if d in ds && d.addr != addr {
        var j :| 0 <= j < |ds| && ds[j] == d;
        assert r[j] == d;
      }
      assert r[i] == ds[i].(present := false);
    } else {
      RemovedExactly(ds, i, d);
    }
  }

  lemma RemovedExactly(ds: seq<Dev>, i: nat, d: Dev)
    requires Coherent(ds) && i < |ds|
    ensures d in ds[..i] + ds[i + 1..] <==> d in ds && d.addr != ds[i].addr
  {
    var r := ds[..i] + ds[i + 1..];
    if d in ds && d.addr != ds[i].addr {
      var j :| 0 <= j < |ds| && ds[j] == d;
      assert r[if j < i then j else j - 1] == d;
    }
    if d in r {
      var j :| 0 <= j < |r| && r[j] == d;
      assert ds[if j < i then j else j + 1] == d;
    }
  }
}
