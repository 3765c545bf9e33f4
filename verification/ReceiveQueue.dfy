/** The incoming byte queue of usbuart.c: a 1024-byte ring filled by USB callbacks and drained by client requests.
    Every access runs under the device's MutexIQ, so each method here is one atomic step. */
module ReceiveQueue {
  import opened Arith
  import opened Bits

  const CAPACITY: nat := 1024

  // ---------------------------------------------------------------- specification: a bounded FIFO that drops new bytes

  /** `overflow` is the 16-bit counter of dropped bytes. */
  datatype Fifo = Fifo(queued: seq<byte>, overflow: nat)

  /** How many of n arriving bytes still fit. */
  function Room(f: Fifo, n: nat): nat {
    if |f.queued| >= CAPACITY then 0 else Min(n, CAPACITY - |f.queued|)
  }

  function Arrived(f: Fifo, bytes: seq<byte>): Fifo {
    var k := Room(f, |bytes|);
    Fifo(f.queued + bytes[..k], (f.overflow + (|bytes| - k)) % WORD16)
  }

  function Drained(f: Fifo, n: nat): Fifo {
    f.(queued := f.queued[Min(n, |f.queued|)..])
  }

  /** The FTDI chips put two status bytes in front of the data. */
  function Payload(ftdi: bool, packet: seq<byte>): seq<byte> {
    if ftdi && |packet| >= 2 then packet[2..] else packet
  }

  // ---------------------------------------------------------------- the ring

  /** Positions run round the buffer. */
  function Slot(i: nat): nat {
    if i < CAPACITY then i else i - CAPACITY
  }

  class Queue {
    const buffer: array<byte>
    var count: nat
    var head: nat
    var tail: nat
    var overflow: nat
    /** EVENT_RECEIVED. */
    var received: bool

    /** What the ring stands for. */
    ghost var contents: Fifo

    ghost predicate Valid()
      reads this, buffer
    {
      && buffer.Length == CAPACITY
      && count == |contents.queued| <= CAPACITY
      && head < CAPACITY && tail == Slot(head + count)
      && overflow == contents.overflow < WORD16
      && (forall i :: 0 <= i < count ==> contents.queued[i] == buffer[Slot(head + i)])
      && (received <==> count > 0)
    }

    /** The device record is zeroed when it is created. */
    constructor ()
      ensures Valid() && contents == Fifo([], 0) && fresh(buffer)
    {
      buffer := new byte[CAPACITY](_ => 0);
      count, head, tail, overflow, received := 0, 0, 0, 0, false;
      contents := Fifo([], 0);
    }

    /** PutChar_Incoming. */
    method PutChar(b: byte)
      requires Valid()
      modifies this, buffer
      ensures Valid() && contents == Arrived(old(contents), [b])
    {
      if count < CAPACITY {
        buffer[tail] := b;
        count := count + 1;
        tail := tail + 1;
        if tail >= CAPACITY {
          tail := 0;
        }
        received := true;
      } else {
        overflow := (overflow + 1) % WORD16;
      }
      contents := Arrived(contents, [b]);
    }

    /** GetChar_Incoming; `b` is written only where a byte is returned. */
    method GetChar(before: byte) returns (ok: bool, b: byte)
      requires Valid()
      modifies this
      ensures Valid() && contents == Drained(old(contents), 1)
      ensures ok <==> old(contents).queued != []
      ensures b == if ok then old(contents).queued[0] else before
    {
      ok, b := false, before;
      if count > 0 {
        b := buffer[head];
        count := count - 1;
        head := head + 1;
        if head >= CAPACITY {
          head := 0;
        }
        if count == 0 {
          received := false;
        }
        ok := true;
      }
      contents := Drained(contents, 1);
    }

    /** The data part of Callback_BulkInp. */
    method BulkInput(ftdi: bool, packet: seq<byte>)
      requires Valid()
      modifies this, buffer
      ensures Valid() && contents == Arrived(old(contents), Payload(ftdi, packet))
    {
      var bytes := Payload(ftdi, packet);
      ghost var start := contents;
      var i := 0;
      while i < |bytes|
        invariant 0 <= i <= |bytes|
        invariant Valid() && contents == Arrived(start, bytes[..i])
      {
        PutChar(bytes[i]);
        ArrivedAppend(start, bytes[..i], bytes[i]);
        assert bytes[..i + 1] == bytes[..i] + [bytes[i]];
        i := i + 1;
      }
      assert bytes[..i] == bytes;
    }

    /** ProcCmd_GET_BYTE on an open device: the event flag stands in for "not empty". */
    method GetByte(before: byte) returns (ok: bool, b: byte)
      requires Valid()
      modifies this
      ensures Valid() && contents == Drained(old(contents), 1)
      ensures ok <==> old(contents).queued != []
      ensures b == if ok then old(contents).queued[0] else before
    {
      ok, b := false, before;
      if received {
        ok, b := GetChar(b);
      }
    }

    /** ProcCmd_GET_BYTES on an open device. The longest available prefix is copied and the rest of the output is left
        alone. The exit test compares a TRUE/FALSE result with -1 and never fires, so the result is the requested
        size: it tells how many bytes were copied exactly when the queue held that many. */
    method GetBytes(output: array<byte>, size: nat) returns (result: nat)
      requires Valid() && size <= output.Length && output != buffer
      modifies this, output
      ensures Valid() && contents == Drained(old(contents), size)
      ensures
        var copied := Min(size, |old(contents).queued|);
        && output[..copied] == old(contents).queued[..copied]
        && output[copied..] == old(output[copied..])
        && (result == copied <==> |old(contents).queued| >= size)
      ensures result == size
    {
      ghost var start := contents;
      ghost var was := output[..];
      var i := 0;
      while i < size
        invariant 0 <= i <= size
        invariant Valid() && contents == Drained(start, i)
        invariant forall j :: 0 <= j < output.Length ==>
          output[j] == if j < Min(i, |start.queued|) then start.queued[j] else was[j]
      {
        DrainedOnce(start, i);
        var ok, b := GetChar(output[i]);
        output[i] := b;
        i := i + 1;
      }
      result := i;
    }
  }

  lemma DrainedOnce(f: Fifo, i: nat)
    ensures Drained(Drained(f, i), 1) == Drained(f, i + 1)
    ensures Drained(f, i).queued != [] <==> i < |f.queued|
    ensures i < |f.queued| ==> Drained(f, i).queued[0] == f.queued[i]
  {
    if i >= |f.queued| {
      assert f.queued[|f.queued|..] == [];
    }
  }

  /** Arrival byte by byte and arrival in one go are the same: once a byte is dropped, so are all later ones. */
  lemma {:induction false} ArrivedAppend(f: Fifo, bytes: seq<byte>, b: byte)
    requires |f.queued| <= CAPACITY
    ensures Arrived(Arrived(f, bytes), [b]) == Arrived(f, bytes + [b])
  {
    var k := Room(f, |bytes|);
    var g := Arrived(f, bytes);
    if |f.queued| + |bytes| < CAPACITY {
      assert k == |bytes| && bytes[..k] == bytes;
      assert (bytes + [b])[..|bytes| + 1] == bytes + [b];
      assert g.queued + [b][..1] == f.queued + (bytes + [b]);
      assert Arrived(g, [b]).queued == Arrived(f, bytes + [b]).queued;
      ModTwice(f.overflow, 0, 0);
    } else {
      assert (bytes + [b])[..k] == bytes[..k];
      assert Arrived(g, [b]).queued == g.queued == Arrived(f, bytes + [b]).queued;
      ModTwice(f.overflow, |bytes| - k, 1);
    }
  }

  lemma ModTwice(a: nat, b: nat, c: nat)
    ensures ((a + b) % WORD16 + c) % WORD16 == (a + (b + c)) % WORD16
  {
    var q := (a + b) / WORD16;
    assert a + b + c == q * WORD16 + ((a + b) % WORD16 + c);
    ModShift((a + b) % WORD16 + c, q);
  }

  lemma ModShift(x: nat, q: nat)
    ensures (q * WORD16 + x) % WORD16 == x % WORD16
  {
    var r := x / WORD16;
    assert q * WORD16 + x == (q + r) * WORD16 + x % WORD16;
  }

  // ---------------------------------------------------------------- runs

  datatype Event = Arrival(bytes: seq<byte>) | Read(size: nat)

  /** The queue together with everything that went in and came out since the start of a run. */
  datatype History = History(fifo: Fifo, arrivals: nat, accepted: seq<byte>, delivered: seq<byte>)

  function Step(h: History, e: Event): History {
    match e
    case Arrival(bytes) =>
      h.(fifo := Arrived(h.fifo, bytes), arrivals := h.arrivals + |bytes|,
         accepted := h.accepted + bytes[..Room(h.fifo, |bytes|)])
    case Read(size) =>
      h.(fifo := Drained(h.fifo, size), delivered := h.delivered + h.fifo.queued[..Min(size, |h.fifo.queued|)])
  }

  function Run(h: History, events: seq<Event>): History
    decreases |events|
  {
    if events == [] then h else Run(Step(h, events[0]), events[1..])
  }

  /** Nothing is lost, duplicated or reordered between acceptance and delivery, and every other byte is counted. */
  ghost predicate Conserved(h: History) {
    && |h.fifo.queued| <= CAPACITY
    && h.delivered + h.fifo.queued == h.accepted
    && |h.accepted| <= h.arrivals
    && h.fifo.overflow == (h.arrivals - |h.accepted|) % WORD16
  }

  lemma {:induction false} StepConserves(h: History, e: Event)
    requires Conserved(h)
    ensures Conserved(Step(h, e))
  {
    match e {
      case Arrival(bytes) =>
        var k := Room(h.fifo, |bytes|);
        var g := Step(h, e);
        assert |g.accepted| == |h.accepted| + k;
        assert g.delivered + g.fifo.queued == g.accepted by {
          assert h.delivered + (h.fifo.queued + bytes[..k]) == (h.delivered + h.fifo.queued) + bytes[..k];
        }
        ModTwice(h.arrivals - |h.accepted|, 0, |bytes| - k);
      case Read(size) =>
        var k := Min(size, |h.fifo.queued|);
        assert h.fifo.queued[..k] + h.fifo.queued[k..] == h.fifo.queued;
    }
  }

  /** Under every interleaving of arrivals and reads, starting from the zeroed device. */
  lemma {:induction false} RunConserves(h: History, events: seq<Event>)
    requires Conserved(h)
    ensures Conserved(Run(h, events))
    decreases |events|
  {
    if events != [] {
      StepConserves(h, events[0]);
      RunConserves(Step(h, events[0]), events[1..]);
    }
  }

  /** An overfull batch: the bytes that find room are the first ones, and the queue is then full. */
  lemma DropsNewest(f: Fifo, bytes: seq<byte>)
    requires |f.queued| <= CAPACITY
    ensures
      var g := Arrived(f, bytes);
      && f.queued <= g.queued <= f.queued + bytes
      && |g.queued| == Min(|f.queued| + |bytes|, CAPACITY)
  {
  }

  // ---------------------------------------------------------------- runs of input packets

  /** What a packet from the chip carries, byte by byte: an FTDI chip sends two status bytes first. */
  function Data(ftdi: bool, packet: seq<byte>): seq<byte> {
    if ftdi && |packet| >= 2 then seq(|packet| - 2, i requires 0 <= i < |packet| - 2 => packet[i + 2]) else packet
  }

  /** Exactly the two status bytes do not arrive, and of any other packet everything does. */
  lemma PayloadIsData(ftdi: bool, packet: seq<byte>)
    ensures Payload(ftdi, packet) == Data(ftdi, packet)
    ensures ftdi && |packet| >= 2 ==> packet == [packet[0], packet[1]] + Payload(ftdi, packet)
    ensures !ftdi || |packet| < 2 ==> Payload(ftdi, packet) == packet
  {
  }

  datatype Input = Packet(bytes: seq<byte>) | Request(size: nat)

  function AsEvent(ftdi: bool, i: Input): Event {
    match i
    case Packet(bytes) => Arrival(Payload(ftdi, bytes))
    case Request(size) => Read(size)
  }

  function RunInput(h: History, ftdi: bool, inputs: seq<Input>): History
    decreases |inputs|
  {
    if inputs == [] then h else RunInput(Step(h, AsEvent(ftdi, inputs[0])), ftdi, inputs[1..])
  }

  /** The data of all packets, in order. */
  function AllData(ftdi: bool, inputs: seq<Input>): seq<byte> {
    if inputs == [] then []
    else (if inputs[0].Packet? then Data(ftdi, inputs[0].bytes) else []) + AllData(ftdi, inputs[1..])
  }

  /** The bytes are what is left of the packets' data when each packet may lose its end. */
  ghost predicate Thinned(bytes: seq<byte>, ftdi: bool, inputs: seq<Input>)
    decreases |inputs|
  {
    if inputs == [] then bytes == []
    else if inputs[0].Request? then Thinned(bytes, ftdi, inputs[1..])
    else
      exists k :: 0 <= k <= |bytes| && bytes[..k] <= Data(ftdi, inputs[0].bytes) && Thinned(bytes[k..], ftdi, inputs[1..])
  }

  /** One packet: a prefix of its data is accepted. */
  lemma PacketStep(h: History, ftdi: bool, packet: seq<byte>) returns (head: seq<byte>)
    requires Conserved(h)
    ensures
      var g := Step(h, AsEvent(ftdi, Packet(packet)));
      && head <= Data(ftdi, packet) && g.accepted == h.accepted + head
      && g.arrivals == h.arrivals + |Data(ftdi, packet)|
  {
    PayloadIsData(ftdi, packet);
    head := Data(ftdi, packet)[..Room(h.fifo, |Data(ftdi, packet)|)];
  }

  lemma ThinnedCons(head: seq<byte>, rest: seq<byte>, ftdi: bool, inputs: seq<Input>)
    requires inputs != [] && inputs[0].Packet? && head <= Data(ftdi, inputs[0].bytes) && Thinned(rest, ftdi, inputs[1..])
    ensures Thinned(head + rest, ftdi, inputs)
  {
    var all := head + rest;
    assert all[..|head|] == head && all[|head|..] == rest;
  }

  lemma {:induction false} AcceptsThinned(h: History, ftdi: bool, inputs: seq<Input>) returns (more: seq<byte>)
    requires Conserved(h)
    ensures RunInput(h, ftdi, inputs).accepted == h.accepted + more && Thinned(more, ftdi, inputs)
    decreases |inputs|
  {
    if inputs == [] {
      return [];
    }
    StepConserves(h, AsEvent(ftdi, inputs[0]));
    more := AcceptsThinned(Step(h, AsEvent(ftdi, inputs[0])), ftdi, inputs[1..]);
    if inputs[0].Packet? {
      var head := PacketStep(h, ftdi, inputs[0].bytes);
      assert (h.accepted + head) + more == h.accepted + (head + more);
      ThinnedCons(head, more, ftdi, inputs);
      more := head + more;
    }
  }

  lemma {:induction false} InputArrives(h: History, ftdi: bool, inputs: seq<Input>)
    requires Conserved(h)
    ensures
      var r := RunInput(h, ftdi, inputs);
      Conserved(r) && r.arrivals == h.arrivals + |AllData(ftdi, inputs)|
    decreases |inputs|
  {
    if inputs != [] {
      StepConserves(h, AsEvent(ftdi, inputs[0]));
      if inputs[0].Packet? {
        PayloadIsData(ftdi, inputs[0].bytes);
      }
      InputArrives(Step(h, AsEvent(ftdi, inputs[0])), ftdi, inputs[1..]);
    }
  }

  lemma PrefixAndRest(bytes: seq<byte>, k: nat, first: seq<byte>, rest: seq<byte>)
    requires k <= |bytes| && bytes[..k] <= first && |bytes[k..]| <= |rest|
    requires |bytes[k..]| == |rest| ==> bytes[k..] == rest
    ensures |bytes| <= |first + rest| && (|bytes| == |first + rest| ==> bytes == first + rest)
  {
    assert bytes == bytes[..k] + bytes[k..];
  }

  /** What is left of the data is all of it, or shorter. */
  lemma {:induction false} ThinnedLength(bytes: seq<byte>, ftdi: bool, inputs: seq<Input>)
    requires Thinned(bytes, ftdi, inputs)
    ensures |bytes| <= |AllData(ftdi, inputs)|
    ensures |bytes| == |AllData(ftdi, inputs)| ==> bytes == AllData(ftdi, inputs)
    decreases |inputs|
  {
    if inputs != [] {
      if inputs[0].Request? {
        ThinnedLength(bytes, ftdi, inputs[1..]);
      } else {
        var k :| 0 <= k <= |bytes| && bytes[..k] <= Data(ftdi, inputs[0].bytes) && Thinned(bytes[k..], ftdi, inputs[1..]);
        ThinnedLength(bytes[k..], ftdi, inputs[1..]);
        PrefixAndRest(bytes, k, Data(ftdi, inputs[0].bytes), AllData(ftdi, inputs[1..]));
      }
    }
  }

  const START: History := History(Fifo([], 0), 0, [], [])

  /** What the chip sends is what the client gets: over any interleaving of packets and reads, delivered and queued bytes
      are the data of the packets, each possibly short of its end, and all of the data where none was dropped;
      the missing bytes are counted modulo 2^16. */
  lemma {:induction false} InputConserves(ftdi: bool, inputs: seq<Input>)
    ensures
      var r := RunInput(START, ftdi, inputs);
      var out, all := r.delivered + r.fifo.queued, AllData(ftdi, inputs);
      && Thinned(out, ftdi, inputs) && |out| <= |all|
      && r.fifo.overflow == (|all| - |out|) % WORD16
      && (|out| == |all| ==> out == all)
  {
    var out := AcceptsThinned(START, ftdi, inputs);
    assert START.accepted + out == out;
    InputArrives(START, ftdi, inputs);
    ThinnedLength(out, ftdi, inputs);
  }
}
