/** The chunked transmitter of usbuart.c: ProcCmd_SEND_PACKET starts a packet,
    Callback_BulkOut pushes it on through completions that may fall short. */
module BulkSender {
  import opened Arith
  import opened Bits
  import opened Wrappers

  /** sizeof(bmData). */
  const BUFFER: nat := 1025
  const LONGEST: nat := BUFFER - 1
  /** USBMAX_PACKET_SIZE_64, the full-speed bulk limit of section 5.8.3 of the USB 2.0 specification. */
  const CHUNK: nat := 64

  // ---------------------------------------------------------------- the driver's half

  /** The sender's state: a packet of wBytes bytes, wActualeBytes of them accepted, EVENT_SEND_IS_FREE. */
  datatype State = State(packet: seq<byte>, done: nat, free: bool)

  /** The bytes submitted next: at most one chunk of what is left. */
  function Chunk(s: State): seq<byte> {
    var rest := s.packet[Min(s.done, |s.packet|)..];
    rest[..Min(CHUNK, |rest|)]
  }

  predicate Accepts(s: State, packet: seq<byte>) {
    |packet| <= LONGEST && s.packet == []
  }

  function Start(packet: seq<byte>): State {
    State(packet, 0, false)
  }

  const IDLE: State := State([], 0, true)

  /** The state after a completion of `length` bytes. */
  function Advance(s: State, length: nat): State {
    if s.done + length < |s.packet| then s.(done := s.done + length) else IDLE
  }

  class Sender {
    const data: array<byte>
    var wBytes: nat
    var wActualeBytes: nat
    var isFree: bool

    ghost predicate Valid()
      reads this, data
    {
      data.Length == BUFFER && wBytes <= LONGEST && (wActualeBytes < wBytes || wActualeBytes == wBytes == 0)
    }

    ghost function View(): State
      requires Valid()
      reads this, data
    {
      State(data[..wBytes], wActualeBytes, isFree)
    }

    /** A device record as Additive creates it. */
    constructor ()
      ensures Valid() && View() == IDLE && fresh(data)
    {
      data := new byte[BUFFER](_ => 0);
      wBytes, wActualeBytes, isFree := 0, 0, true;
    }

    /** ProcCmd_GET_MAX_PACKET_LENGTH. */
    method MaxPacketLength() returns (n: nat)
      requires Valid()
      ensures n == 1024
    {
      n := data.Length - 1;
    }

    /** ProcCmd_SEND_PACKET on an open, present device; `transfer` is what it hands to the bulk pipe. */
    method SendPacket(packet: seq<byte>) returns (ok: bool, transfer: seq<byte>)
      requires Valid()
      modifies this, data
      ensures ok <==> Accepts(old(View()), packet)
      ensures ok ==> Valid() && View() == Start(packet) && transfer == Chunk(View())
      ensures !ok ==> Valid() && View() == old(View())
    {
      ok, transfer := false, [];
      if |packet| <= data.Length - 1 {
        if wBytes == 0 {
          wBytes := |packet|;
          forall i | 0 <= i < |packet| {
            data[i] := packet[i];
          }
          var sendBytes := wBytes;
          if wBytes > CHUNK {
            sendBytes := CHUNK;
          }
          wActualeBytes := 0;
          isFree := false;
          assert data[..wBytes] == packet;
          transfer := data[..sendBytes];
          ok := true;
        }
      }
    }

    /** Callback_BulkOut: `again` says that the rest is submitted as `transfer`. */
    method CallbackBulkOut(length: nat) returns (again: bool, transfer: seq<byte>)
      requires Valid() && wActualeBytes + length <= LONGEST
      modifies this
      ensures Valid() && View() == Advance(old(View()), length)
      ensures again <==> View().packet != []
      ensures again ==> transfer == Chunk(View())
    {
      again, transfer := false, [];
      wActualeBytes := (wActualeBytes + length) % WORD16;
      if wActualeBytes < wBytes {
        var rest := wBytes - wActualeBytes;
        if rest > CHUNK {
          rest := CHUNK;
        }
        transfer := data[wActualeBytes..wActualeBytes + rest];
        assert transfer == data[..wBytes][wActualeBytes..wActualeBytes + rest];
        again := true;
      } else {
        wBytes := 0;
        wActualeBytes := 0;
        isFree := true;
        assert data[..0] == [];
      }
    }
  }

  // ---------------------------------------------------------------- driver, pipe and wire together

  /** `pipe` is the outstanding transfer, `wire` every byte the pipe has accepted,
      `sent` the packets finished so far. */
  datatype World = World(driver: State, pipe: Option<seq<byte>>, wire: seq<byte>, sent: seq<seq<byte>>)

  /** `submitted` tells whether the USB stack took the transfer; the driver does not look. */
  datatype Event = Send(packet: seq<byte>, submitted: bool) | Complete(length: nat, submitted: bool)

  predicate Enabled(w: World, e: Event) {
    match e
    case Send(_, _) => true
    case Complete(length, _) => w.pipe.Some? && length <= |w.pipe.value|
  }

  function Submitted(s: State, ok: bool): Option<seq<byte>> {
    if ok then Some(Chunk(s)) else None
  }

  function Step(w: World, e: Event): World
    requires Enabled(w, e)
  {
    match e
    case Send(packet, ok) =>
      if Accepts(w.driver, packet) then
        w.(driver := Start(packet), pipe := Submitted(Start(packet), ok))
      else w
    case Complete(length, ok) =>
      var d := Advance(w.driver, length);
      World(d,
            if d.packet == [] then None else Submitted(d, ok),
            w.wire + w.pipe.value[..length],
            if d.packet == [] then w.sent + [w.driver.packet] else w.sent)
  }

  function Concat(packets: seq<seq<byte>>): seq<byte> {
    if packets == [] then [] else Concat(packets[..|packets| - 1]) + packets[|packets| - 1]
  }

  /** What every step keeps, as long as no empty packet is sent. */
  ghost predicate Sound(w: World) {
    && |w.driver.packet| <= LONGEST
    // the event bit tracks wBytes == 0, and a transfer is outstanding only for a packet in progress
    && (w.driver.free <==> w.driver.packet == [])
    && (w.driver.packet == [] ==> w.driver.done == 0 && w.pipe == None)
    && (w.driver.packet != [] ==> w.driver.done < |w.driver.packet|)
    // the outstanding transfer is the next chunk: nonempty, in bounds, within the limit
    && (w.pipe.Some? ==> w.pipe.value == Chunk(w.driver) && 0 < |w.pipe.value| <= CHUNK)
    // the wire carries exactly the finished packets, in order, and the accepted part of the current one
    && w.wire == Concat(w.sent) + w.driver.packet[..w.driver.done]
  }

  predicate NonemptySend(e: Event) {
    e.Send? ==> e.packet != []
  }

  lemma {:induction false} StepSound(w: World, e: Event)
    requires Sound(w) && Enabled(w, e) && NonemptySend(e)
    ensures Sound(Step(w, e))
  {
    match e {
      case Send(packet, ok) =>
        if Accepts(w.driver, packet) {
          assert packet[..0] == [] && w.driver.packet[..0] == [];
        }
      case Complete(length, ok) =>
        CompleteSound(w, length, ok);
    }
  }

  lemma CompleteSound(w: World, length: nat, ok: bool)
    requires Sound(w) && Enabled(w, Complete(length, ok))
    ensures Sound(Step(w, Complete(length, ok)))
  {
    var p, n := w.driver.packet, w.driver.done;
    var g := Step(w, Complete(length, ok));
    WireGrows(w, length);
    if n + length >= |p| {
      assert p[..n + length] == p;
      assert g.sent[..|g.sent| - 1] == w.sent;
      assert g.driver.packet[..0] == [];
      assert g.wire == Concat(g.sent);
    }
  }

  lemma WireGrows(w: World, length: nat)
    requires Sound(w) && w.pipe.Some? && length <= |w.pipe.value|
    ensures w.driver.done + length <= |w.driver.packet|
    ensures w.wire + w.pipe.value[..length] == Concat(w.sent) + w.driver.packet[..w.driver.done + length]
  {
    var p, n := w.driver.packet, w.driver.done;
    assert w.pipe.value[..length] == p[n..n + length];
    assert p[..n] + p[n..n + length] == p[..n + length];
  }

  /** A schedule in which completions happen only for outstanding transfers and no empty packet is sent. */
  ghost predicate Possible(w: World, events: seq<Event>)
    decreases |events|
  {
    events == [] ||
    (Enabled(w, events[0]) && NonemptySend(events[0]) && Possible(Step(w, events[0]), events[1..]))
  }

  ghost function Run(w: World, events: seq<Event>): World
    requires Possible(w, events)
    decreases |events|
  {
    if events == [] then w else Run(Step(w, events[0]), events[1..])
  }

  /** Whatever the completions are, failed submissions included. */
  lemma {:induction false} RunSound(w: World, events: seq<Event>)
    requires Sound(w) && Possible(w, events)
    ensures Sound(Run(w, events))
    decreases |events|
  {
    if events != [] {
      StepSound(w, events[0]);
      RunSound(Step(w, events[0]), events[1..]);
    }
  }

  // ---------------------------------------------------------------- what a run does to the packet in progress

  /** While a packet is in progress a further one is refused and changes nothing. */
  lemma RefusedWhileBusy(w: World, packet: seq<byte>, ok: bool)
    requires Sound(w) && w.driver.packet != []
    ensures Step(w, Send(packet, ok)) == w
  {
  }

  /** Bytes accepted by the completions of a run. */
  function Accepted(events: seq<Event>): nat {
    if events == [] then 0
    else (if events[0].Complete? then events[0].length else 0) + Accepted(events[1..])
  }

  /** Once the completions of a run have accepted as many bytes as were left, the packet has gone out complete and
      is the next entry of `sent`; before that it is still in progress, shorter by exactly the accepted bytes. */
  lemma {:induction false} PacketCompletes(w: World, events: seq<Event>)
    requires Sound(w) && w.driver.packet != [] && Possible(w, events)
    ensures
      var left := |w.driver.packet| - w.driver.done;
      var r := Run(w, events);
      && (Accepted(events) < left ==>
            r.driver.packet == w.driver.packet && r.driver.done == w.driver.done + Accepted(events) && r.sent == w.sent)
      && (Accepted(events) >= left ==> w.sent + [w.driver.packet] <= r.sent)
    decreases |events|
  {
    if events != [] {
      var e := events[0];
      var v := Step(w, e);
      StepSound(w, e);
      if v.driver.packet == [] {
        SentGrows(v, events[1..]);
      } else {
        PacketCompletes(v, events[1..]);
      }
    }
  }

  lemma {:induction false} SentGrows(w: World, events: seq<Event>)
    requires Sound(w) && Possible(w, events)
    ensures w.sent <= Run(w, events).sent
    decreases |events|
  {
    if events != [] {
      StepSound(w, events[0]);
      SentGrows(Step(w, events[0]), events[1..]);
    }
  }

  /** Nobody looks whether the bulk pipe took a transfer: a packet whose submission failed is never finished,
      and every later one is refused. */
  lemma {:induction false} StuckWithoutTransfer(w: World, events: seq<Event>)
    requires Sound(w) && w.driver.packet != [] && w.pipe == None && Possible(w, events)
    ensures Run(w, events) == w
    decreases |events|
  {
    if events != [] {
      StuckWithoutTransfer(w, events[1..]);
    }
  }

  // ---------------------------------------------------------------- how many transfers a packet takes

  /** Transfers of 64 bytes for n bytes. */
  function Transfers(n: nat): nat {
    (n + 63) / 64
  }

  /** Every completion is a full one, and every submission succeeds. */
  ghost predicate Full(w: World, events: seq<Event>)
    requires Possible(w, events)
    decreases |events|
  {
    events != [] ==>
      && w.pipe.Some? && events[0] == Complete(|w.pipe.value|, true)
      && Full(Step(w, events[0]), events[1..])
  }

  lemma FullStep(w: World)
    requires Sound(w) && w.driver.packet != [] && w.pipe.Some?
    ensures
      var left := |w.driver.packet| - w.driver.done;
      var v := Step(w, Complete(|w.pipe.value|, true));
      if left <= 64 then v.driver == IDLE && v.sent == w.sent + [w.driver.packet] && Transfers(left) == 1
      else v.driver == w.driver.(done := w.driver.done + 64) && v.pipe.Some? && v.sent == w.sent
           && Transfers(left) == 1 + Transfers(left - 64)
  {
  }

  /** With full completions a packet takes exactly one transfer for every 64 bytes begun: it is never cut finer. */
  lemma {:induction false} FullCompletions(w: World, events: seq<Event>)
    requires Sound(w) && w.driver.packet != [] && w.pipe.Some? && Possible(w, events) && Full(w, events)
    requires |events| <= Transfers(|w.driver.packet| - w.driver.done)
    ensures
      var r := Run(w, events);
      if |events| == Transfers(|w.driver.packet| - w.driver.done)
      then r.driver == IDLE && r.sent == w.sent + [w.driver.packet]
      else r.driver == w.driver.(done := w.driver.done + 64 * |events|) && r.sent == w.sent
    decreases |events|
  {
    if events != [] {
      FullStep(w);
      StepSound(w, events[0]);
      if |w.driver.packet| - w.driver.done > 64 {
        FullCompletions(Step(w, events[0]), events[1..]);
      } else {
        assert events[1..] == [];
      }
    }
  }

  /** The limit that a client is told is the limit that is enforced. */
  lemma AcceptsUpToMaximum(s: State, packet: seq<byte>)
    requires s.packet == []
    ensures Accepts(s, packet) <==> |packet| <= 1024
  {
  }

  // ---------------------------------------------------------------- empty packets

  /** Sending keeps the machine sound exactly if the packet is not empty or is refused. */
  lemma SendKeepsSoundExactly(w: World, packet: seq<byte>, ok: bool)
    requires Sound(w)
    ensures Sound(Step(w, Send(packet, ok))) <==> packet != [] || w.driver.packet != []
  {
    if packet != [] {
      StepSound(w, Send(packet, ok));
    }
  }

  /** After an empty packet a second one is taken while the first transfer is still outstanding. */
  lemma EmptyPacketOverlaps(w: World, packet: seq<byte>)
    requires w.driver == IDLE && |packet| <= LONGEST
    ensures
      var v := Step(w, Send([], true));
      v.pipe.Some? && Accepts(v.driver, packet) && !v.driver.free
  {
  }
}
