/** Receive de-framing of ftdi_sio.c: every packet of the read buffer starts with modem status and line status. */
module FtdiReceive {
  import opened Bits

  type Octet = bv8

  const RS0_CTS: Octet := 0x10
  const RS0_DSR: Octet := 0x20
  const RS0_RI: Octet := 0x40
  const RS0_RLSD: Octet := 0x80
  const STATUS_B0_MASK: Octet := 0xf0

  const RS_OE: Octet := 0x02
  const RS_PE: Octet := 0x04
  const RS_FE: Octet := 0x08
  const RS_BI: Octet := 0x10
  const RS_TEMT: Octet := 0x40
  const RS_ERR_MASK: Octet := 0x1e

  predicate Has(b: Octet, mask: Octet) { b & mask != 0 }

  predicate Masked(b: Octet) { b & STATUS_B0_MASK == b }

  // ---------------------------------------------------------------- what a read buffer says

  datatype Modem = Cts | Dsr | Ri | Rlsd

  /** The state of the modem lines. */
  datatype Lines = Lines(cts: bool, dsr: bool, ri: bool, rlsd: bool)
  {
    predicate On(m: Modem) {
      match m
      case Cts => cts
      case Dsr => dsr
      case Ri => ri
      case Rlsd => rlsd
    }
  }

  /** TTY_NORMAL and the error marks. */
  datatype Flag = Normal | Break | Parity | Frame | Overrun

  /** A packet: modem lines, line status, data. `flag` belongs to every data byte, `overrun` to none of them. */
  datatype Packet = Malformed | Packet(lines: Lines, flag: Flag, overrun: bool, empty: bool, data: seq<Octet>)

  function ModemLines(b: Octet): Lines {
    Lines(Has(b, RS0_CTS), Has(b, RS0_DSR), Has(b, RS0_RI), Has(b, RS0_RLSD))
  }

  /** Break takes precedence over parity, which takes precedence over framing errors. */
  function Mark(line: Octet): Flag {
    if Has(line, RS_BI) then Break else if Has(line, RS_PE) then Parity else if Has(line, RS_FE) then Frame else Normal
  }

  function Decode(raw: seq<Octet>): Packet {
    if |raw| < 2 then Malformed
    else Packet(ModemLines(raw[0]), Mark(raw[1]), Has(raw[1], RS_OE), Has(raw[1], RS_TEMT), raw[2..])
  }

  /** The read buffer, cut every `max` bytes. */
  function Cut(data: seq<Octet>, max: nat): (raw: seq<seq<Octet>>)
    requires max > 0
    decreases |data|
  {
    if data == [] then [] else
      var len := if |data| < max then |data| else max;
      [data[..len]] + Cut(data[len..], max)
  }

  function DecodeAll(raw: seq<seq<Octet>>): (packets: seq<Packet>)
    ensures |packets| == |raw|
  {
    if raw == [] then [] else [Decode(raw[0])] + DecodeAll(raw[1..])
  }

  function Packets(data: seq<Octet>, max: nat): seq<Packet>
    requires max > 0
  {
    DecodeAll(Cut(data, max))
  }

  /** The data of all packets, in order. */
  function Payload(packets: seq<Packet>): seq<Octet> {
    if packets == [] then []
    else (if packets[0].Packet? then packets[0].data else []) + Payload(packets[1..])
  }

  /** The line states the packets report, in order. */
  function States(packets: seq<Packet>): seq<Lines> {
    if packets == [] then []
    else (if packets[0].Packet? then [packets[0].lines] else []) + States(packets[1..])
  }

  function One(b: bool): nat { if b then 1 else 0 }

  /** How often a line changes along a sequence of states that starts from `prev`. */
  function Changes(m: Modem, prev: Lines, states: seq<Lines>): nat
    decreases |states|
  {
    if states == [] then 0 else One(prev.On(m) != states[0].On(m)) + Changes(m, states[0], states[1..])
  }

  function Last(prev: Lines, states: seq<Lines>): Lines {
    if states == [] then prev else states[|states| - 1]
  }

  /** An entry of the tty's flip buffer. */
  datatype Char = Char(value: Octet, flag: Flag)

  function Marked(bytes: seq<Octet>, flag: Flag): seq<Char> {
    if bytes == [] then [] else [Char(bytes[0], flag)] + Marked(bytes[1..], flag)
  }

  function OverrunMark(overrun: bool): seq<Char> {
    if overrun then [Char(0, Overrun)] else []
  }

  function InsertedBy(p: Packet): seq<Char> {
    if p.Packet? then OverrunMark(p.overrun) + Marked(p.data, p.flag) else []
  }

  function Inserted(packets: seq<Packet>): seq<Char> {
    if packets == [] then [] else InsertedBy(packets[0]) + Inserted(packets[1..])
  }

  // ---------------------------------------------------------------- the state a packet acts on

  /** The counters of struct async_icount. */
  datatype Counts = Counts(cts: word, dsr: word, rng: word, dcd: word,
                           rx: word, brk: word, parity: word, frame: word, overrun: word)

  datatype State = State(prev: Lines, empty: bool, counts: Counts, flip: seq<Char>)

  function ModemCounted(c: Counts, prev: Lines, lines: Lines): Counts {
    c.(cts := Counted(c.cts, One(prev.cts != lines.cts)), dsr := Counted(c.dsr, One(prev.dsr != lines.dsr)),
       rng := Counted(c.rng, One(prev.ri != lines.ri)), dcd := Counted(c.dcd, One(prev.rlsd != lines.rlsd)))
  }

  function LineCounted(c: Counts, flag: Flag, overrun: bool): Counts {
    c.(brk := Counted(c.brk, One(flag == Break)), parity := Counted(c.parity, One(flag == Parity)),
       frame := Counted(c.frame, One(flag == Frame)), overrun := Counted(c.overrun, One(overrun)))
  }

  function After(st: State, p: Packet): State {
    match p
    case Malformed => st
    case Packet(lines, flag, overrun, empty, data) =>
      var c := LineCounted(ModemCounted(st.counts, st.prev, lines), flag, overrun);
      State(lines, empty, c.(rx := Counted(c.rx, |data|)), st.flip + InsertedBy(p))
  }

  function AfterAll(st: State, packets: seq<Packet>): State
    decreases |packets|
  {
    if packets == [] then st else AfterAll(After(st, packets[0]), packets[1..])
  }

  function Counter(c: Counts, m: Modem): word {
    match m
    case Cts => c.cts
    case Dsr => c.dsr
    case Ri => c.rng
    case Rlsd => c.dcd
  }

  function WithoutMarks(chars: seq<Char>): seq<Octet> {
    if chars == [] then []
    else (if chars[0].flag == Overrun then [] else [chars[0].value]) + WithoutMarks(chars[1..])
  }

  function ErrorCounter(c: Counts, f: Flag): word
    requires f != Normal
  {
    match f
    case Break => c.brk
    case Parity => c.parity
    case Frame => c.frame
    case Overrun => c.overrun
  }

  predicate Reports(p: Packet, f: Flag) {
    p.Packet? && if f == Overrun then p.overrun else p.flag == f
  }

  /** How many packets report the error. */
  function Errors(packets: seq<Packet>, f: Flag): nat {
    if packets == [] then 0 else One(Reports(packets[0], f)) + Errors(packets[1..], f)
  }

  /** Whether the last packet reports an empty transmitter. */
  function LastEmpty(before: bool, packets: seq<Packet>): bool {
    if packets == [] then before
    else if packets[|packets| - 1].Packet? then packets[|packets| - 1].empty
    else LastEmpty(before, packets[..|packets| - 1])
  }

  /** What the packets do to a port, from state `st` to state `r`. */
  ghost predicate Delivered(st: State, r: State, packets: seq<Packet>) {
    && st.flip <= r.flip && WithoutMarks(r.flip[|st.flip|..]) == Payload(packets)
    && r.counts.rx == Counted(st.counts.rx, |Payload(packets)|)
    && (forall m: Modem ::
          Counter(r.counts, m) == Counted(Counter(st.counts, m), Changes(m, st.prev, States(packets))))
    && (forall f: Flag :: f != Normal ==>
          ErrorCounter(r.counts, f) == Counted(ErrorCounter(st.counts, f), Errors(packets, f)))
    && r.prev == Last(st.prev, States(packets)) && r.empty == LastEmpty(st.empty, packets)
  }

  // ---------------------------------------------------------------- the driver

  class Port {
    const maxPacketSize: nat
    var prevStatus: Octet
    var transmitEmpty: bool
    var icount: Counts
    /** The tty's flip buffer. */
    var flip: seq<Char>

    ghost predicate Valid()
      reads this
    {
      Masked(prevStatus)
    }

    ghost function View(): State
      reads this
    {
      State(ModemLines(prevStatus), transmitEmpty, icount, flip)
    }

    constructor (maxPacketSize: nat)
      ensures Valid() && this.maxPacketSize == maxPacketSize
      ensures View() == State(Lines(false, false, false, false), false, Counts(0, 0, 0, 0, 0, 0, 0, 0, 0), [])
    {
      this.maxPacketSize, prevStatus, transmitEmpty, flip := maxPacketSize, 0, false, [];
      icount := Counts(0, 0, 0, 0, 0, 0, 0, 0, 0);
    }

    /** The modem-status part of ftdi_process_packet: only differences count. */
    method CompareStatus(b: Octet)
      requires Valid()
      modifies this`icount, this`prevStatus
      ensures Valid() && ModemLines(prevStatus) == ModemLines(b)
      ensures icount == ModemCounted(old(icount), ModemLines(old(prevStatus)), ModemLines(b))
    {
      var status := b & STATUS_B0_MASK;
      MaskedLines(b);
      if status != prevStatus {
        var cts, dsr, rng, dcd := ChangedLines(status, prevStatus);
        CountLines(cts, dsr, rng, dcd);
        prevStatus := status;
      }
    }

    method CountLines(cts: bool, dsr: bool, rng: bool, dcd: bool)
      modifies this`icount
      ensures icount == old(icount).(cts := Counted(old(icount).cts, One(cts)), dsr := Counted(old(icount).dsr, One(dsr)),
                                     rng := Counted(old(icount).rng, One(rng)), dcd := Counted(old(icount).dcd, One(dcd)))
    {
      Uncounted(icount.cts);
      Uncounted(icount.dsr);
      Uncounted(icount.rng);
      Uncounted(icount.dcd);
      if cts {
        icount := icount.(cts := Counted(icount.cts, 1));
      }
      if dsr {
        icount := icount.(dsr := Counted(icount.dsr, 1));
      }
      if rng {
        icount := icount.(rng := Counted(icount.rng, 1));
      }
      if dcd {
        icount := icount.(dcd := Counted(icount.dcd, 1));
      }
    }

    /** The line-status part: counters, the overrun mark, and the flag for the data. */
    method LineStatus(status: Octet) returns (flag: Flag)
      modifies this`icount, this`flip
      ensures flag == Mark(status) && icount == LineCounted(old(icount), flag, Has(status, RS_OE))
      ensures flip == old(flip) + OverrunMark(Has(status, RS_OE))
    {
      flag := Normal;
      ErrorMask(status);
      if Has(status, RS_ERR_MASK) {
        if Has(status, RS_BI) {
          flag := Break;
          icount := icount.(brk := Counted(icount.brk, 1));
        } else if Has(status, RS_PE) {
          flag := Parity;
          icount := icount.(parity := Counted(icount.parity, 1));
        } else if Has(status, RS_FE) {
          flag := Frame;
          icount := icount.(frame := Counted(icount.frame, 1));
        }
        if Has(status, RS_OE) {
          icount := icount.(overrun := Counted(icount.overrun, 1));
          flip := flip + [Char(0, Overrun)];
        }
      }
    }

    /** ftdi_process_packet on a port that is not a console. */
    method ProcessPacket(raw: seq<Octet>) returns (n: nat)
      requires Valid()
      modifies this
      ensures Valid() && View() == After(old(View()), Decode(raw))
      ensures n == if |raw| < 2 then 0 else |raw| - 2
    {
      if |raw| < 2 {
        return 0;
      }
      var status, line := raw[0], raw[1];
      AfterDecoded(View(), status, line, raw);
      CompareStatus(status);
      var flag := LineStatus(line);
      transmitEmpty := Has(line, RS_TEMT);
      n := |raw| - 2;
      if n != 0 {
        InsertData(raw[2..], flag);
      }
    }

    method InsertData(data: seq<Octet>, flag: Flag)
      modifies this`icount, this`flip
      ensures icount == old(icount).(rx := Counted(old(icount).rx, |data|)) && flip == old(flip) + Marked(data, flag)
    {
      icount := icount.(rx := Counted(icount.rx, |data|));
      flip := flip + Marked(data, flag);
    }

    /** One round of ftdi_process_read_urb: the packet at position i. */
    method ProcessNext(data: seq<Octet>, i: nat) returns (n: nat)
      requires maxPacketSize > 0 && Valid() && i < |data|
      modifies this
      ensures Valid()
      ensures
        AfterAll(View(), Rest(data, i + maxPacketSize, maxPacketSize)) == AfterAll(old(View()), Rest(data, i, maxPacketSize))
      ensures n + |Payload(Rest(data, i + maxPacketSize, maxPacketSize))| == |Payload(Rest(data, i, maxPacketSize))|
    {
      var len := if |data| - i < maxPacketSize then |data| - i else maxPacketSize;
      UrbRound(data, i, maxPacketSize, data[i..i + len], View());
      n := ProcessPacket(data[i..i + len]);
    }

    /** ftdi_process_read_urb; `count`, the number of payload bytes, decides whether the flip buffer is pushed. */
    method ProcessReadUrb(data: seq<Octet>) returns (count: nat)
      requires maxPacketSize > 0 && Valid()
      modifies this
      ensures Valid() && View() == AfterAll(old(View()), Packets(data, maxPacketSize))
      ensures Delivered(old(View()), View(), Packets(data, maxPacketSize))
      ensures count == |Payload(Packets(data, maxPacketSize))|
    {
      count := 0;
      var i := 0;
      ghost var start, packets := View(), Packets(data, maxPacketSize);
      StartsAtZero(data, maxPacketSize);
      while i < |data|
        invariant Valid()
        invariant AfterAll(View(), Rest(data, i, maxPacketSize)) == AfterAll(start, packets)
        invariant count + |Payload(Rest(data, i, maxPacketSize))| == |Payload(packets)|
        decreases |data| - i
      {
        var n := ProcessNext(data, i);
        count := count + n;
        i := i + maxPacketSize;
      }
      NothingLeft(View(), data, i, maxPacketSize);
      ReadBuffer(start, data, maxPacketSize);
    }
  }

  lemma StartsAtZero(data: seq<Octet>, max: nat)
    requires max > 0
    ensures Rest(data, 0, max) == Packets(data, max)
  {
    assert data[0..] == data;
  }

  lemma NothingLeft(st: State, data: seq<Octet>, i: nat, max: nat)
    requires max > 0 && i >= |data|
    ensures AfterAll(st, Rest(data, i, max)) == st && Payload(Rest(data, i, max)) == []
  {
  }

  /** The packets from position i on. */
  function Rest(data: seq<Octet>, i: nat, max: nat): seq<Packet>
    requires max > 0
  {
    if i < |data| then Packets(data[i..], max) else []
  }

  lemma AfterDecoded(st: State, status: Octet, line: Octet, raw: seq<Octet>)
    requires |raw| >= 2 && raw[0] == status && raw[1] == line
    ensures
      var r := After(st, Decode(raw));
      var c := LineCounted(ModemCounted(st.counts, st.prev, ModemLines(status)), Mark(line), Has(line, RS_OE));
      && r.prev == ModemLines(status) && r.empty == Has(line, RS_TEMT)
      && r.counts == c.(rx := Counted(c.rx, |raw| - 2))
      && r.flip == (st.flip + OverrunMark(Has(line, RS_OE))) + Marked(raw[2..], Mark(line))
      && (|raw| == 2 ==> r.flip == st.flip + OverrunMark(Has(line, RS_OE)))
  {
    AppendAll(st.flip, OverrunMark(Has(line, RS_OE)), Marked(raw[2..], Mark(line)));
  }

  lemma UrbRound(data: seq<Octet>, i: nat, max: nat, raw: seq<Octet>, st: State)
    requires max > 0 && i < |data| && raw == data[i..i + if |data| - i < max then |data| - i else max]
    ensures AfterAll(st, Rest(data, i, max)) == AfterAll(After(st, Decode(raw)), Rest(data, i + max, max))
    ensures |Payload(Rest(data, i, max))| == (if |raw| < 2 then 0 else |raw| - 2) + |Payload(Rest(data, i + max, max))|
  {
    CutRound(data, i, max, |raw|);
    FirstPacket(st, Decode(raw), Rest(data, i, max), Rest(data, i + max, max));
  }

  lemma CutRound(data: seq<Octet>, i: nat, max: nat, len: nat)
    requires max > 0 && i < |data| && len == if |data| - i < max then |data| - i else max
    ensures Rest(data, i, max) == [Decode(data[i..i + len])] + Rest(data, i + max, max)
  {
    var from := data[i..];
    assert from[..len] == data[i..i + len] && from[len..] == data[i + len..];
    assert Cut(from, max)[1..] == Cut(data[i + len..], max);
  }

  lemma FirstPacket(st: State, p: Packet, all: seq<Packet>, rest: seq<Packet>)
    requires all == [p] + rest
    ensures AfterAll(st, all) == AfterAll(After(st, p), rest)
    ensures |Payload(all)| == (if p.Packet? then |p.data| else 0) + |Payload(rest)|
  {
    assert all[1..] == rest;
  }

  /** The bits of `status ^ prev`. */
  method ChangedLines(status: Octet, prev: Octet) returns (cts: bool, dsr: bool, rng: bool, dcd: bool)
    ensures cts == (ModemLines(status).cts != ModemLines(prev).cts) && dsr == (ModemLines(status).dsr != ModemLines(prev).dsr)
    ensures rng == (ModemLines(status).ri != ModemLines(prev).ri) && dcd == (ModemLines(status).rlsd != ModemLines(prev).rlsd)
  {
    var diff := status ^ prev;
    DiffBit(status, prev, RS0_CTS);
    DiffBit(status, prev, RS0_DSR);
    DiffBit(status, prev, RS0_RI);
    DiffBit(status, prev, RS0_RLSD);
    cts, dsr, rng, dcd := Has(diff, RS0_CTS), Has(diff, RS0_DSR), Has(diff, RS0_RI), Has(diff, RS0_RLSD);
  }

  lemma Uncounted(c: word)
    ensures Counted(c, 0) == c
  {
  }

  lemma DiffBit(a: Octet, b: Octet, mask: Octet)
    requires mask in {RS0_CTS, RS0_DSR, RS0_RI, RS0_RLSD}
    ensures Has(a ^ b, mask) <==> Has(a, mask) != Has(b, mask)
  {
  }

  lemma MaskedLines(b: Octet)
    ensures Masked(b & STATUS_B0_MASK)
    ensures ModemLines(b & STATUS_B0_MASK) == ModemLines(b)
  {
  }

  lemma ErrorMask(line: Octet)
    ensures Has(line, RS_ERR_MASK) <==> Has(line, RS_BI) || Has(line, RS_PE) || Has(line, RS_FE) || Has(line, RS_OE)
  {
  }

  // ---------------------------------------------------------------- what a run over packets amounts to

  /** Each modem counter advances by the changes of its line along the packets. */
  lemma {:induction false} CountsChanges(st: State, packets: seq<Packet>, m: Modem)
    ensures
      Counter(AfterAll(st, packets).counts, m) == Counted(Counter(st.counts, m), Changes(m, st.prev, States(packets)))
    decreases |packets|
  {
    if packets != [] {
      var p, rest := packets[0], packets[1..];
      CountsChanges(After(st, p), rest, m);
      FirstPacket(st, p, packets, rest);
      if p.Packet? {
        CountedTwice(Counter(st.counts, m), One(st.prev.On(m) != p.lines.On(m)), Changes(m, p.lines, States(rest)));
      }
      if p.Packet? {
        assert States(packets) == [p.lines] + States(rest) && ([p.lines] + States(rest))[1..] == States(rest);
      } else {
        assert States(packets) == States(rest);
      }
    }
  }

  /** Each error counter advances by the number of packets that report the error. */
  lemma {:induction false} CountsErrors(st: State, packets: seq<Packet>, f: Flag)
    requires f != Normal && forall p :: p in packets && p.Packet? ==> p.flag != Overrun
    ensures
      ErrorCounter(AfterAll(st, packets).counts, f) == Counted(ErrorCounter(st.counts, f), Errors(packets, f))
    decreases |packets|
  {
    if packets != [] {
      ErrorStep(st, packets[0], f);
      CountsErrors(After(st, packets[0]), packets[1..], f);
      CountedTwice(ErrorCounter(st.counts, f), One(Reports(packets[0], f)), Errors(packets[1..], f));
    }
  }

  lemma ErrorStep(st: State, p: Packet, f: Flag)
    requires f != Normal && (p.Packet? ==> p.flag != Overrun)
    ensures ErrorCounter(After(st, p).counts, f) == Counted(ErrorCounter(st.counts, f), One(Reports(p, f)))
  {
  }

  lemma LastEmptyCons(before: bool, p: Packet, rest: seq<Packet>)
    ensures LastEmpty(before, [p] + rest) == LastEmpty(if p.Packet? then p.empty else before, rest)
    decreases |rest|
  {
    var all := [p] + rest;
    if rest == [] {
      assert all[..0] == [];
    } else {
      LastEmptyCons(before, p, rest[..|rest| - 1]);
      assert all[..|all| - 1] == [p] + rest[..|rest| - 1];
    }
  }

  /** The port remembers whether the transmitter was last reported empty. */
  lemma {:induction false} RemembersEmpty(st: State, packets: seq<Packet>)
    ensures AfterAll(st, packets).empty == LastEmpty(st.empty, packets)
    decreases |packets|
  {
    if packets != [] {
      RemembersEmpty(After(st, packets[0]), packets[1..]);
      LastEmptyCons(st.empty, packets[0], packets[1..]);
      assert packets == [packets[0]] + packets[1..];
    }
  }

  /** The port remembers the last state reported. */
  lemma {:induction false} RemembersLast(st: State, packets: seq<Packet>)
    ensures AfterAll(st, packets).prev == Last(st.prev, States(packets))
    decreases |packets|
  {
    if packets != [] {
      var p, rest := packets[0], packets[1..];
      RemembersLast(After(st, p), rest);
      FirstPacket(st, p, packets, rest);
      if p.Packet? {
        LastOf(st.prev, p.lines, States(rest));
      } else {
        assert States(packets) == States(rest);
      }
    }
  }

  lemma LastOf(prev: Lines, lines: Lines, states: seq<Lines>)
    ensures Last(prev, [lines] + states) == Last(lines, states)
  {
  }

  /** The flip buffer grows by the marked payload of every packet, in order. */
  lemma {:induction false} InsertsPayload(st: State, packets: seq<Packet>)
    ensures AfterAll(st, packets).flip == st.flip + Inserted(packets)
    decreases |packets|
  {
    if packets == [] {
      assert st.flip + [] == st.flip;
    } else {
      var next := After(st, packets[0]);
      InsertsPayload(next, packets[1..]);
      FlipAfter(st, packets[0]);
      AppendAll(st.flip, InsertedBy(packets[0]), Inserted(packets[1..]));
    }
  }

  lemma FlipAfter(st: State, p: Packet)
    ensures After(st, p).flip == st.flip + InsertedBy(p)
  {
  }

  /** Every payload byte is counted. */
  lemma {:induction false} CountsPayload(st: State, packets: seq<Packet>)
    ensures AfterAll(st, packets).counts.rx == Counted(st.counts.rx, |Payload(packets)|)
    decreases |packets|
  {
    if packets != [] {
      CountsPayload(After(st, packets[0]), packets[1..]);
      if packets[0].Packet? {
        CountedTwice(st.counts.rx, |packets[0].data|, |Payload(packets[1..])|);
      }
    }
  }

  lemma AppendAll(a: seq<Char>, b: seq<Char>, c: seq<Char>)
    ensures (a + b) + c == a + (b + c)
  {
  }

  lemma {:induction false} WithoutMarksSplit(a: seq<Char>, b: seq<Char>)
    ensures WithoutMarks(a + b) == WithoutMarks(a) + WithoutMarks(b)
    decreases |a|
  {
    if a == [] {
      assert a + b == b;
    } else {
      WithoutMarksSplit(a[1..], b);
      assert (a + b)[0] == a[0] && (a + b)[1..] == a[1..] + b;
      var first := if a[0].flag == Overrun then [] else [a[0].value];
      assert first + (WithoutMarks(a[1..]) + WithoutMarks(b)) == (first + WithoutMarks(a[1..])) + WithoutMarks(b);
    }
  }

  lemma {:induction false} MarkedKeepsBytes(bytes: seq<Octet>, flag: Flag)
    requires flag != Overrun
    ensures WithoutMarks(Marked(bytes, flag)) == bytes
    decreases |bytes|
  {
    if bytes != [] {
      MarkedKeepsBytes(bytes[1..], flag);
      assert Marked(bytes, flag)[1..] == Marked(bytes[1..], flag);
    }
  }

  lemma NoOverrunFlag(raw: seq<seq<Octet>>)
    ensures forall p :: p in DecodeAll(raw) && p.Packet? ==> p.flag != Overrun
  {
    if raw != [] {
      NoOverrunFlag(raw[1..]);
    }
  }

  lemma PacketDelivers(p: Packet)
    requires p.Packet? ==> p.flag != Overrun
    ensures WithoutMarks(InsertedBy(p)) == if p.Packet? then p.data else []
  {
    if p.Packet? {
      WithoutMarksSplit(OverrunMark(p.overrun), Marked(p.data, p.flag));
      MarkedKeepsBytes(p.data, p.flag);
      assert WithoutMarks(OverrunMark(p.overrun)) == [];
    }
  }

  /** Apart from overrun marks, the tty gets exactly the payload of the packets, in order. */
  lemma {:induction false} DeliversPayload(packets: seq<Packet>)
    requires forall p :: p in packets && p.Packet? ==> p.flag != Overrun
    ensures WithoutMarks(Inserted(packets)) == Payload(packets)
    decreases |packets|
  {
    if packets != [] {
      PacketDelivers(packets[0]);
      DeliversPayload(packets[1..]);
      WithoutMarksSplit(InsertedBy(packets[0]), Inserted(packets[1..]));
    }
  }

  /** What happens to any read buffer: apart from overrun marks the tty gets exactly the payload, in order;
      every byte of it is counted; and each modem counter advances by the number of changes of its line. */
  lemma {:induction false} ReadBuffer(st: State, data: seq<Octet>, max: nat)
    requires max > 0
    ensures Delivered(st, AfterAll(st, Packets(data, max)), Packets(data, max))
  {
    var packets := Packets(data, max);
    NoOverrunFlag(Cut(data, max));
    DeliversPayload(packets);
    InsertsPayload(st, packets);
    CountsPayload(st, packets);
    RemembersLast(st, packets);
    RemembersEmpty(st, packets);
    forall f: Flag | f != Normal
      ensures ErrorCounter(AfterAll(st, packets).counts, f) == Counted(ErrorCounter(st.counts, f), Errors(packets, f))
    {
      CountsErrors(st, packets, f);
    }
    forall m: Modem
      ensures Counter(AfterAll(st, packets).counts, m) == Counted(Counter(st.counts, m), Changes(m, st.prev, States(packets)))
    {
      CountsChanges(st, packets, m);
    }
  }

  /** A packet handled again reports the state already known: no counter of a modem line moves. */
  lemma ReprocessingAddsNothing(st: State, p: Packet)
    ensures
      var once, twice := After(st, p), After(After(st, p), p);
      && twice.prev == once.prev
      && twice.counts.cts == once.counts.cts && twice.counts.dsr == once.counts.dsr
      && twice.counts.rng == once.counts.rng && twice.counts.dcd == once.counts.dcd
  {
    if p.Packet? {
      SameLines(After(st, p).counts, p.lines);
    }
  }

  lemma SameLines(c: Counts, lines: Lines)
    ensures ModemCounted(c, lines, lines) == c
  {
  }

  function Joined(raw: seq<seq<Octet>>): seq<Octet> {
    if raw == [] then [] else raw[0] + Joined(raw[1..])
  }

  /** Cutting skips nothing, and only the last packet may be short. */
  lemma {:induction false} CutCovers(data: seq<Octet>, max: nat)
    requires max > 0
    ensures Joined(Cut(data, max)) == data
    ensures forall k :: 0 <= k < |Cut(data, max)| ==>
      0 < |Cut(data, max)[k]| <= max && (k + 1 < |Cut(data, max)| ==> |Cut(data, max)[k]| == max)
    decreases |data|
  {
    if data != [] {
      var len := if |data| < max then |data| else max;
      CutCovers(data[len..], max);
      assert data[..len] + data[len..] == data;
    }
  }

  // ---------------------------------------------------------------- where everything in a buffer is

  /** j * max, step by step. */
  function Start(j: nat, max: nat): nat {
    if j == 0 then 0 else Start(j - 1, max) + max
  }

  lemma {:induction false} StartIsProduct(j: nat, max: nat)
    ensures Start(j, max) == j * max
  {
    if j > 0 {
      StartIsProduct(j - 1, max);
      assert j * max == (j - 1) * max + max;
    }
  }

  lemma {:induction false} CutAt(data: seq<Octet>, max: nat, j: nat)
    requires max > 0 && j < |Cut(data, max)|
    ensures
      var at := Start(j, max);
      && at < |data|
      && Cut(data, max)[j] == data[at..if |data| - at < max then |data| else at + max]
    decreases j
  {
    if j > 0 {
      var at := Start(j - 1, max);
      CutAt(data[max..], max, j - 1);
      SliceShift(data, max, at, if |data| - (at + max) < max then |data| - max else at + max);
    }
  }

  lemma SliceShift(data: seq<Octet>, max: nat, from: nat, to: nat)
    requires from <= to && max + to <= |data|
    ensures data[max..][from..to] == data[from + max..to + max]
  {
  }

  lemma {:induction false} DecodeAllAt(raw: seq<seq<Octet>>, j: nat)
    requires j < |raw|
    ensures DecodeAll(raw)[j] == Decode(raw[j])
  {
    if j > 0 {
      DecodeAllAt(raw[1..], j - 1);
    }
  }

  /** The j-th packet starts at j * max: first the modem lines, then the line status, then its data. */
  lemma {:induction false} PacketAt(data: seq<Octet>, max: nat, j: nat)
    requires max > 0 && j < |Packets(data, max)|
    ensures
      var p, at := Packets(data, max)[j], j * max;
      var len := if |data| - at < max then |data| - at else max;
      && at < |data|
      && (p.Malformed? <==> len < 2)
      && (p.Packet? ==>
            && StatusSays(p, data[at], data[at + 1])
            && |p.data| == len - 2 && forall k :: 0 <= k < len - 2 ==> p.data[k] == data[at + 2 + k])
  {
    CutAt(data, max, j);
    StartIsProduct(j, max);
    DecodeAllAt(Cut(data, max), j);
    var raw := Cut(data, max)[j];
    if |raw| >= 2 {
      StatusBits(raw);
    }
  }

  /** The bits of the two status bytes, as the header ftdi_sio.h numbers them. */
  predicate Bit(b: Octet, n: nat)
    requires n < 8
  {
    (b >> n) & 1 == 1
  }

  predicate StatusSays(p: Packet, modem: Octet, line: Octet)
    requires p.Packet?
  {
    && p.lines == Lines(Bit(modem, 4), Bit(modem, 5), Bit(modem, 6), Bit(modem, 7))
    && p.overrun == Bit(line, 1) && p.empty == Bit(line, 6)
    // the data are marked with the gravest error of three
    && (p.flag == Break <==> Bit(line, 4))
    && (p.flag == Parity <==> Bit(line, 2) && !Bit(line, 4))
    && (p.flag == Frame <==> Bit(line, 3) && !Bit(line, 2) && !Bit(line, 4))
    && p.flag != Overrun
  }

  lemma BitMasks(b: Octet)
    ensures Bit(b, 1) == Has(b, 0x02) && Bit(b, 2) == Has(b, 0x04) && Bit(b, 3) == Has(b, 0x08)
    ensures Bit(b, 4) == Has(b, 0x10) && Bit(b, 5) == Has(b, 0x20) && Bit(b, 6) == Has(b, 0x40) && Bit(b, 7) == Has(b, 0x80)
  {
  }

  lemma StatusBits(raw: seq<Octet>)
    requires |raw| >= 2
    ensures StatusSays(Decode(raw), raw[0], raw[1])
  {
    BitMasks(raw[0]);
    BitMasks(raw[1]);
  }

  /** What one packet inserts, character by character: a NUL marked as overrun if there was one,
      then every data byte under the flag of the packet. */
  lemma {:induction false} InsertedAt(p: Packet, i: nat)
    requires p.Packet?
    ensures |InsertedBy(p)| == One(p.overrun) + |p.data|
    ensures p.overrun ==> InsertedBy(p)[0] == Char(0, Overrun)
    ensures i < |p.data| ==> InsertedBy(p)[One(p.overrun) + i] == Char(p.data[i], p.flag)
  {
    MarkedAt(p.data, p.flag, i);
  }

  lemma {:induction false} MarkedAt(bytes: seq<Octet>, flag: Flag, i: nat)
    ensures |Marked(bytes, flag)| == |bytes|
    ensures i < |bytes| ==> Marked(bytes, flag)[i] == Char(bytes[i], flag)
    decreases |bytes|
  {
    if bytes != [] {
      MarkedAt(bytes[1..], flag, if i == 0 then 0 else i - 1);
    }
  }
}
