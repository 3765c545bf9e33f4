/** Transmit framing of ftdi_sio.c: the first-generation SIO chip wants a length header in front of every packet. */
module FtdiTransmit {
  import opened Arith
  import opened Bits

  // ---------------------------------------------------------------- the format

  /** The header byte `(c << 2) + 1`. */
  function Header(c: nat): byte
    requires c < 64
  {
    c * 4 + 1
  }

  datatype Parse = Malformed | Parsed(data: seq<byte>)

  /** The chip's side: every USB packet of at most `max` bytes is one frame, whose header carries the reserved
      bits 0b01 and the exact number of data bytes behind it. */
  function Deframe(b: seq<byte>, max: nat): Parse
    requires max > 0
    decreases |b|
  {
    if b == [] then Parsed([])
    else
      var packet := b[..Min(max, |b|)];
      if packet[0] % 4 != 1 || packet[0] / 4 != |packet| - 1 then Malformed
      else
        match Deframe(b[|packet|..], max)
        case Malformed => Malformed
        case Parsed(rest) => Parsed(packet[1..] + rest)
  }

  predicate Frame(packet: seq<byte>, max: nat) {
    0 < |packet| <= max && packet[0] % 4 == 1 && packet[0] / 4 == |packet| - 1
  }

  lemma DeframeFull(b: seq<byte>, max: nat)
    requires 0 < max <= |b|
    ensures Deframe(b, max).Parsed? <==> Frame(b[..max], max) && Deframe(b[max..], max).Parsed?
    ensures Deframe(b, max).Parsed? ==> Deframe(b, max).data == b[1..max] + Deframe(b[max..], max).data
  {
    assert b[..max][1..] == b[1..max];
  }

  lemma DeframeOne(frame: seq<byte>, max: nat)
    requires 0 < max && Frame(frame, max)
    ensures Deframe(frame, max) == Parsed(frame[1..])
  {
    assert frame[..|frame|] == frame && frame[|frame|..] == [];
    assert frame[1..] + [] == frame[1..];
  }

  /** Full-size packets only, so that another one can follow. */
  ghost predicate FullPackets(b: seq<byte>, max: nat)
    requires max > 0
    decreases |b|
  {
    b == [] || (|b| >= max && Frame(b[..max], max) && FullPackets(b[max..], max))
  }

  /** A frame behind full packets: its data are added. */
  lemma {:induction false} DeframeAppend(b: seq<byte>, frame: seq<byte>, max: nat)
    requires 0 < max && FullPackets(b, max) && Frame(frame, max)
    ensures Deframe(b, max).Parsed?
    ensures Deframe(b + frame, max) == Parsed(Deframe(b, max).data + frame[1..])
    decreases |b|
  {
    if b == [] {
      assert b + frame == frame;
      DeframeOne(frame, max);
    } else {
      var tail := b[max..];
      DeframeAppend(tail, frame, max);
      SplitFront(b, frame, max);
      DeframeFull(b, max);
      DeframeFull(b + frame, max);
      Associative(b[1..max], Deframe(tail, max).data, frame[1..]);
    }
  }

  lemma SplitFront(b: seq<byte>, c: seq<byte>, n: nat)
    requires 1 <= n <= |b|
    ensures (b + c)[n..] == b[n..] + c && (b + c)[..n] == b[..n] && (b + c)[1..n] == b[1..n]
  {
  }

  lemma Associative(a: seq<byte>, b: seq<byte>, c: seq<byte>)
    ensures a + (b + c) == (a + b) + c
  {
  }

  /** If it is full itself, another one may follow. */
  lemma {:induction false} FullAppend(b: seq<byte>, frame: seq<byte>, max: nat)
    requires 0 < max && FullPackets(b, max) && Frame(frame, max) && |frame| == max
    ensures FullPackets(b + frame, max)
    decreases |b|
  {
    if b == [] {
      assert b + frame == frame && frame[..max] == frame && frame[max..] == [];
    } else {
      FullAppend(b[max..], frame, max);
      SplitFront(b, frame, max);
    }
  }

  // ---------------------------------------------------------------- the driver

  class Port {
    const sio: bool
    const maxPacketSize: nat
    /** port->write_fifo. */
    var fifo: seq<byte>
    /** port->icount.tx, a 32-bit counter. */
    var tx: nat

    constructor (sio: bool, maxPacketSize: nat, fifo: seq<byte>)
      ensures this.sio == sio && this.maxPacketSize == maxPacketSize && this.fifo == fifo && tx == 0
    {
      this.sio, this.maxPacketSize, this.fifo, tx := sio, maxPacketSize, fifo, 0;
    }

    /** kfifo_out: take at most n bytes off the front. */
    method FifoOut(dest: array<byte>, at: nat, n: nat) returns (c: nat)
      requires at + n <= dest.Length
      modifies this`fifo, dest
      ensures c == Min(n, |old(fifo)|)
      ensures fifo == old(fifo)[c..]
      ensures dest[..] == old(dest[..at]) + old(fifo)[..c] + old(dest[at + c..])
    {
      c := Min(n, |fifo|);
      forall k | 0 <= k < c {
        dest[at + k] := fifo[k];
      }
      fifo := fifo[c..];
    }

    /** One round of the framing loop: header and data of the packet at position i, or nothing.
        `frames` are the full packets before it, which carry `taken`; `whole` includes the new one. */
    method WriteFrame(dest: array<byte>, i: nat, size: nat, ghost frames: seq<byte>, ghost taken: seq<byte>)
        returns (c: nat, ghost whole: seq<byte>)
      requires i + 1 < size <= dest.Length && 2 <= maxPacketSize <= 64 && tx < WORD32
      requires fifo != [] ==>
        dest[..i] == frames && FullPackets(frames, maxPacketSize) && Deframe(frames, maxPacketSize) == Parsed(taken)
      modifies this`fifo, this`tx, dest
      ensures c == Min(Min(size - i, maxPacketSize) - 1, |old(fifo)|)
      ensures fifo == old(fifo)[c..] && tx == Counted(old(tx), c) && dest[size..] == old(dest[size..])
      ensures c == 0 ==> dest[..] == old(dest[..])
      ensures c > 0 ==>
        && dest[..i + c + 1] == whole && Deframe(whole, maxPacketSize) == Parsed(taken + old(fifo)[..c])
        && (c + 1 == maxPacketSize ==> FullPackets(whole, maxPacketSize))
    {
      var len := Min(size - i, maxPacketSize) - 1;
      whole := frames + [Header(Min(len, |fifo|))] + fifo[..Min(len, |fifo|)];
      ghost var data := fifo;
      c := PutFrame(dest, i, len);
      assert dest[size..] == dest[i + len + 1..][size - (i + len + 1)..];
      assert old(dest[size..]) == old(dest[i + len + 1..])[size - (i + len + 1)..];
      if c > 0 {
        tx := Counted(tx, c);
        FrameAdded(frames, data[..c], whole, taken, maxPacketSize);
      }
    }

    /** The bytes of one frame: kfifo_out behind the place of the header, then the header. */
    method PutFrame(dest: array<byte>, i: nat, len: nat) returns (c: nat)
      requires i + 1 + len <= dest.Length && len < 64
      modifies this`fifo, dest
      ensures c == Min(len, |old(fifo)|) && fifo == old(fifo)[c..]
      ensures dest[i + len + 1..] == old(dest[i + len + 1..])
      ensures c == 0 ==> dest[..] == old(dest[..])
      ensures c > 0 ==> dest[..i + c + 1] == old(dest[..i]) + [Header(c)] + old(fifo)[..c]
    {
      c := FifoOut(dest, i + 1, len);
      assert forall k :: i + len + 1 <= k < dest.Length ==> dest[..][k] == old(dest[..])[k];
      if c > 0 {
        dest[i] := c * 4 + 1;
      }
    }

    /** The framing loop of the SIO chip; `taken` are the bytes it takes from the FIFO,
        `frames` the packets it writes. */
    method WriteFrames(dest: array<byte>, size: nat)
        returns (count: nat, ghost taken: seq<byte>, ghost frames: seq<byte>)
      requires 1 <= size <= dest.Length && 2 <= maxPacketSize <= 64 && tx < WORD32
      modifies this`fifo, this`tx, dest
      ensures count <= size && dest[size..] == old(dest[size..])
      ensures old(fifo) == taken + fifo && tx == Counted(old(tx), |taken|)
      ensures dest[..count] == frames && Deframe(frames, maxPacketSize) == Parsed(taken)
      ensures fifo == [] || size - count < 2
    {
      count := 0;
      var i := 0;
      taken, frames := [], [];
      while i < size - 1
        invariant |frames| == count <= size && dest[..count] == frames
        invariant tx < WORD32 && dest[size..] == old(dest[size..])
        invariant old(fifo) == taken + fifo && tx == Counted(old(tx), |taken|)
        invariant Deframe(frames, maxPacketSize) == Parsed(taken)
        invariant fifo == [] || count == Min(i, size)
        invariant count == i ==> FullPackets(frames, maxPacketSize)
        decreases size - i
      {
        ghost var data := fifo;
        var c, whole := WriteFrame(dest, i, size, frames, taken);
        if c == 0 {
          assert dest[..count] == dest[..][..count];
          break;
        }
        CountedTwice(old(tx), |taken|, c);
        Associative(taken, data[..c], fifo);
        assert data == data[..c] + fifo;
        taken, frames := taken + data[..c], whole;
        count := count + c + 1;
        i := i + maxPacketSize;
      }
    }

    /** ftdi_prepare_write_buffer. On the SIO chip the first `count` bytes are packets framed as the chip expects,
        and their data are exactly the bytes taken from the FIFO; it stops only when the FIFO is empty
        or no further frame with data fits. On other chips the bytes are copied bare. */
    method PrepareWriteBuffer(dest: array<byte>, size: nat) returns (count: nat)
      requires 1 <= size <= dest.Length && tx < WORD32
      requires sio ==> 2 <= maxPacketSize <= 64
      modifies this`fifo, this`tx, dest
      ensures count <= size && |fifo| <= |old(fifo)| && dest[size..] == old(dest[size..])
      ensures
        var taken := old(fifo)[..|old(fifo)| - |fifo|];
        && old(fifo) == taken + fifo
        && tx == Counted(old(tx), |taken|)
        && (if sio then Deframe(dest[..count], maxPacketSize) == Parsed(taken) else dest[..count] == taken)
      ensures fifo == [] || (if sio then size - count < 2 else count == size)
    {
      if sio {
        ghost var taken, frames;
        count, taken, frames := WriteFrames(dest, size);
        assert old(fifo)[..|taken|] == taken;
      } else {
        count := FifoOut(dest, 0, size);
        tx := Counted(tx, count);
      }
    }
  }

  lemma FrameAdded(frames: seq<byte>, data: seq<byte>, whole: seq<byte>, taken: seq<byte>, max: nat)
    requires 2 <= max <= 64 && 0 < |data| < max && whole == frames + [Header(|data|)] + data
    requires FullPackets(frames, max) && Deframe(frames, max) == Parsed(taken)
    ensures Deframe(whole, max) == Parsed(taken + data)
    ensures |data| + 1 == max ==> FullPackets(whole, max)
  {
    var frame := [Header(|data|)] + data;
    assert frame[1..] == data && whole == frames + frame;
    DeframeAppend(frames, frame, max);
    if |frame| == max {
      FullAppend(frames, frame, max);
    }
  }
}
