/** The PL2303 baud rate encoding of pl2303.c: a table of directly supported rates, a divisor for the others. */
module Pl2303Baud {
  import opened Arith
  import opened Bits

  const RATES: seq<nat> := [
    75, 150, 300, 600, 1200, 1800, 2400, 3600, 4800, 7200, 9600,
    14400, 19200, 28800, 38400, 57600, 115200, 230400, 460800,
    614400, 921600, 1228800, 2457600, 3000000, 6000000
  ]

  // ---------------------------------------------------------------- the table of supported rates

  /** `rate` is the table's nearest rate to `baud`, the higher one on a tie. */
  ghost predicate NearestRate(rate: nat, baud: nat) {
    && rate in RATES
    && forall k :: 0 <= k < |RATES| ==>
         Gap(rate, baud) < Gap(RATES[k], baud) || (Gap(rate, baud) == Gap(RATES[k], baud) && RATES[k] <= rate)
  }

  lemma TableAscends()
    ensures forall k, l :: 0 <= k < l < |RATES| ==> RATES[k] < RATES[l]
  {
  }

  /** Around the first table rate above `baud` only two candidates remain. */
  lemma Neighbours(baud: nat, i: nat)
    requires i <= |RATES|
    requires forall k :: 0 <= k < i ==> RATES[k] <= baud
    requires i < |RATES| ==> RATES[i] > baud
    ensures forall k :: 0 <= k < i ==> RATES[k] <= RATES[i - 1]
    ensures forall k :: i <= k < |RATES| ==> RATES[i] <= RATES[k]
    ensures baud in RATES ==> i > 0 && RATES[i - 1] == baud
  {
    TableAscends();
    if baud in RATES {
      var k :| 0 <= k < |RATES| && RATES[k] == baud;
      assert k < i;
      assert k == i - 1;
    }
  }

  /** pl2303_get_supported_baud_rate. */
  method GetSupportedBaudRate(baud: nat) returns (rate: nat)
    ensures NearestRate(rate, baud)
    ensures rate == baud <==> baud in RATES
  {
    var i := 0;
    while i < |RATES|
      invariant 0 <= i <= |RATES|
      invariant forall k :: 0 <= k < i ==> RATES[k] <= baud
    {
      if RATES[i] > baud {
        break;
      }
      i := i + 1;
    }
    Neighbours(baud, i);
    if i == |RATES| {
      rate := RATES[i - 1];
    } else if i > 0 && RATES[i] - baud > baud - RATES[i - 1] {
      rate := RATES[i - 1];
    } else {
      rate := RATES[i];
    }
  }

  /** Halfway between 14400 and 19200 the higher rate is taken. */
  lemma TieGoesUp(rate: nat)
    requires NearestRate(rate, 16800)
    ensures rate == 19200
  {
    assert RATES[11] == 14400 && RATES[12] == 19200;
    assert rate <= 14400 || rate >= 19200 by {
      TableAscends();
    }
  }

  // ---------------------------------------------------------------- the divisor loop

  /** How often the loop divides by four until the rest fits a byte. */
  function Steps(t: nat): nat {
    if t < 256 then 0 else 1 + Steps(t / 4)
  }

  /** The clock divided by the rate: what the divisor bytes have to express. */
  function Division(baud: nat): nat
    requires baud > 0
  {
    12000000 * 32 / baud
  }

  /** The shift byte after k rounds: set to 1 before the first one, doubled in each, and only a byte wide. */
  function ShiftByte(k: nat): (b: nat)
    ensures b < 256
  {
    if k == 0 then 0 else Pow2(k) % 256
  }

  /** k shifts right by two. */
  function Quartered(t: nat, k: nat): nat {
    if k == 0 then t else Quartered(t / 4, k - 1)
  }

  /** It is t / 4^k rounded down. */
  lemma {:induction false} QuarteredIsFloor(t: nat, k: nat)
    ensures Quartered(t, k) * Pow2(2 * k) <= t < (Quartered(t, k) + 1) * Pow2(2 * k)
  {
    if k > 0 {
      QuarteredIsFloor(t / 4, k - 1);
      var q, p := Quartered(t, k), Pow2(2 * (k - 1));
      assert Pow2(2 * k) == 4 * p;
      FourTimes(q, p);
      FourTimes(q + 1, p);
    }
  }

  lemma FourTimes(a: nat, b: nat)
    ensures a * (4 * b) == 4 * (a * b)
  {
  }

  /** `Steps` is the least k for which t / 4^k is below 256, and leaves at least 64 once it is positive. */
  lemma {:induction false} StepsIsLeast(t: nat, k: nat)
    ensures Quartered(t, k) < 256 <==> Steps(t) <= k
    ensures k == Steps(t) > 0 ==> Quartered(t, k) >= 64
  {
    if k > 0 {
      StepsIsLeast(t / 4, k - 1);
    }
  }

  /** pl2303_encode_baud_rate_divisor. */
  method EncodeDivisor(buf: array<byte>, baud: nat)
    requires buf.Length >= 4 && 0 < baud
    modifies buf
    ensures
      var t := Division(baud);
      buf[..4] == [Quartered(t, Steps(t)), ShiftByte(Steps(t)), 0, 0x80]
    ensures buf[4..] == old(buf[4..])
  {
    ghost var t := Division(baud);
    var tmp := Division(baud);
    buf[3] := 0x80;
    buf[2] := 0;
    buf[1] := if tmp >= 256 then 1 else 0;
    ghost var k := 0;
    while tmp >= 256
      invariant Quartered(t, Steps(t)) == Quartered(tmp, Steps(tmp))
      invariant Steps(t) == k + Steps(tmp)
      invariant buf[3] == 0x80 && buf[2] == 0 && buf[4..] == old(buf[4..])
      invariant buf[1] == if t < 256 then 0 else Pow2(k) % 256
    {
      ByteDoubles(Pow2(k));
      tmp := tmp / 4;
      buf[1] := (buf[1] as int * 2) % 256;
      k := k + 1;
    }
    buf[0] := tmp;
  }

  lemma ByteDoubles(p: nat)
    ensures p % 256 * 2 % 256 == 2 * p % 256
  {
    var q, r := p / 256, p % 256;
    if r < 128 {
      Remainder(2 * p, 2 * q, 2 * r);
    } else {
      Remainder(2 * p, 2 * q + 1, 2 * r - 256);
      Remainder(2 * r, 1, 2 * r - 256);
    }
  }

  lemma Remainder(a: nat, q: nat, r: nat)
    requires a == 256 * q + r && r < 256
    ensures a % 256 == r && a / 256 == q
  {
  }

  // ---------------------------------------------------------------- the documented formula

  lemma Pow2Monotone(i: nat, j: nat)
    requires i <= j
    ensures Pow2(i) <= Pow2(j)
  {
    if i < j {
      Pow2Monotone(i, j - 1);
    }
  }

  lemma Pow2Add(i: nat, j: nat)
    ensures Pow2(i + j) == Pow2(i) * Pow2(j)
  {
    if i > 0 {
      Pow2Add(i - 1, j);
      assert Pow2(i + j) == 2 * Pow2((i - 1) + j);
    }
  }

  /** The comment's formula, as bounds: the rate is 12M * 32 / 2^buf[1] / buf[0], rounded like the division. */
  ghost predicate FormulaHolds(t: nat, low: nat, shift: nat) {
    low * Pow2(shift) <= t < (low + 1) * Pow2(shift)
  }

  /** Doubling the shift byte while the divisor is quartered agrees with the formula only for the first
      two rounds: the formula holds exactly for the rates above 93750 baud. */
  lemma {:induction false} FormulaHoldsAbove93750(baud: nat)
    requires 0 < baud
    ensures
      var t := Division(baud);
      var k := Steps(t);
      && (FormulaHolds(t, Quartered(t, k), ShiftByte(k)) <==> k <= 2)
      && (k <= 2 <==> baud > 93750)
  {
    var t := Division(baud);
    var k := Steps(t);
    QuarteredIsFloor(t, k);
    StepsIsLeast(t, k);
    StepsIsLeast(t, 2);
    QuarteredTwice(t);
    FourTimesFour(baud);
    if k <= 2 {
      assert ShiftByte(k) == 2 * k;
    } else if k < 8 {
      ShiftTooLarge(t, k, Quartered(t, k));
    } else {
      ShiftVanishes(t, k);
    }
  }

  lemma QuarteredTwice(t: nat)
    ensures Quartered(t, 2) == t / 4 / 4
  {
    assert Quartered(t / 4, 1) == Quartered(t / 4 / 4, 0);
  }

  lemma FourTimesFour(baud: nat)
    requires 0 < baud
    ensures Division(baud) / 4 / 4 < 256 <==> baud > 93750
  {
    var t := Division(baud);
    assert t * baud <= 384000000 < (t + 1) * baud;
    if baud > 93750 {
      ProductOrder(4096, t, baud);
    } else {
      ProductOrder(t + 1, 4096, baud);
    }
  }

  lemma ShiftTooLarge(t: nat, k: nat, low: nat)
    requires 3 <= k < 8 && low >= 64 && t < (low + 1) * Pow2(2 * k) && low < 256
    ensures !FormulaHolds(t, low, ShiftByte(k))
  {
    assert Pow2(3) == 8 && Pow2(4) == 16 && Pow2(5) == 32 && Pow2(6) == 64 && Pow2(7) == 128;
    var shift := ShiftByte(k);
    assert shift >= 2 * k + 2;
    Pow2Monotone(2 * k + 2, shift);
    assert Pow2(2 * k + 2) == 4 * Pow2(2 * k);
    ProductOrder(low + 1, 256, Pow2(2 * k));
    ProductOrder(64, low, Pow2(shift));
  }

  lemma ShiftVanishes(t: nat, k: nat)
    requires k == Steps(t) && k >= 8
    ensures ShiftByte(k) == 0 && !FormulaHolds(t, Quartered(t, k), ShiftByte(k))
  {
    assert Pow2(8) == 256;
    Pow2Add(8, k - 8);
    StepsIsLeast(t, k);
  }

  /** The shift byte is 2^k for one to seven rounds; from the eighth on all its bits have been shifted out. */
  lemma {:induction false} ShiftByteIsPower(k: nat)
    ensures ShiftByte(k) == if 1 <= k <= 7 then Pow2(k) else 0
  {
    if 1 <= k <= 7 {
      Pow2Monotone(k, 7);
      assert Pow2(7) == 128;
    } else if k >= 8 {
      assert Pow2(8) == 256;
      Pow2Add(8, k - 8);
    }
  }

  /** In terms of the rate: the shift byte is 0 without any round, above 1500000 baud, and where it has overflowed,
      up to 91 baud. */
  lemma {:induction false} ShiftByteLostUpTo91(baud: nat)
    requires 0 < baud
    ensures ShiftByte(Steps(Division(baud))) == 0 <==> baud > 1500000 || baud <= 91
  {
    var t := Division(baud);
    ShiftByteIsPower(Steps(t));
    StepsIsLeast(t, 0);
    StepsIsLeast(t, 7);
    QuarteredIsFloor(t, 7);
    SeventhQuarter(t, Quartered(t, 7));
    QuotientAtLeast(384000000, baud, 256);
    QuotientAtLeast(384000000, baud, 256 * 16384);
  }

  lemma SeventhQuarter(t: nat, q: nat)
    requires q * Pow2(14) <= t < (q + 1) * Pow2(14)
    ensures q < 256 <==> t < 256 * 16384
  {
    assert Pow2(14) == 16384 by {
      Pow2Add(7, 7);
      assert Pow2(7) == 128;
    }
  }

  // ---------------------------------------------------------------- the whole encoding

  /** A little-endian 32-bit word. */
  function Le32(v: nat): seq<byte> {
    [v % 256, v / 0x100 % 256, v / 0x1_0000 % 256, v / 0x100_0000 % 256]
  }

  function FromLe32(b: seq<byte>): nat
    requires |b| == 4
  {
    b[0] as nat + 0x100 * b[1] as nat + 0x1_0000 * b[2] as nat + 0x100_0000 * b[3] as nat
  }

  function Limited(baud: nat, maxBaud: nat): nat {
    if maxBaud != 0 && maxBaud < baud then maxBaud else baud
  }

  /** pl2303_encode_baud_rate; `reported` is the rate encoded back into the tty, or 0 where it is left alone.
      The device can tell the two forms apart by the top byte, and a direct word is the rate itself. */
  method EncodeBaudRate(buf: array<byte>, requested: nat, maxBaud: nat) returns (reported: nat)
    requires buf.Length >= 4
    modifies buf
    ensures requested == 0 ==> reported == 0 && buf[..] == old(buf[..])
    ensures requested != 0 ==> reported <= requested && (maxBaud != 0 ==> reported <= maxBaud)
    ensures requested != 0 ==> reported == requested || reported == maxBaud != 0
    ensures requested != 0 ==> reported == Limited(requested, maxBaud)
    ensures requested != 0 && reported in RATES ==> buf[3] == 0 && FromLe32(buf[..4]) == reported
    ensures requested != 0 && reported !in RATES ==>
      var t := Division(reported);
      buf[..4] == [Quartered(t, Steps(t)), ShiftByte(Steps(t)), 0, 0x80]
  {
    if requested == 0 {
      return 0;
    }
    var baud := Limited(requested, maxBaud);
    var supported := GetSupportedBaudRate(baud);
    if baud == supported {
      var word := Le32(baud);
      buf[0], buf[1], buf[2], buf[3] := word[0], word[1], word[2], word[3];
      assert buf[..4] == word;
      DirectWord(baud);
    } else {
      EncodeDivisor(buf, baud);
    }
    return baud;
  }

  lemma DirectWord(rate: nat)
    requires rate in RATES
    ensures FromLe32(Le32(rate)) == rate && Le32(rate)[3] == 0
  {
    var q := rate / 0x100;
    assert rate <= 6000000;
    Bytes(rate, rate % 0x100, q % 0x100, q / 0x100);
  }

  lemma Bytes(v: nat, a: nat, b: nat, c: nat)
    requires a < 256 && b < 256 && c < 256 && v == 0x1_0000 * c + (0x100 * b + a)
    ensures Le32(v) == [a, b, c, 0]
  {
    Remainder(v, 0x100 * c + b, a);
    Remainder(0x100 * c + b, c, b);
    assert v / 0x1_0000 == c && v / 0x100_0000 == 0;
  }
}
