/** The fractional baud rate divisors of the FTDI chips (ftdi.c and ftdi_sio.c).

    A divisor is held in eighths: `base / 2 / baud`, or `base * 8 / (baud * 10)` on the hi-speed chips.
    On the wire it is a 14-bit integer part, a 3-bit code for the eighths above it,
    and two values set aside: 0 for the divisor 1 and 1 for the divisor 1.5. */
module FtdiDivisor {
  import opened Arith
  import opened Bits

  const BASE: nat := 48000000
  const HIGH_BASE: nat := 120000000

  /** The first number of eighths whose integer part no longer fits its 14 bits. */
  const LIMIT: nat := 0x2_0000

  // ---------------------------------------------------------------- encoders

  /** `divfrac`, the wire code of a number of eighths. */
  function FractionCode(eighths: nat): (code: nat)
    requires eighths < 8
    ensures code < 8
  {
    if eighths == 1 then 3 else if eighths == 3 then 4 else if eighths == 4 then 1 else eighths
  }

  /** A BM wire value: integer part, fraction code, special cases for the highest baud rates. */
  function BmWord(whole: nat, eighths: nat): nat
    requires eighths < 8
  {
    var divisor := BitOr(whole, FractionCode(eighths) * 0x4000);
    if divisor == 1 then 0
    else if divisor == 0x4001 then 1
    else divisor
  }

  /** ftdi_232bm_baud_base_to_divisor, from the divisor in eighths. */
  function EncodeBm(divisor3: nat): nat {
    BmWord(divisor3 / 8, divisor3 % 8)
  }

  /** ftdi_2232h_baud_base_to_divisor: the same code with the divide-by-2.5 switched off in bit 17. */
  function EncodeH(divisor3: nat): nat {
    BitOr(EncodeBm(divisor3), 0x2_0000)
  }

  function AmWord(whole: nat, eighths: nat): nat {
    if eighths == 1 then BitOr(whole, 0xc000)
    else if eighths >= 4 then BitOr(whole, 0x4000)
    else if eighths != 0 then BitOr(whole, 0x8000)
    else if whole == 1 then 0
    else whole
  }

  /** ftdi_232am_baud_base_to_divisor: 7/8 is rounded up first, and the integer part is an unsigned short. */
  function EncodeAm(divisor3: nat): nat {
    var d := if divisor3 % 8 == 7 then divisor3 + 1 else divisor3;
    AmWord(d / 8 % WORD16, d % 8)
  }

  function Quotient(a: nat, b: nat): nat
    requires b > 0
  {
    a / b
  }

  /** `base / 2 / baud`. */
  function Eighths(base: nat, baud: nat): nat
    requires baud > 0
  {
    Quotient(base / 2, baud)
  }

  /** `base * 8 / (baud * 10)`: hi-speed chips sample a bit 10 times instead of 16. */
  function EighthsH(base: nat, baud: nat): nat
    requires baud > 0
  {
    Quotient(base * 8, baud * 10)
  }

  // ---------------------------------------------------------------- the device side

  /** The eighths a 3-bit fraction code stands for. */
  function FractionValue(code: nat): (eighths: nat)
    requires code < 8
    ensures eighths < 8
  {
    if code == 1 then 4 else if code == 3 then 1 else if code == 4 then 3 else code
  }

  /** The divisor, in eighths, that a wire value selects; bits above the fraction code do not take part. */
  function Decode(value: nat): (divisor3: nat)
    ensures divisor3 < LIMIT
  {
    var v := value % LIMIT;
    if v == 0 then 8
    else if v == 1 then 12
    else v % 0x4000 * 8 + FractionValue(v / 0x4000)
  }

  /** What each fraction code adds to the divisor, in eighths, as the header ftdi_sio.h lists it. */
  const CODE_TABLE: seq<nat> := [0, 4, 2, 1, 3, 5, 6, 7]

  /** Both directions of the code agree with that table. */
  lemma FractionTable(whole: nat, code: nat)
    requires whole < 0x4000 && code < 8 && whole + code * 0x4000 > 1
    ensures Decode(whole + code * 0x4000) == whole * 8 + CODE_TABLE[code]
    ensures FractionCode(CODE_TABLE[code]) == code
  {
    DecodeFields(whole, code);
  }

  // ---------------------------------------------------------------- lossless encodings

  lemma FieldsDisjoint(whole: nat, code: nat)
    requires whole < 0x4000
    ensures BitOr(whole, code * 0x4000) == whole + code * 0x4000
  {
    assert Pow2(14) == 0x4000 by {
      assert Pow2(7) == 128 && Pow2(14) == 2 * 2 * 2 * 2 * 2 * 2 * 2 * Pow2(7);
    }
    DisjointOr(whole, code, 14);
  }

  /** Decoding picks the two fields apart again, outside the two special values. */
  lemma DecodeFields(whole: nat, code: nat)
    requires whole < 0x4000 && code < 8
    ensures
      var v := whole + code * 0x4000;
      v < LIMIT && (v > 1 ==> Decode(v) == whole * 8 + FractionValue(code))
  {
    var v := whole + code * 0x4000;
    assert v < LIMIT && v % LIMIT == v;
    assert v / 0x4000 == code && v % 0x4000 == whole;
  }

  lemma BmWordFields(whole: nat, eighths: nat)
    requires whole < 0x4000 && eighths < 8
    ensures
      BmWord(whole, eighths) ==
        if whole == 1 && eighths == 0 then 0
        else if whole == 1 && eighths == 4 then 1
        else whole + FractionCode(eighths) * 0x4000
  {
    FieldsDisjoint(whole, FractionCode(eighths));
  }

  lemma DecodeBmWord(whole: nat, eighths: nat)
    requires whole < 0x4000 && eighths < 8 && 0 < whole + eighths
    ensures BmWord(whole, eighths) < LIMIT
    ensures Decode(BmWord(whole, eighths)) == whole * 8 + eighths
  {
    BmWordFields(whole, eighths);
    if !(whole == 1 && (eighths == 0 || eighths == 4)) {
      assert whole + FractionCode(eighths) * 0x4000 > 1;
      DecodeFields(whole, FractionCode(eighths));
    }
  }

  /** The BM encoding is decoded without loss exactly for the nonzero divisors below 16384. */
  lemma {:induction false} BmRoundTrip(divisor3: nat)
    ensures Decode(EncodeBm(divisor3)) == divisor3 <==> 1 <= divisor3 < LIMIT
  {
    if 1 <= divisor3 < LIMIT {
      DecodeBmWord(divisor3 / 8, divisor3 % 8);
    } else if divisor3 == 0 {
      FieldsDisjoint(0, 0);
    }
  }

  /** Hence it is injective there. */
  lemma {:induction false} BmInjective(a: nat, b: nat)
    requires 1 <= a < LIMIT && 1 <= b < LIMIT && EncodeBm(a) == EncodeBm(b)
    ensures a == b
  {
    BmRoundTrip(a);
    BmRoundTrip(b);
  }

  /** The hi-speed flag disturbs nothing. */
  lemma {:induction false} HRoundTrip(divisor3: nat)
    requires 1 <= divisor3 < LIMIT
    ensures Decode(EncodeH(divisor3)) == divisor3
    ensures EncodeH(divisor3) / LIMIT == 1
  {
    var v := EncodeBm(divisor3);
    DecodeBmWord(divisor3 / 8, divisor3 % 8);
    FlagDisjoint(v);
    FlagIgnored(v);
  }

  lemma FlagDisjoint(value: nat)
    requires value < LIMIT
    ensures BitOr(value, 0x2_0000) == value + LIMIT
  {
    assert Pow2(17) == 0x2_0000 by {
      assert Pow2(9) == 512 && Pow2(17) == 2 * 2 * 2 * 2 * 2 * 2 * 2 * 2 * Pow2(9);
    }
    DisjointOr(value, 1, 17);
  }

  lemma FlagIgnored(value: nat)
    requires value < LIMIT
    ensures Decode(value + LIMIT) == Decode(value) && (value + LIMIT) / LIMIT == 1
  {
    assert (value + LIMIT) % LIMIT == value && value % LIMIT == value;
  }

  // ---------------------------------------------------------------- the AM chip's coarser fractions

  /** What the AM chip can divide by: fractions 0, 1/8, 1/4 and 1/2. */
  predicate AmDivisor(divisor3: nat) {
    divisor3 % 8 in {0, 1, 2, 4}
  }

  /** `a` is the nearest AM divisor to `d`, the lower one on a tie. */
  ghost predicate NearestAm(a: nat, d: nat) {
    && AmDivisor(a)
    && forall b: nat :: AmDivisor(b) ==> Gap(a, d) < Gap(b, d) || (Gap(a, d) == Gap(b, d) && a <= b)
  }

  function SnapEighths(eighths: nat): nat
    requires eighths < 8
  {
    if eighths == 3 then 2 else if eighths == 7 then 8 else if eighths >= 4 then 4 else eighths
  }

  function SnapAm(d: nat): nat {
    d / 8 * 8 + SnapEighths(d % 8)
  }

  lemma SnapIsNearest(d: nat)
    ensures NearestAm(SnapAm(d), d)
  {
    var a := SnapAm(d);
    forall b: nat | AmDivisor(b)
      ensures Gap(a, d) < Gap(b, d) || (Gap(a, d) == Gap(b, d) && a <= b)
    {
      if b / 8 < d / 8 {
        assert b <= d / 8 * 8 - 4;
      } else if b / 8 > d / 8 {
        assert b >= d / 8 * 8 + 8;
      }
    }
  }

  lemma NearestAmUnique(a: nat, b: nat, d: nat)
    requires NearestAm(a, d) && NearestAm(b, d)
    ensures a == b
  {
  }

  lemma AmWordFields(whole: nat, eighths: nat)
    requires whole < 0x4000 && eighths < 7
    ensures
      var code := if eighths == 0 then 0 else if eighths == 1 then 3 else if eighths >= 4 then 1 else 2;
      AmWord(whole, eighths) == if whole == 1 && eighths == 0 then 0 else whole + code * 0x4000
  {
    FieldsDisjoint(whole, 3);
    FieldsDisjoint(whole, 2);
    FieldsDisjoint(whole, 1);
  }

  lemma DecodeAmWord(whole: nat, eighths: nat)
    requires whole < 0x4000 && eighths < 7 && 0 < whole + eighths
    ensures Decode(AmWord(whole, eighths)) == whole * 8 + SnapEighths(eighths)
  {
    AmWordFields(whole, eighths);
    DecodeFields(whole, if eighths == 0 then 0 else if eighths == 1 then 3 else if eighths >= 4 then 1 else 2);
  }

  lemma EncodeAmParts(divisor3: nat)
    requires divisor3 < LIMIT
    ensures
      EncodeAm(divisor3) ==
        if divisor3 % 8 == 7 then AmWord(divisor3 / 8 + 1, 0) else AmWord(divisor3 / 8, divisor3 % 8)
  {
    RoundedParts(divisor3);
  }

  lemma RoundedParts(divisor3: nat)
    requires divisor3 < LIMIT
    ensures divisor3 / 8 % WORD16 == divisor3 / 8 && (divisor3 / 8 + 1) % WORD16 == divisor3 / 8 + 1
    ensures divisor3 % 8 == 7 ==> (divisor3 + 1) / 8 == divisor3 / 8 + 1 && (divisor3 + 1) % 8 == 0
  {
  }

  lemma AmRoundTrip(divisor3: nat)
    requires 1 <= divisor3 < LIMIT - 1
    ensures Decode(EncodeAm(divisor3)) == SnapAm(divisor3)
  {
    var whole, eighths := divisor3 / 8, divisor3 % 8;
    EncodeAmParts(divisor3);
    if eighths == 7 {
      assert whole + 1 < 0x4000;
      DecodeAmWord(whole + 1, 0);
    } else {
      DecodeAmWord(whole, eighths);
    }
  }

  /** The AM encoding selects the nearest divisor the chip has, exactly while that divisor fits. */
  lemma {:induction false} AmSelectsNearest(divisor3: nat)
    ensures NearestAm(Decode(EncodeAm(divisor3)), divisor3) <==> 1 <= divisor3 < LIMIT - 1
  {
    SnapIsNearest(divisor3);
    if 1 <= divisor3 < LIMIT - 1 {
      AmRoundTrip(divisor3);
    } else {
      SnapOutOfReach(divisor3);
      if NearestAm(Decode(EncodeAm(divisor3)), divisor3) {
        NearestAmUnique(Decode(EncodeAm(divisor3)), SnapAm(divisor3), divisor3);
      }
    }
  }

  lemma SnapOutOfReach(divisor3: nat)
    requires divisor3 == 0 || LIMIT - 1 <= divisor3
    ensures SnapAm(divisor3) != Decode(EncodeAm(divisor3))
  {
    if divisor3 == 0 {
      EncodeAmParts(0);
      assert AmWord(0, 0) == 0;
    } else {
      assert SnapAm(divisor3) >= LIMIT;
    }
  }

  /** AM and BM agree exactly on the fractions both have, except that the AM code lacks the special value for 1.5. */
  lemma {:induction false} AmCoincidesWithBm(divisor3: nat)
    requires 1 <= divisor3 < LIMIT
    ensures EncodeAm(divisor3) == EncodeBm(divisor3) <==> AmDivisor(divisor3) && divisor3 != 12
  {
    var whole, eighths := divisor3 / 8, divisor3 % 8;
    EncodeAmParts(divisor3);
    WordsAgree(whole, eighths);
    assert divisor3 == 12 <==> whole == 1 && eighths == 4;
  }

  lemma WordsAgree(whole: nat, eighths: nat)
    requires whole < 0x4000 && eighths < 8 && 0 < whole + eighths
    ensures eighths < 7 ==>
      (AmWord(whole, eighths) == BmWord(whole, eighths) <==> eighths in {0, 1, 2, 4} && !(whole == 1 && eighths == 4))
    ensures eighths == 7 ==> AmWord(whole + 1, 0) < BmWord(whole, 7)
  {
    BmWordFields(whole, eighths);
    if eighths < 7 {
      AmWordFields(whole, eighths);
    }
  }

  // ---------------------------------------------------------------- rates

  /** A divisor of `d` eighths gives `clock / d` baud. */
  ghost predicate RateWithinOnePart(clock: nat, d: nat, baud: nat) {
    && d > 0
    && baud * d <= clock            // never slower than requested
    && clock < baud * (d + 1)       // clock / d exceeds the request by less than one part in d
  }

  lemma FloorIsOnePart(clock: nat, baud: nat)
    requires 0 < baud <= clock
    ensures RateWithinOnePart(clock, clock / baud, baud)
  {
    assert clock / baud * baud <= clock < (clock / baud + 1) * baud;
  }

  lemma EighthsLimits(clock: nat, baud: nat, limit: nat)
    requires baud > 0
    ensures clock / baud < limit <==> clock < limit * baud
  {
    QuotientAtLeast(clock, baud, limit);
  }

  /** Every rate the driver lets through reaches a BM chip undistorted exactly from 184 baud on:
      the decoded divisor is the exact quotient rounded down. */
  lemma {:induction false} BmRate(baud: nat)
    requires 0 < baud <= 3000000
    ensures
      var d := Decode(EncodeBm(Eighths(BASE, baud)));
      && (d == Eighths(BASE, baud) <==> baud >= 184)
      && (baud >= 184 ==> d >= 8 && RateWithinOnePart(BASE / 2, d, baud))
  {
    var d := Eighths(BASE, baud);
    BmRoundTrip(d);
    EighthsLimits(BASE / 2, baud, LIMIT);
    EighthsLimits(BASE / 2, baud, 8);
    FloorIsOnePart(BASE / 2, baud);
  }

  lemma {:induction false} HRate(baud: nat)
    requires 1200 <= baud <= 12000000
    ensures
      var d := Decode(EncodeH(EighthsH(HIGH_BASE, baud)));
      && 8 <= d == EighthsH(HIGH_BASE, baud)
      && RateWithinOnePart(HIGH_BASE * 8, d, baud * 10)
  {
    EighthsLimits(HIGH_BASE * 8, baud * 10, LIMIT);
    EighthsLimits(HIGH_BASE * 8, baud * 10, 8);
    HRoundTrip(EighthsH(HIGH_BASE, baud));
    FloorIsOnePart(HIGH_BASE * 8, baud * 10);
  }

  // ---------------------------------------------------------------- get_ftdi_divisor

  datatype Chip = SIO | FT8U232AM | FT232BM | FT2232C | FT232RL | FT2232H | FT4232H | FT232H | FTX
  {
    predicate HiSpeed() { FT2232H? || FT4232H? || FT232H? }

    /** The chips whose baud rate request also carries the interface number. */
    predicate MultiPort() { FT2232C? || HiSpeed() }
  }

  /** What the port remembers: `custom` says that flags select the custom divisor. */
  datatype Port = Port(chip: Chip, custom: bool, customDivisor: nat, baudBase: nat, product: nat)

  /** The divisor value for the chip and the baud rate reported back to the tty. */
  datatype Choice = Choice(value: nat, baud: nat)

  const NDI_PRODUCTS: set<nat> := {0xDA70, 0xDA71, 0xDA72, 0xDA73, 0xDA74}

  /** The first-generation chip takes an index into this table. */
  const SIO_RATES: seq<nat> := [300, 600, 1200, 2400, 4800, 9600, 19200, 38400, 57600, 115200]

  function SioIndex(baud: nat): nat {
    if baud == 300 then 0 else if baud == 600 then 1 else if baud == 1200 then 2 else if baud == 2400 then 3
    else if baud == 4800 then 4 else if baud == 9600 then 5 else if baud == 19200 then 6 else if baud == 38400 then 7
    else if baud == 57600 then 8 else if baud == 115200 then 9 else 0
  }

  function WantedBaud(port: Port, ttyBaud: nat): (baud: nat)
    ensures baud > 0
  {
    var baud :=
      if ttyBaud == 38400 && port.custom && port.customDivisor != 0 then port.baudBase / port.customDivisor
      else ttyBaud;
    if baud == 0 then 9600 else baud
  }

  function BmValue(baud: nat): nat
    requires baud > 0
  {
    EncodeBm(Eighths(BASE, baud))
  }

  function GetDivisor(port: Port, ttyBaud: nat): (c: Choice)
    ensures c.baud > 0
  {
    var baud := WantedBaud(port, ttyBaud);
    match port.chip
    case SIO =>
      // a table value of 0, hence also the supported 300 baud, reads as "not found"
      if SioIndex(baud) == 0 then Choice(SioIndex(9600), 9600) else Choice(SioIndex(baud), baud)
    case FT8U232AM =>
      if baud <= 3000000 then Choice(EncodeAm(Eighths(BASE, baud)), baud)
      else Choice(EncodeAm(Eighths(BASE, 9600)), 9600)
    case FT232BM | FT2232C | FT232RL | FTX =>
      if baud <= 3000000 then
        var b := if port.product in NDI_PRODUCTS && baud == 19200 then 1200000 else baud;
        Choice(BmValue(b), b)
      else Choice(BmValue(9600), 9600)
    case FT2232H | FT4232H | FT232H =>
      if 1200 <= baud <= 12000000 then Choice(EncodeH(EighthsH(HIGH_BASE, baud)), baud)
      else if baud < 1200 then Choice(BmValue(baud), baud)
      else Choice(BmValue(9600), 9600)
  }

  /** The value, as the chip decodes it, selects the reported rate. */
  ghost predicate Selects(chip: Chip, value: nat, baud: nat)
    requires baud > 0
  {
    match chip
    case SIO => value < |SIO_RATES| && SIO_RATES[value] == baud
    case FT8U232AM => NearestAm(Decode(value), Eighths(BASE, baud))
    case FT232BM | FT2232C | FT232RL | FTX => Decode(value) == Eighths(BASE, baud)
    case FT2232H | FT4232H | FT232H =>
      Decode(value) == if value / LIMIT == 1 then EighthsH(HIGH_BASE, baud) else Eighths(BASE, baud)
  }

  /** On every chip type and for every request, the returned value encodes the very rate reported to the tty,
      exactly when that rate is at least 184 baud (always, on the table-driven chip). */
  lemma {:induction false} DivisorSelectsReportedRate(port: Port, ttyBaud: nat)
    ensures
      var c := GetDivisor(port, ttyBaud);
      Selects(port.chip, c.value, c.baud) <==> port.chip.SIO? || c.baud >= 184
  {
    var c := GetDivisor(port, ttyBaud);
    match port.chip {
      case SIO =>
      case FT8U232AM =>
        AmSelectsNearest(Eighths(BASE, c.baud));
        AmRange(c.baud);
      case FT232BM | FT2232C | FT232RL | FTX =>
        BmRate(c.baud);
      case FT2232H | FT4232H | FT232H =>
        if 1200 <= c.baud && WantedBaud(port, ttyBaud) <= 12000000 {
          HRate(c.baud);
          HRoundTrip(EighthsH(HIGH_BASE, c.baud));
        } else {
          BmRate(c.baud);
          BmOnHiSpeed(c.baud);
        }
    }
  }

  lemma AmRange(baud: nat)
    requires 0 < baud <= 3000000
    ensures 1 <= Eighths(BASE, baud) < LIMIT - 1 <==> baud >= 184
  {
    EighthsLimits(BASE / 2, baud, LIMIT - 1);
    EighthsLimits(BASE / 2, baud, 1);
  }

  /** Below 1200 baud a hi-speed chip gets a BM value: its flag stays clear from 184 baud on,
      and below that neither reading of the value gives the rate. */
  lemma BmOnHiSpeed(baud: nat)
    requires 0 < baud < 1200 || baud == 9600
    ensures baud >= 184 ==> BmValue(baud) < LIMIT
    ensures baud < 184 ==> LIMIT <= Eighths(BASE, baud) && LIMIT <= EighthsH(HIGH_BASE, baud)
  {
    EighthsLimits(BASE / 2, baud, LIMIT);
    EighthsLimits(HIGH_BASE * 8, baud * 10, LIMIT);
    var d := Eighths(BASE, baud);
    if baud >= 184 {
      EighthsLimits(BASE / 2, baud, 1);
      DecodeBmWord(d / 8, d % 8);
    }
  }

  /** What the other chips report: the wanted rate itself exactly within their limits, except that NDI devices
      get 1200000 baud for 19200; otherwise 9600. */
  lemma ReportsWantedOrFallback(port: Port, ttyBaud: nat)
    requires !port.chip.SIO?
    ensures
      var baud, c := WantedBaud(port, ttyBaud), GetDivisor(port, ttyBaud);
      var ndi := !port.chip.FT8U232AM? && !port.chip.HiSpeed() && port.product in NDI_PRODUCTS && baud == 19200;
      && (c.baud == baud <==> (baud <= if port.chip.HiSpeed() then 12000000 else 3000000) && !ndi)
      && (c.baud != baud ==> c.baud == if ndi then 1200000 else 9600)
  {
  }

  /** The tty's rate is what the chip shall get: no custom divisor stands in for it. */
  predicate Plain(port: Port, ttyBaud: nat) {
    ttyBaud == 38400 && port.custom ==> port.customDivisor == 0
  }

  /** An NDI device, for which 19200 baud means 1200000. */
  predicate Ndi(port: Port) {
    (port.chip.FT232BM? || port.chip.FT2232C? || port.chip.FT232RL? || port.chip.FTX?)
    && 0xDA70 <= port.product <= 0xDA74
  }

  /** The rate reported is the tty's own exactly within the limits of the chip; otherwise it is 9600,
      or 1200000 for an NDI device. */
  lemma {:induction false} ReportsTtyRate(port: Port, ttyBaud: nat)
    requires !port.chip.SIO? && Plain(port, ttyBaud)
    ensures
      var c, ndi := GetDivisor(port, ttyBaud), Ndi(port) && ttyBaud == 19200;
      && (c.baud == ttyBaud <==> 0 < ttyBaud <= (if port.chip.HiSpeed() then 12000000 else 3000000) && !ndi)
      && (c.baud != ttyBaud ==> c.baud == if ndi then 1200000 else 9600)
  {
    NdiProducts(port.product);
    match port.chip {
      case FT8U232AM =>
      case FT232BM | FT2232C | FT232RL | FTX =>
      case FT2232H | FT4232H | FT232H =>
    }
  }

  lemma NdiProducts(product: nat)
    ensures product in NDI_PRODUCTS <==> 0xDA70 <= product <= 0xDA74
  {
  }

  /** With a custom divisor, 38400 baud means the base rate divided by it, rounded down, or 9600 where that is 0. */
  lemma CustomRate(port: Port)
    requires port.custom && port.customDivisor != 0
    ensures
      var b, c := WantedBaud(port, 38400), port.customDivisor;
      if c <= port.baudBase then b * c <= port.baudBase < (b + 1) * c else b == 9600
  {
    DivBounds(port.baudBase, port.customDivisor);
    QuotientAtLeast(port.baudBase, port.customDivisor, 1);
  }

  /** The first-generation chip honours a rate of the tty exactly for its table without the first entry. */
  lemma SioHonours(port: Port, ttyBaud: nat)
    requires port.chip.SIO? && Plain(port, ttyBaud)
    ensures
      GetDivisor(port, ttyBaud).baud == ttyBaud <==>
        ttyBaud in {600, 1200, 2400, 4800, 9600, 19200, 38400, 57600, 115200}
    ensures GetDivisor(port, ttyBaud).baud in {ttyBaud, 9600}
  {
  }

  /** A hi-speed chip gets the hi-speed form exactly from 1200 baud to its limit. */
  lemma HiSpeedFormExactly(port: Port, ttyBaud: nat)
    requires port.chip.HiSpeed() && Plain(port, ttyBaud) && ttyBaud >= 184
    ensures GetDivisor(port, ttyBaud).value / LIMIT == (if 1200 <= ttyBaud <= 12000000 then 1 else 0)
  {
    if 1200 <= ttyBaud <= 12000000 {
      HRate(ttyBaud);
      HRoundTrip(EighthsH(HIGH_BASE, ttyBaud));
    } else {
      EncodedFits(if ttyBaud < 1200 then ttyBaud else 9600);
    }
  }

  // ---------------------------------------------------------------- the control request

  /** wValue and wIndex of the set-baud-rate request. */
  datatype Request = Request(value: nat, index: nat)

  /** change_speed for either form; the KolibriOS driver always sends the single-port one. */
  function SpeedRequest(multiPort: bool, interfaceNumber: nat, divisor: nat): Request {
    var index := divisor / WORD16 % WORD16;
    Request(divisor % WORD16, if multiPort then BitOr(index * 0x100, interfaceNumber) % WORD16 else index)
  }

  /** Either form, put together again. */
  function RequestDivisor(multiPort: bool, r: Request): nat {
    r.value + (if multiPort then r.index / 0x100 else r.index) * WORD16
  }

  /** What each chip reads: the chips with several interfaces find the high bits in the upper byte of the index. */
  function ChipReads(chip: Chip, r: Request): nat {
    match chip
    case SIO | FT8U232AM | FT232BM | FT232RL | FTX => r.value + r.index * WORD16
    case FT2232C | FT2232H | FT4232H | FT232H => r.value + r.index / 0x100 * WORD16
  }

  /** Splitting loses nothing: divisor and interface number both come back. */
  lemma {:induction false} RequestLossless(multiPort: bool, interfaceNumber: nat, divisor: nat)
    requires divisor < 0x100_0000 && interfaceNumber < 0x100
    ensures
      var r := SpeedRequest(multiPort, interfaceNumber, divisor);
      && r.value < WORD16 && r.index < WORD16
      && RequestDivisor(multiPort, r) == divisor
      && (multiPort ==> r.index % 0x100 == interfaceNumber)
  {
    SplitWord(divisor);
    if multiPort {
      PortIndex(divisor / WORD16, interfaceNumber);
    }
  }

  lemma SplitWord(divisor: nat)
    requires divisor < 0x100_0000
    ensures divisor / WORD16 < 0x100 && divisor / WORD16 % WORD16 == divisor / WORD16
    ensures divisor == divisor / WORD16 * WORD16 + divisor % WORD16
  {
  }

  lemma PortIndex(index: nat, interfaceNumber: nat)
    requires index < 0x100 && interfaceNumber < 0x100
    ensures
      var w := BitOr(index * 0x100, interfaceNumber) % WORD16;
      w / 0x100 == index && w % 0x100 == interfaceNumber
  {
    assert BitOr(index * 0x100, interfaceNumber) == index * 0x100 + interfaceNumber by {
      assert Pow2(8) == 0x100;
      DisjointOr(interfaceNumber, index, 8);
    }
    ByteFields(BitOr(index * 0x100, interfaceNumber), index, interfaceNumber);
  }

  lemma ByteFields(w: nat, high: nat, low: nat)
    requires high < 0x100 && low < 0x100 && w == high * 0x100 + low
    ensures w % WORD16 / 0x100 == high && w % WORD16 % 0x100 == low
  {
    assert w % WORD16 == w;
  }

  lemma AmWordFits(divisor3: nat)
    requires divisor3 < LIMIT - 1
    ensures EncodeAm(divisor3) < LIMIT
  {
    EncodeAmParts(divisor3);
    var whole, eighths := divisor3 / 8, divisor3 % 8;
    if eighths < 7 {
      AmWordFields(whole, eighths);
    } else {
      AmWordFields(whole + 1, 0);
    }
  }

  /** Every divisor that selects its rate fits the request. */
  lemma DivisorFitsRequest(port: Port, ttyBaud: nat)
    requires port.chip.SIO? || GetDivisor(port, ttyBaud).baud >= 184
    ensures GetDivisor(port, ttyBaud).value < 2 * LIMIT
  {
    var c := GetDivisor(port, ttyBaud);
    if port.chip.HiSpeed() && 1200 <= WantedBaud(port, ttyBaud) <= 12000000 {
      HRate(c.baud);
      HRoundTrip(EighthsH(HIGH_BASE, c.baud));
    } else if !port.chip.SIO? {
      EncodedFits(c.baud);
    }
  }

  lemma EncodedFits(baud: nat)
    requires 184 <= baud <= 3000000
    ensures BmValue(baud) < LIMIT && EncodeAm(Eighths(BASE, baud)) < LIMIT
  {
    var d := Eighths(BASE, baud);
    EighthsLimits(BASE / 2, baud, LIMIT - 1);
    EighthsLimits(BASE / 2, baud, 1);
    DecodeBmWord(d / 8, d % 8);
    AmWordFits(d);
  }

  /** What goes over the wire: on every chip type the divisor in the control request, as the chip reads it, selects the
      very rate reported to the tty, whenever that is at least 184 baud (always, on the table-driven chip);
      and the interface number arrives beside it. */
  lemma {:induction false} RequestSelectsReportedRate(port: Port, ttyBaud: nat, interfaceNumber: nat)
    requires interfaceNumber < 0x100
    requires port.chip.SIO? || GetDivisor(port, ttyBaud).baud >= 184
    ensures
      var c := GetDivisor(port, ttyBaud);
      var r := SpeedRequest(port.chip.MultiPort(), interfaceNumber, c.value);
      && Selects(port.chip, ChipReads(port.chip, r), c.baud)
      && (port.chip in {FT2232C, FT2232H, FT4232H, FT232H} ==> r.index % 0x100 == interfaceNumber)
  {
    DivisorFitsRequest(port, ttyBaud);
    DivisorSelectsReportedRate(port, ttyBaud);
    RequestLossless(port.chip.MultiPort(), interfaceNumber, GetDivisor(port, ttyBaud).value);
  }

  /** Hence the chip gets the very rate set on the tty, within its limits and apart from the NDI devices. */
  lemma {:induction false} TtyRateArrives(port: Port, ttyBaud: nat, interfaceNumber: nat)
    requires interfaceNumber < 0x100 && !port.chip.SIO? && Plain(port, ttyBaud)
    requires 184 <= ttyBaud <= if port.chip.HiSpeed() then 12000000 else 3000000
    requires Ndi(port) ==> ttyBaud != 19200
    ensures GetDivisor(port, ttyBaud).baud == ttyBaud
    ensures
      var r := SpeedRequest(port.chip.MultiPort(), interfaceNumber, GetDivisor(port, ttyBaud).value);
      Selects(port.chip, ChipReads(port.chip, r), ttyBaud)
  {
    ReportsTtyRate(port, ttyBaud);
    RequestSelectsReportedRate(port, ttyBaud, interfaceNumber);
  }
}
