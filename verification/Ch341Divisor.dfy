/** The CH341 baud rate divisor search of ch340_div.c, in 32-bit unsigned arithmetic.

    The device divides a 48 MHz clock by `2^(12 - 3 * ps - fact) * div`. */
module Ch341Divisor {
  import opened Arith
  import opened Bits

  const CLKRATE: nat := 48000000
  const EINVAL: int := 123

  /** What the search comes to: a divisor, `-EINVAL`, or a division by zero inside the search. */
  datatype Search = Found(ps: nat, fact: nat, div: nat) | Invalid | Trap

  /** A base clock and the divisor of that clock, rounded down. */
  datatype Clock = Clock(ps: nat, fact: nat, floor: nat)

  function ClkDiv(ps: nat, fact: nat): (c: nat)
    requires ps <= 3 && fact <= 1
    ensures c > 0
  {
    Pow2(12 - 3 * ps - fact)
  }

  function MinRate(ps: nat): nat
    requires ps <= 3
  {
    CLKRATE / (ClkDiv(ps, 1) * 512)
  }

  lemma ClockTable()
    ensures ClkDiv(0, 1) == 2048 && ClkDiv(1, 1) == 256 && ClkDiv(2, 1) == 32 && ClkDiv(3, 1) == 4
    ensures ClkDiv(0, 0) == 4096 && ClkDiv(1, 0) == 512 && ClkDiv(2, 0) == 64 && ClkDiv(3, 0) == 8
    ensures MinRate(0) == 45 && MinRate(1) == 366 && MinRate(2) == 2929 && MinRate(3) == 23437
  {
    assert Pow2(2) == 4 && Pow2(3) == 8;
    assert Pow2(5) == 32 && Pow2(6) == 64;
    assert Pow2(8) == 256 && Pow2(9) == 512;
    assert Pow2(11) == 2048 && Pow2(12) == 4096;
  }

  /** The prescaler the countdown loop stops at. */
  function Prescaler(speed: nat): (ps: nat)
    requires speed > MinRate(0)
    ensures ps <= 3 && speed > MinRate(ps)
    ensures forall p: nat :: ps < p <= 3 ==> speed <= MinRate(p)
  {
    if speed > MinRate(3) then 3
    else if speed > MinRate(2) then 2
    else if speed > MinRate(1) then 1
    else 0
  }

  predicate InRange(speed: nat) { 46 <= speed <= 3000000 }

  /** The base clock the search settles on before it rounds: fact = 1 where the divisor then lies in [9, 255]
      and the device allows it, otherwise half that clock. */
  function ChosenClock(quirk: bool, speed: nat): (k: Clock)
    requires InRange(speed)
    ensures k.ps <= 3 && k.fact <= 1
  {
    ClockTable();
    var ps := Prescaler(speed);
    var div := CLKRATE / (ClkDiv(ps, 1) * speed);
    if div < 9 || div > 255 || (ps < 3 && quirk) then Clock(ps, 0, div / 2) else Clock(ps, 1, div)
  }

  /** Sixteen times the rate that divisor `div` of a clock gives, truncated. */
  function Rate16(clk: nat, div: nat): nat
    requires clk > 0 && div > 0
  {
    16 * CLKRATE / (clk * div)
  }

  function Distance(clk: nat, div: nat, speed: nat): nat
    requires clk > 0 && div > 0
  {
    Gap(Rate16(clk, div), 16 * speed)
  }

  /** Of the two divisors around the exact quotient the nearer one, the larger on a tie. */
  function Rounded(k: Clock, speed: nat): (div: nat)
    requires k.ps <= 3 && k.fact <= 1 && k.floor > 0
    ensures div == k.floor || div == k.floor + 1
  {
    var c := ClkDiv(k.ps, k.fact);
    if Distance(c, k.floor + 1, speed) <= Distance(c, k.floor, speed) then k.floor + 1 else k.floor
  }

  /** An even divisor of the doubled clock is half that divisor of the plain clock. */
  function PreferLowClock(ps: nat, fact: nat, div: nat): Search {
    if fact == 1 && div % 2 == 0 then Found(ps, 0, div / 2) else Found(ps, fact, div)
  }

  /** C unsigned subtraction. */
  function Sub32(a: nat, b: nat): nat
    requires a < WORD32 && b < WORD32
  {
    (a + WORD32 - b) % WORD32
  }

  lemma SubIsDifference(a: nat, b: nat)
    requires b <= a < WORD32
    ensures Sub32(a, b) == a - b
  {
  }

  // ---------------------------------------------------------------- the clock and its rounded-down divisor

  /** The loop finds the highest base clock (with fact = 1) whose divisor is strictly less than 512. */
  lemma {:induction false} HighestClockBelow512(speed: nat)
    requires InRange(speed)
    ensures speed > MinRate(0)
    ensures forall p: nat {:trigger ClkDiv(p, 1)} :: p <= 3 ==>
      (CLKRATE / (ClkDiv(p, 1) * speed) < 512 <==> p <= Prescaler(speed))
  {
    ClockTable();
    forall p: nat | p <= 3
      ensures CLKRATE / (ClkDiv(p, 1) * speed) < 512 <==> p <= Prescaler(speed)
    {
      QuotientAtLeast(CLKRATE, ClkDiv(p, 1) * speed, 512);
      assert p == 0 || p == 1 || p == 2 || p == 3;
    }
  }

  /** The chosen divisor is the exact quotient rounded down, also after the base clock was halved;
      it is at least 2, and large enough to be accurate wherever the slow prescalers are in use. */
  lemma {:induction false} FloorOfChosenClock(quirk: bool, speed: nat)
    requires InRange(speed)
    ensures
      var k := ChosenClock(quirk, speed);
      var c := ClkDiv(k.ps, k.fact);
      && c * k.floor * speed <= CLKRATE < c * (k.floor + 1) * speed
      && (k.fact == 1 ==> 9 <= k.floor <= 255)
      && (k.fact == 0 ==> 2 <= k.floor <= 255)
      && (speed <= 23437 ==> k.floor >= if quirk then 32 else 64)
  {
    ClockTable();
    HighestClockBelow512(speed);
    var ps := Prescaler(speed);
    var b := ClkDiv(ps, 1) * speed;
    var d := CLKRATE / b;
    DivBounds(CLKRATE, b);
    assert d < 512;
    assert 64 <= d || ps == 3 by {
      if ps < 3 {
        assert speed <= MinRate(ps + 1);
        assert ps == 0 || ps == 1 || ps == 2;
        assert 64 * b <= CLKRATE;
        QuotientAtLeast(CLKRATE, b, 64);
      }
    }
    assert 4 <= d by {
      assert 4 * b <= CLKRATE;
      QuotientAtLeast(CLKRATE, b, 4);
    }
    var k := ChosenClock(quirk, speed);
    if k.fact == 1 {
      Reorder(ClkDiv(ps, 1), d, speed);
      Reorder(ClkDiv(ps, 1), d + 1, speed);
    } else {
      assert ClkDiv(ps, 0) == 2 * ClkDiv(ps, 1);
      assert 2 * (d / 2) <= d < 2 * (d / 2 + 1);
      HalvedClock(ClkDiv(ps, 1), d, speed);
    }
  }

  lemma Reorder(c: nat, d: nat, s: nat)
    ensures c * d * s == d * (c * s)
  {
  }

  lemma HalvedClock(c: nat, d: nat, s: nat)
    requires d * (c * s) <= CLKRATE < (d + 1) * (c * s)
    ensures 2 * c * (d / 2) * s <= CLKRATE < 2 * c * (d / 2 + 1) * s
  {
    var h := d / 2;
    assert 2 * c * h * s == (2 * h) * (c * s);
    assert 2 * c * (h + 1) * s == (2 * h + 2) * (c * s);
    assert (2 * h) * (c * s) <= d * (c * s);
    assert (d + 1) * (c * s) <= (2 * h + 2) * (c * s);
  }

  // ---------------------------------------------------------------- rounding

  lemma Rate16Antitone(clk: nat, d: nat, e: nat)
    requires clk > 0 && 0 < d <= e
    ensures Rate16(clk, e) <= Rate16(clk, d)
  {
    var q := Rate16(clk, e);
    QuotientAtLeast(16 * CLKRATE, clk * e, q);
    assert q * (clk * d) <= q * (clk * e) by {
      assert clk * d <= clk * e;
    }
    QuotientAtLeast(16 * CLKRATE, clk * d, q);
  }

  /** The divisor below the exact quotient is never too slow and the one above never too fast,
      so neither subtraction of the rounding test wraps. */
  lemma {:induction false} RoundingNeverWraps(quirk: bool, speed: nat)
    requires InRange(speed)
    ensures
      var k := ChosenClock(quirk, speed);
      var c := ClkDiv(k.ps, k.fact);
      && k.floor > 0
      && Rate16(c, k.floor + 1) <= 16 * speed <= Rate16(c, k.floor) < WORD32
  {
    FloorOfChosenClock(quirk, speed);
    var k := ChosenClock(quirk, speed);
    var c := ClkDiv(k.ps, k.fact);
    RateAtLeast(c * k.floor, speed);
    RateAtMost(c * (k.floor + 1), speed);
  }

  lemma RateAtLeast(m: nat, speed: nat)
    requires m > 0 && m * speed <= CLKRATE
    ensures 16 * speed <= 16 * CLKRATE / m < WORD32
  {
    assert (16 * speed) * m == 16 * (m * speed);
    QuotientAtLeast(16 * CLKRATE, m, 16 * speed);
    QuotientAtLeast(16 * CLKRATE, m, WORD32);
    assert WORD32 <= WORD32 * m;
  }

  lemma RateAtMost(m: nat, speed: nat)
    requires m > 0 && CLKRATE < m * speed
    ensures 16 * CLKRATE / m <= 16 * speed
  {
    assert (16 * speed) * m == 16 * (m * speed);
    QuotientAtLeast(16 * CLKRATE, m, 16 * speed + 1);
  }

  /** No divisor of the chosen clock comes closer to the requested speed than the rounded one,
      and among equally close ones none is larger by the rounding step. */
  lemma {:induction false} RoundedIsNearest(quirk: bool, speed: nat, div: nat)
    requires InRange(speed) && div > 0
    ensures
      var k := ChosenClock(quirk, speed);
      var c := ClkDiv(k.ps, k.fact);
      && k.floor > 0 && Distance(c, Rounded(k, speed), speed) <= Distance(c, div, speed)
      // a tie with the next divisor goes to that one
      && (Rounded(k, speed) == k.floor ==> Distance(c, k.floor, speed) < Distance(c, k.floor + 1, speed))
  {
    RoundingNeverWraps(quirk, speed);
    var k := ChosenClock(quirk, speed);
    var c := ClkDiv(k.ps, k.fact);
    if div <= k.floor {
      Rate16Antitone(c, div, k.floor);
    } else {
      Rate16Antitone(c, k.floor + 1, div);
    }
  }

  // ---------------------------------------------------------------- the result of the search

  /** The divisor the search programs, for every speed it supports. */
  function Programmed(quirk: bool, speed: nat): Search
    requires InRange(speed)
  {
    var k := ChosenClock(quirk, speed);
    if k.floor == 0 then Invalid else PreferLowClock(k.ps, k.fact, Rounded(k, speed))
  }

  /** A found divisor lies in the ranges the device accepts, stricter than the documented ones when fact = 1,
      and the final rewrite leaves the total division, hence the programmed rate, unchanged. */
  lemma {:induction false} ProgrammedIsValid(quirk: bool, speed: nat)
    requires InRange(speed)
    ensures
      var r := Programmed(quirk, speed);
      var k := ChosenClock(quirk, speed);
      && r.Found? && r.ps <= 3 && r.fact <= 1 && k.floor > 0
      && (r.fact == 0 ==> 2 <= r.div <= 256)
      && (r.fact == 1 ==> 9 <= r.div <= 255 && r.div % 2 == 1)
      && (quirk && r.ps < 3 ==> r.fact == 0)
      && ClkDiv(r.ps, r.fact) * r.div == ClkDiv(k.ps, k.fact) * Rounded(k, speed)
  {
    ClockTable();
    FloorOfChosenClock(quirk, speed);
    var k := ChosenClock(quirk, speed);
    var e := Rounded(k, speed);
    assert k.ps == 0 || k.ps == 1 || k.ps == 2 || k.ps == 3;
    if k.fact == 1 && e % 2 == 0 {
      assert ClkDiv(k.ps, 0) == 2 * ClkDiv(k.ps, 1);
      var h := e / 2;
      assert ClkDiv(k.ps, 0) * h == ClkDiv(k.ps, 1) * (2 * h);
    }
  }

  /** What a search may program: fact 1 within the divisors that work with it, and only where the device allows it. */
  predicate Permitted(quirk: bool, ps: nat, fact: nat, div: nat) {
    fact <= 1 && div > 0 && (fact == 1 ==> div <= 256 && !(quirk && ps < 3))
  }

  lemma DoubledClock(ps: nat, div: nat)
    requires ps <= 3 && div > 0
    ensures ClkDiv(ps, 0) == 2 * ClkDiv(ps, 1)
    ensures Rate16(ClkDiv(ps, 0), div) == Rate16(ClkDiv(ps, 1), 2 * div)
  {
    ClockTable();
    assert ps == 0 || ps == 1 || ps == 2 || ps == 3;
    assert ClkDiv(ps, 0) * div == ClkDiv(ps, 1) * (2 * div);
  }

  lemma ProgrammedDistance(quirk: bool, speed: nat)
    requires InRange(speed)
    ensures
      var r, k := Programmed(quirk, speed), ChosenClock(quirk, speed);
      && r.Found? && r.ps == k.ps && r.fact <= 1 && r.div > 0 && k.floor > 0
      && Distance(ClkDiv(r.ps, r.fact), r.div, speed) == Distance(ClkDiv(k.ps, k.fact), Rounded(k, speed), speed)
  {
    ProgrammedIsValid(quirk, speed);
  }

  /** The fast clock gives a divisor of at least 9 exactly up to 1333333 baud. */
  lemma FastDivisor(speed: nat)
    requires InRange(speed)
    ensures
      var ps := Prescaler(speed);
      9 <= CLKRATE / (ClkDiv(ps, 1) * speed) <==> speed <= 1333333
  {
    ClockTable();
    var b := ClkDiv(Prescaler(speed), 1) * speed;
    QuotientAtLeast(CLKRATE, b, 9);
    if Prescaler(speed) < 3 {
      FloorOfChosenClock(false, speed);
      HighestClockBelow512(speed);
    }
  }

  /** Up to 1333333 baud no permitted divisor of either clock comes closer to the request than the one programmed. */
  lemma {:induction false} NearestOfBothClocks(quirk: bool, speed: nat, fact: nat, div: nat)
    requires InRange(speed) && speed <= 1333333 && Permitted(quirk, Prescaler(speed), fact, div)
    ensures
      var r := Programmed(quirk, speed);
      && r.Found? && r.fact <= 1 && r.div > 0 && r.ps == Prescaler(speed)
      && Distance(ClkDiv(r.ps, r.fact), r.div, speed) <= Distance(ClkDiv(r.ps, fact), div, speed)
  {
    var ps, k := Prescaler(speed), ChosenClock(quirk, speed);
    ProgrammedDistance(quirk, speed);
    if k.fact == fact {
      RoundedIsNearest(quirk, speed, div);
    } else if fact == 0 {
      DoubledClock(ps, div);
      RoundedIsNearest(quirk, speed, 2 * div);
    } else {
      FastDivisor(speed);
      RoundedIsNearest(quirk, speed, k.floor);
      RoundingNeverWraps(quirk, speed);
      DoubledClock(ps, k.floor);
      Rate16Antitone(ClkDiv(ps, 1), div, 2 * k.floor);
    }
  }

  /** Above it the slow clock is used, and is not always the better one: at 1400000 baud the fast clock
      would come closer with the permitted divisor 9. */
  lemma {:induction false} SlowClockAbove1333333(quirk: bool, speed: nat)
    requires InRange(speed) && speed > 1333333
    ensures Programmed(quirk, speed).Found? && Programmed(quirk, speed).fact == 0
    ensures
      var r := Programmed(quirk, 1400000);
      r == Found(3, 0, 4) && Distance(ClkDiv(3, 1), 9, 1400000) < Distance(ClkDiv(3, 0), 4, 1400000)
  {
    FastDivisor(speed);
    ProgrammedIsValid(quirk, speed);
    At1400000(quirk);
    ClockTable();
  }

  lemma At1400000(quirk: bool)
    ensures Programmed(quirk, 1400000) == Found(3, 0, 4)
  {
    ClockTable();
    assert ChosenClock(quirk, 1400000) == Clock(3, 0, 4);
    assert Rate16(8, 4) == 24000000 && Rate16(8, 5) == 19200000;
  }

  // ---------------------------------------------------------------- how far off the programmed rate is

  ghost function Rate(ps: nat, fact: nat, div: nat): real
    requires ps <= 3 && fact <= 1 && div > 0
  {
    Frequency(ClkDiv(ps, fact) * div)
  }

  ghost function Frequency(m: nat): real
    requires m > 0
  {
    CLKRATE as real / m as real
  }

  ghost function Abs(x: real): (r: real) {
    if x < 0.0 then -x else x
  }

  /** The programmed rate misses the request by at most one part in 2D + 1, where D is the rounded-down divisor,
      plus the 1/16 bps the truncated comparison can lose. */
  lemma {:induction false} ProgrammedRateError(quirk: bool, speed: nat)
    requires InRange(speed)
    ensures
      var r := Programmed(quirk, speed);
      var d := ChosenClock(quirk, speed).floor;
      && r.Found? && r.ps <= 3 && r.fact <= 1 && r.div > 0
      && Abs(Rate(r.ps, r.fact, r.div) - speed as real) <= speed as real / (2 * d + 1) as real + 1.0 / 16.0
  {
    ProgrammedIsValid(quirk, speed);
    RoundingNeverWraps(quirk, speed);
    FloorOfChosenClock(quirk, speed);
    var r := Programmed(quirk, speed);
    var k := ChosenClock(quirk, speed);
    var c := ClkDiv(k.ps, k.fact);
    ClockError(c, k.floor, speed, Rounded(k, speed) == k.floor + 1);
  }

  lemma ClockError(c: nat, d: nat, speed: nat, up: bool)
    requires c > 0 && d > 0 && c * d * speed <= CLKRATE < c * (d + 1) * speed
    requires up <==> 16 * speed - Rate16(c, d + 1) <= Rate16(c, d) - 16 * speed
    ensures
      Abs(Frequency(c * (if up then d + 1 else d)) - speed as real)
      <= speed as real / (2 * d + 1) as real + 1.0 / 16.0
  {
    var m, m' := c * d, c * (d + 1);
    RatesOfNeighbours(c, d);
    RateBounds(m, speed);
    RateBounds(m', speed);
    NeighbourError(Frequency(m), Frequency(m'), Rate16(c, d), Rate16(c, d + 1), d, speed, up);
  }

  lemma RateBounds(m: nat, speed: nat)
    requires m > 0
    ensures
      var q := 16 * CLKRATE / m;
      q as real <= 16.0 * Frequency(m) < q as real + 1.0
    ensures m * speed <= CLKRATE ==> speed as real <= Frequency(m)
    ensures CLKRATE <= m * speed ==> Frequency(m) <= speed as real
  {
    TruncatedRate(m);
    RealQuotient(CLKRATE, m, speed);
  }

  lemma NeighbourError(x: real, y: real, upper: nat, lower: nat, d: nat, speed: nat, up: bool)
    requires d > 0 && x * d as real == y * (d + 1) as real && y <= speed as real <= x
    requires upper as real <= 16.0 * x < upper as real + 1.0
    requires lower as real <= 16.0 * y < lower as real + 1.0
    requires up <==> 16 * speed - lower <= upper - 16 * speed
    ensures Abs((if up then y else x) - speed as real) <= speed as real / (2 * d + 1) as real + 1.0 / 16.0
  {
    TruncatedOrder(upper, lower, x, y, speed);
    NearestError(x, y, d, speed as real, up);
  }

  lemma TruncatedOrder(upper: nat, lower: nat, x: real, y: real, speed: nat)
    requires upper as real <= 16.0 * x < upper as real + 1.0
    requires lower as real <= 16.0 * y < lower as real + 1.0
    ensures 16 * speed - lower <= upper - 16 * speed ==> speed as real - y <= x - speed as real
    ensures 16 * speed - lower > upper - 16 * speed ==> x - speed as real < speed as real - y + 1.0 / 16.0
  {
  }

  lemma RealQuotient(a: nat, b: nat, q: nat)
    requires b > 0
    ensures q * b <= a ==> q as real <= a as real / b as real
    ensures a <= q * b ==> a as real / b as real <= q as real
  {
    var v := a as real / b as real;
    assert v * b as real == a as real;
    assert (q * b) as real == q as real * b as real;
    if q * b <= a {
      assert (v - q as real) * b as real >= 0.0;
    }
    if a <= q * b {
      assert (q as real - v) * b as real >= 0.0;
    }
  }

  lemma RatesOfNeighbours(c: nat, d: nat)
    requires c > 0 && d > 0
    ensures Frequency(c * d) * d as real == Frequency(c * (d + 1)) * (d + 1) as real
  {
    var x := CLKRATE as real / (c * d) as real;
    var y := CLKRATE as real / (c * (d + 1)) as real;
    assert c as real * (x * d as real) == CLKRATE as real by {
      assert (c * d) as real == c as real * d as real;
      assert x * (c * d) as real == CLKRATE as real;
    }
    assert c as real * (y * (d + 1) as real) == CLKRATE as real by {
      assert (c * (d + 1)) as real == c as real * (d + 1) as real;
      assert y * (c * (d + 1)) as real == CLKRATE as real;
    }
  }

  lemma TruncatedRate(m: nat)
    requires m > 0
    ensures
      var q := 16 * CLKRATE / m;
      var v := 16.0 * (CLKRATE as real / m as real);
      q as real <= v < q as real + 1.0
  {
    var q := 16 * CLKRATE / m;
    var v := 16.0 * (CLKRATE as real / m as real);
    DivBounds(16 * CLKRATE, m);
    assert v * m as real == 16.0 * CLKRATE as real by {
      assert (CLKRATE as real / m as real) * m as real == CLKRATE as real;
    }
    assert (q * m) as real == q as real * m as real;
    assert ((q + 1) * m) as real == (q + 1) as real * m as real;
    assert (v - q as real) * m as real >= 0.0;
    assert ((q + 1) as real - v) * m as real > 0.0;
  }

  /** Between neighbouring rates x >= s >= y with x * d == y * (d + 1), the nearer one is within s / (2d + 1). */
  lemma NearestError(x: real, y: real, d: nat, s: real, up: bool)
    requires d > 0 && y <= s <= x && x * d as real == y * (d + 1) as real
    requires up ==> s - y <= x - s
    requires !up ==> x - s < s - y + 1.0 / 16.0
    ensures Abs((if up then y else x) - s) <= s / (2 * d + 1) as real + 1.0 / 16.0
  {
    var h := d as real;
    var n := (2 * d + 1) as real;
    var e := s / n;
    assert e * n == s && n == 2.0 * h + 1.0;
    assert s * n == 2.0 * (s * h) + s;
    if up {
      assert y * n == x * h + y * h;
      assert 2.0 * (s * h) <= x * h + y * h by {
        ScaleOrder(2.0 * s, x + y, h);
      }
      assert (s - y) * n == s * n - y * n;
      CancelOrder(s - y, e, n);
    } else {
      var t := 1.0 / 16.0;
      assert x * n == x * h + x + y * h + y;
      assert x * h + x + y * h + y <= 2.0 * (s * h) + 2.0 * s + t * h + t by {
        ScaleOrder(x + y, 2.0 * s + t, h + 1.0);
      }
      assert (x - s) * n == x * n - s * n;
      assert (e + t) * n == s + t * n;
      CancelOrder(x - s, e + t, n);
    }
  }

  lemma ScaleOrder(a: real, b: real, h: real)
    requires a <= b && h >= 0.0
    ensures a * h <= b * h
  {
  }

  lemma CancelOrder(a: real, b: real, n: real)
    requires n > 0.0 && a * n <= b * n
    ensures a <= b
  {
    assert a * n - b * n == (a - b) * n;
  }

  // ---------------------------------------------------------------- the register word

  /** `(0x100 - div) << 8 | fact << 2 | ps`, in unsigned arithmetic. */
  function Pack(ps: nat, fact: nat, div: nat): nat
    requires div < WORD32
  {
    BitOr(BitOr(Sub32(0x100, div) * 0x100 % WORD32, fact * 4), ps)
  }

  /** What the device reads back out of the word; bit 7 carries none of the three fields. */
  function Unpack(word: nat): Search {
    Found(word % 4, word / 4 % 2, 0x100 - word / 0x100 % 0x100)
  }

  /** `Result | BIT(7)` as the KolibriOS driver sends it. */
  function WithBit7(word: nat): nat {
    BitOr(word, 0x80)
  }

  lemma {:induction false} WordRoundTrip(ps: nat, fact: nat, div: nat)
    requires ps <= 3 && fact <= 1 && 1 <= div <= 256
    ensures Unpack(Pack(ps, fact, div)) == Found(ps, fact, div)
    ensures Unpack(WithBit7(Pack(ps, fact, div))) == Found(ps, fact, div)
    ensures WithBit7(Pack(ps, fact, div)) < WORD16
  {
    PackIsSum(ps, fact, div);
    OrBit7(0x100 - div, fact * 4 + ps);
    UnpackSum(0x100 - div, 0, fact, ps);
    UnpackSum(0x100 - div, 1, fact, ps);
  }

  lemma At9600()
    ensures Programmed(false, 9600) == Found(2, 0, 78)
  {
    ClockTable();
    assert ChosenClock(false, 9600) == Clock(2, 1, 156);
    assert Rate16(32, 156) == 153846 && Rate16(32, 157) == 152866;
  }

  lemma At115200()
    ensures Programmed(false, 115200) == Found(3, 0, 52)
  {
    ClockTable();
    assert ChosenClock(false, 115200) == Clock(3, 1, 104);
    assert Rate16(4, 104) == 1846153 && Rate16(4, 105) == 1828571;
  }

  /** The two words the source gives as examples decode to what is programmed for their rates. */
  lemma ExampleWords()
    ensures Unpack(0xB282) == Programmed(false, 9600) && Unpack(0xCC83) == Programmed(false, 115200)
  {
    At9600();
    At115200();
  }

  lemma UnpackSum(high: nat, bit7: nat, fact: nat, ps: nat)
    requires high < 0x100 && bit7 <= 1 && fact <= 1 && ps <= 3
    ensures Unpack(high * 0x100 + bit7 * 0x80 + fact * 4 + ps) == Found(ps, fact, 0x100 - high)
  {
    var word := high * 0x100 + bit7 * 0x80 + fact * 4 + ps;
    assert word / 4 == high * 64 + bit7 * 32 + fact;
    assert word / 0x100 == high;
  }

  lemma PackIsSum(ps: nat, fact: nat, div: nat)
    requires ps <= 3 && fact <= 1 && div <= 256
    ensures Pack(ps, fact, div) == (0x100 - div) * 0x100 + fact * 4 + ps
  {
    assert Pow2(8) == 0x100 && Pow2(2) == 4;
    SubIsDifference(0x100, div);
    assert Sub32(0x100, div) * 0x100 % WORD32 == (0x100 - div) * 0x100;
    DisjointOr(fact * 4, 0x100 - div, 8);
    DisjointOr(ps, 64 * (0x100 - div) + fact, 2);
  }

  lemma OrBit7(high: nat, low: nat)
    requires low < 0x80
    ensures BitOr(high * 0x100 + low, 0x80) == high * 0x100 + 0x80 + low
  {
    assert Pow2(7) == 0x80 && Pow2(8) == 0x100;
    DisjointOr(low, 1, 7);
    OrSplit(high, low, 0x80, 8);
  }

  /** "Or" works on the high and the low parts separately. */
  lemma {:induction false} OrSplit(high: nat, a: nat, b: nat, n: nat)
    requires a < Pow2(n) && b < Pow2(n)
    ensures BitOr(high * Pow2(n) + a, b) == high * Pow2(n) + BitOr(a, b)
  {
    if n == 0 {
      BitOrZero(high);
    } else {
      var h := high * Pow2(n - 1);
      assert high * Pow2(n) == 2 * h;
      assert (high * Pow2(n) + a) / 2 == h + a / 2 && (high * Pow2(n) + a) % 2 == a % 2;
      OrSplit(high, a / 2, b / 2, n - 1);
    }
  }

  // ---------------------------------------------------------------- the program

  /** The rounding test, on the total divisions of the two neighbouring divisors: where their rates enclose the request,
      as they do in the supported range, the unsigned differences are the distances and the nearer rate wins. */
  method NextIsCloser(division: nat, nextDivision: nat, speed: nat) returns (closer: bool)
    requires 0 < division < WORD32 && 0 < nextDivision < WORD32
    ensures
      var fast, slow := 16 * CLKRATE / division, 16 * CLKRATE / nextDivision;
      slow <= 16 * speed <= fast && fast < WORD32 ==> (closer <==> 16 * speed - slow <= fast - 16 * speed)
  {
    var fast, slow := 16 * CLKRATE / division, 16 * CLKRATE / nextDivision;
    RateFits(division);
    RateFits(nextDivision);
    CloserTest(fast, slow, speed);
    closer := Sub32(fast, 16 * speed % WORD32) >= Sub32(16 * speed % WORD32, slow);
  }

  lemma CloserTest(fast: nat, slow: nat, speed: nat)
    requires fast < WORD32 && slow < WORD32
    ensures slow <= 16 * speed <= fast ==>
      (Sub32(fast, 16 * speed % WORD32) >= Sub32(16 * speed % WORD32, slow) <==> 16 * speed - slow <= fast - 16 * speed)
  {
    if slow <= 16 * speed <= fast {
      SubIsDifference(fast, 16 * speed);
      SubIsDifference(16 * speed, slow);
    }
  }

  lemma RateFits(m: nat)
    requires m > 0
    ensures 16 * CLKRATE / m < WORD32
  {
    QuotientAtLeast(16 * CLKRATE, m, WORD32);
    assert WORD32 <= WORD32 * m;
  }

  /** The first half of ch341_get_divisor: the countdown over the prescalers, the rounded-down divisor,
      and the halved base clock. `clamp_val` expands to its first argument, so every 32-bit speed reaches it. */
  method SelectClock(quirk: bool, speed: nat) returns (r: Search)
    requires speed < WORD32
    ensures r.Trap? <==> 0 < speed && 4 * speed % WORD32 == 0
    ensures r.Found? <==> 46 <= speed && 1 <= 4 * speed % WORD32 <= 12000000
    ensures InRange(speed) ==> var k := ChosenClock(quirk, speed); r == Found(k.ps, k.fact, k.floor)
    ensures r.Found? ==> 2 <= r.div && ((r.ps == 3 && r.div <= CLKRATE) || (r.ps < 3 && r.div < 512 && speed <= 23437)) && r.fact <= 1
  {
    ClockTable();
    var fact, ps := 1, 3;
    while ps >= 0
      invariant -1 <= ps <= 3
      invariant forall p: nat :: ps < p <= 3 ==> speed <= MinRate(p)
    {
      if speed > MinRate(ps) {
        break;
      }
      ps := ps - 1;
    }
    if ps < 0 {
      return Invalid;
    }

    var clkDiv := ClkDiv(ps, fact);
    var clkSpeed := clkDiv * speed % WORD32;
    StartingDivisor(speed, ps, clkSpeed);
    if clkSpeed == 0 {
      return Trap;
    }
    var div := CLKRATE / clkSpeed;
    var forceFact0 := ps < 3 && quirk;
    if div < 9 || div > 255 || forceFact0 {
      div := div / 2;
      fact := 0;
    }
    if div < 2 {
      return Invalid;
    }
    return Found(ps, fact, div);
  }

  /** ch341_get_divisor. It succeeds exactly for the documented range and, because `clk_div * speed` wraps,
      for the unsupported speeds congruent to 1 .. 3000000 modulo 2^30; it divides by zero exactly
      for the multiples of 2^30. */
  method GetDivisor(quirk: bool, speed: nat) returns (r: Search)
    requires speed < WORD32
    ensures r.Trap? <==> 0 < speed && 4 * speed % WORD32 == 0
    ensures r.Found? <==> 46 <= speed && 1 <= 4 * speed % WORD32 <= 12000000
    ensures speed < 0x4000_0000 ==> (r.Found? <==> InRange(speed))
    ensures InRange(speed) ==> r == Programmed(quirk, speed)
    ensures r.Found? ==> r.ps <= 3 && r.fact <= 1 && r.div < WORD32 && (speed > 23437 ==> r.ps == 3)
  {
    r := SelectClock(quirk, speed);
    if r.Found? {
      var ps, fact, div := r.ps, r.fact, r.div;
      ClockTable();
      ProductsFit(ClkDiv(ps, fact), div);
      if InRange(speed) {
        RoundingNeverWraps(quirk, speed);
      }
      var closer := NextIsCloser(ClkDiv(ps, fact) * div % WORD32, ClkDiv(ps, fact) * (div + 1) % WORD32, speed);
      if closer {
        div := div + 1;
      }
      r := PreferLowClock(ps, fact, div);
    }
  }

  lemma ProductsFit(clkDiv: nat, div: nat)
    requires 0 < clkDiv && 0 < div && ((clkDiv <= 8 && div <= CLKRATE) || (clkDiv <= 4096 && div < 512))
    ensures 0 < clkDiv * div < WORD32 && 0 < clkDiv * (div + 1) < WORD32
    ensures clkDiv * div % WORD32 == clkDiv * div && clkDiv * (div + 1) % WORD32 == clkDiv * (div + 1)
  {
    if clkDiv <= 8 && div <= CLKRATE {
      assert clkDiv * (div + 1) <= 8 * (div + 1);
    } else {
      assert clkDiv * (div + 1) <= 4096 * (div + 1);
    }
  }

  /** What the search knows once its loop has stopped: the product wraps only for the top prescaler. */
  lemma StartingDivisor(speed: nat, ps: nat, w: nat)
    requires ps <= 3 && MinRate(ps) < speed < WORD32
    requires forall p: nat :: ps < p <= 3 ==> speed <= MinRate(p)
    requires w == ClkDiv(ps, 1) * speed % WORD32
    ensures 46 <= speed && ps == Prescaler(speed)
    ensures w > 0 ==> (4 <= CLKRATE / w <==> w <= 12000000)
    ensures ps == 3 ==> w == 4 * speed % WORD32
    ensures InRange(speed) ==> w == ClkDiv(ps, 1) * speed
    ensures ps < 3 ==> w > 0 && 4 <= CLKRATE / w < 512 && speed <= 23437
  {
    ClockTable();
    QuarterClock(w);
    if ps < 3 {
      HighestClockBelow512(speed);
      if ps == 2 {
        NoWrap(32, speed);
      } else if ps == 1 {
        NoWrap(256, speed);
      } else {
        NoWrap(2048, speed);
      }
    }
  }

  lemma NoWrap(c: nat, speed: nat)
    requires c > 0 && speed > 0 && 4 * (c * speed) <= CLKRATE
    ensures c * speed % WORD32 == c * speed && 4 <= CLKRATE / (c * speed)
  {
    QuotientAtLeast(CLKRATE, c * speed, 4);
  }

  lemma QuarterClock(w: nat)
    ensures w > 0 ==> (4 <= CLKRATE / w <==> w <= 12000000)
  {
    if w > 0 {
      QuotientAtLeast(CLKRATE, w, 4);
    }
  }

  /** MY_ch341_get_divisor with its argument as the unsigned word it is converted to. A successful search comes back
      as a word the device decodes to that very search result; -EINVAL, whose bit 7 is set already, comes back
      unchanged, and for no other search. */
  method MyGetDivisor(speed: nat) returns (trap: bool, word: nat)
    requires speed < WORD32
    ensures trap <==> 0 < speed && 4 * speed % WORD32 == 0
    ensures InRange(speed) ==> word < WORD16 && Unpack(word) == Programmed(false, speed)
    ensures !trap ==> (word == WORD32 - EINVAL <==> !(46 <= speed && 1 <= 4 * speed % WORD32 <= 12000000))
    ensures speed < 0x4000_0000 && !InRange(speed) ==> word == WORD32 - EINVAL
  {
    var r := GetDivisor(false, speed);
    trap, word := r.Trap?, 0;
    match r {
      case Trap =>
      case Invalid =>
        word := BitOr(WORD32 - EINVAL, 0x80);
        ErrorKeepsBit7();
      case Found(ps, fact, div) =>
        word := WithBit7(Pack(ps, fact, div));
        if InRange(speed) {
          ProgrammedIsValid(false, speed);
          WordRoundTrip(ps, fact, div);
        } else {
          TopPrescalerShows(ps, fact, div);
        }
    }
  }

  /** The word of a result with the top prescaler, whatever its divisor, is not the error word. */
  lemma TopPrescalerShows(ps: nat, fact: nat, div: nat)
    requires ps == 3 && div < WORD32
    ensures WithBit7(Pack(ps, fact, div)) != WORD32 - EINVAL
  {
    var high := BitOr(Sub32(0x100, div) * 0x100 % WORD32, fact * 4);
    LowTwoBits(high);
    KeepsLowTwoBits(BitOr(high, 3));
  }

  lemma OrHalves(a: nat, b: nat)
    ensures BitOr(a, b) % 2 == (if a % 2 == 1 || b % 2 == 1 then 1 else 0)
    ensures BitOr(a, b) / 2 == BitOr(a / 2, b / 2)
  {
  }

  lemma LowTwoBits(w: nat)
    ensures BitOr(w, 3) % 4 == 3
  {
    OrHalves(w, 3);
    OrHalves(w / 2, 1);
  }

  lemma KeepsLowTwoBits(w: nat)
    ensures BitOr(w, 0x80) % 4 == w % 4
  {
    OrHalves(w, 0x80);
    OrHalves(w / 2, 0x40);
    ModFour(w);
    ModFour(BitOr(w, 0x80));
  }

  lemma ModFour(x: nat)
    ensures x % 4 == x % 2 + 2 * (x / 2 % 2)
  {
  }

  lemma ErrorKeepsBit7()
    ensures BitOr(WORD32 - EINVAL, 0x80) == WORD32 - EINVAL
  {
    assert Pow2(8) == 0x100;
    assert WORD32 - EINVAL == 0xFF_FFFF * 0x100 + 0x85;
    OrSplit(0xFF_FFFF, 0x85, 0x80, 8);
    assert BitOr(0x85, 0x80) == 0x85;
  }
}
