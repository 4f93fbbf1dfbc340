/** The beacon update timer (common/cmm_mac_usb.c): how far the 64-bit TSF is from the next TBTT, computed in
    32 bits. */
module BeaconTimer {

  const WORD := 0x1_0000_0000

  function Uint32(n: nat): nat {
    n % WORD
  }

  /** The beacon period in microseconds; BeaconPeriod is a USHORT, so this fits in 27 bits. */
  function PeriodUs(period: nat): (us: nat)
    ensures period > 0 ==> us > 0
  {
    period * 1024
  }

  /** BeaconRemain */
  function Remain(period: nat): nat
    requires period > 0
  {
    0xffffffff % PeriodUs(period) + 1
  }

  /** remain in BeaconUpdateExec: every intermediate value is a UINT32. */
  function Elapsed(period: nat, high: nat, low: nat): nat
    requires period > 0
  {
    Uint32(Uint32(Remain(period) * high) + low % PeriodUs(period)) % PeriodUs(period)
  }

  function Delta(period: nat, high: nat, low: nat): nat
    requires period > 0
  {
    PeriodUs(period) - Elapsed(period, high, low)
  }

  /** How often the 32-bit computation wraps round. */
  function Wraps(period: nat, high: nat, low: nat): nat
    requires period > 0
  {
    (Remain(period) * high + low % PeriodUs(period)) / WORD
  }

  function Tsf(high: nat, low: nat): nat {
    high * WORD + low
  }

  // ---------------------------------------------------------------- remainders

  lemma {:induction false} ModShift(x: nat, k: nat, p: nat)
    requires p > 0
    ensures (x + k * p) % p == x % p
    decreases k
  {
    if k > 0 {
      ModShift(x + p, k - 1, p);
      assert x + k * p == (x + p) + (k - 1) * p;
      assert (x + p) % p == x % p by {
        DivMod(x + p, p, x / p + 1, x % p);
      }
    }
  }

  /** A quotient and remainder are the quotient and remainder. */
  lemma DivMod(x: nat, p: nat, q: nat, r: nat)
    requires p > 0 && r < p && x == q * p + r
    ensures x / p == q && x % p == r
  {
    var d := x / p - q;
    assert d * p == r - x % p;
    assert d >= 1 ==> d * p >= p;
    assert d <= -1 ==> d * p + p <= 0;
  }

  lemma ModSame(a: nat, b: nat, p: nat)
    requires p > 0
    ensures (a + b) % p == a % p <==> b % p == 0
  {
    Quotient(a, p);
    Quotient(b, p);
    SumMod(a / p, a % p, b / p, b % p, p);
  }

  lemma SumMod(q: nat, r: nat, q': nat, s: nat, p: nat)
    requires r < p && s < p
    ensures ((q * p + r) + (q' * p + s)) % p == r <==> s == 0
  {
    var n := (q * p + r) + (q' * p + s);
    if r + s < p {
      assert n == (q + q') * p + (r + s);
      DivMod(n, p, q + q', r + s);
    } else {
      assert n == (q + q' + 1) * p + (r + s - p);
      DivMod(n, p, q + q' + 1, r + s - p);
    }
  }

  /** A full word is BeaconRemain more than a multiple of the period. */
  lemma WordMod(period: nat) returns (q: nat)
    requires period > 0
    ensures WORD == q * PeriodUs(period) + Remain(period)
  {
    q := 0xffffffff / PeriodUs(period);
  }

  lemma Unwrapped(period: nat, high: nat, low: nat)
    requires period > 0
    ensures Tsf(high, low) % PeriodUs(period) == (Remain(period) * high + low % PeriodUs(period)) % PeriodUs(period)
  {
    hide Remain, PeriodUs;
    var q := WordMod(period);
    var p, r := PeriodUs(period), Remain(period);
    Quotient(low, p);
    UnwrappedMod(high, WORD, q, p, r, low, low / p, low % p);
  }

  lemma Quotient(n: nat, p: nat)
    requires p > 0
    ensures n == n / p * p + n % p
  {
  }

  lemma UnwrappedMod(high: nat, word: nat, q: nat, p: nat, r: nat, low: nat, lq: nat, lr: nat)
    requires p > 0 && word == q * p + r && low == lq * p + lr
    ensures (high * word + low) % p == (r * high + lr) % p
  {
    assert high * word + low == (r * high + lr) + (high * q + lq) * p;
    ModShift(r * high + lr, high * q + lq, p);
  }

  // ---------------------------------------------------------------- the result

  /** The two wrap-arounds are one. */
  lemma OneWrap(period: nat, high: nat, low: nat)
    requires period > 0
    ensures Elapsed(period, high, low) == Uint32(Remain(period) * high + low % PeriodUs(period)) % PeriodUs(period)
  {
    WrapTwice(Remain(period) * high, low % PeriodUs(period));
    hide Uint32;
  }

  lemma WrapTwice(x: nat, y: nat)
    ensures Uint32(Uint32(x) + y) == Uint32(x + y)
  {
  }

  /** Dropping whole words of x keeps x modulo p exactly when the dropped words vanish modulo p. */
  lemma DroppedBits(x: nat, r: nat, q: nat, p: nat)
    requires p > 0 && WORD == q * p + r
    ensures Uint32(x) % p == x % p <==> (x / WORD * r) % p == 0
  {
    var k, y := x / WORD, Uint32(x);
    assert k * (q * p + r) == (k * q) * p + k * r;
    assert x == (y + k * r) + (k * q) * p;
    hide Uint32;
    ModShift(y + k * r, k * q, p);
    ModSame(y, k * r, p);
  }

  /** Main result: for every TSF and period the 32-bit computation gives the TSF modulo the period exactly
      when the bits it drops are a multiple of the period. */
  lemma ElapsedExact(period: nat, high: nat, low: nat)
    requires period > 0
    ensures Elapsed(period, high, low) == Tsf(high, low) % PeriodUs(period)
            <==> (Wraps(period, high, low) * Remain(period)) % PeriodUs(period) == 0
  {
    hide Elapsed, Tsf, Remain, PeriodUs, Uint32;
    var q := WordMod(period);
    OneWrap(period, high, low);
    Unwrapped(period, high, low);
    DroppedBits(Remain(period) * high + low % PeriodUs(period), Remain(period), q, PeriodUs(period));
  }

  /** So without a wrap the delta is positive, at most a period, and leads to the next TBTT. */
  lemma DeltaReachesTbtt(period: nat, high: nat, low: nat)
    requires period > 0 && Remain(period) * high + PeriodUs(period) <= WORD
    ensures Elapsed(period, high, low) == Tsf(high, low) % PeriodUs(period)
    ensures 0 < Delta(period, high, low) <= PeriodUs(period)
    ensures (Tsf(high, low) + Delta(period, high, low)) % PeriodUs(period) == 0
  {
    var t, p := Tsf(high, low), PeriodUs(period);
    assert p > 0;
    hide Elapsed, Tsf, Remain, PeriodUs;
    NoWrap(Remain(period) * high, low, p);
    assert Wraps(period, high, low) == 0;
    hide Wraps;
    ElapsedExact(period, high, low);
    Vanishes(Wraps(period, high, low), Remain(period), p);
    assert Elapsed(period, high, low) == t % p;
    ToNextMultiple(t, p);
    assert 0 < Delta(period, high, low) <= PeriodUs(period);
    assert (Tsf(high, low) + Delta(period, high, low)) % PeriodUs(period) == 0;
  }

  lemma NoWrap(x: nat, low: nat, p: nat)
    requires p > 0 && x + p <= WORD
    ensures (x + low % p) / WORD == 0
  {
  }

  lemma Vanishes(k: nat, r: nat, p: nat)
    requires p > 0 && k == 0
    ensures (k * r) % p == 0
  {
  }

  lemma ToNextMultiple(t: nat, p: nat)
    requires p > 0
    ensures (t + (p - t % p)) % p == 0
  {
    DivMod(t + (p - t % p), p, t / p + 1, 0);
  }

  /** With the default period of 100 the computation is right for the first 2^52 microseconds or so. */
  lemma DefaultPeriod(high: nat, low: nat)
    requires high <= 0xfffe6
    ensures Elapsed(100, high, low) == Tsf(high, low) % 102400
  {
    assert Remain(100) == 4096;
    DeltaReachesTbtt(100, high, low);
  }

  /** And wrong at 2^52. */
  lemma DefaultPeriodFails()
    ensures Elapsed(100, 0x100000, 0) != Tsf(0x100000, 0) % 102400
  {
    assert Remain(100) == 4096;
    assert Wraps(100, 0x100000, 0) == 1;
    ElapsedExact(100, 0x100000, 0);
  }

  // ---------------------------------------------------------------- the timer

  class Beacon {
    var beaconPeriod: nat
    var beaconRemain: nat
    var timerValue: nat
    var isUpdateBeacon: bool

    ghost predicate Valid()
      reads this
    {
      0 < beaconPeriod < 0x10000 && beaconRemain == Remain(beaconPeriod)
    }

    /** The set-up in RTUSBBssBeaconStart */
    constructor (period: nat)
      requires 0 < period < 0x10000
      ensures Valid() && beaconPeriod == period && timerValue == 10 && !isUpdateBeacon
    {
      beaconPeriod := period;
      beaconRemain := 0xffffffff % (period * 1024) + 1;
      timerValue := 10;
      isUpdateBeacon := false;
    }

    /** The arithmetic of BeaconUpdateExec */
    method UntilTbtt(low: nat, high: nat) returns (delta: nat)
      requires Valid() && low < WORD && high < WORD
      ensures delta == Delta(beaconPeriod, high, low)
    {
      hide Uint32, Remain;
      var p := beaconPeriod * 1024;
      assert p == PeriodUs(beaconPeriod);
      hide PeriodUs;
      var remainHigh := Uint32(beaconRemain * high);
      var remainLow := low % p;
      var remain := Uint32(remainHigh + remainLow) % p;
      delta := p - remain;
    }

    /** BeaconUpdateExec. If the beacon is to be updated, the timer (in milliseconds) expires after the
        computed TBTT and at most 10 ms late; otherwise it expires more than 54 ms before it. */
    method UpdateExec(low: nat, high: nat)
      requires Valid() && low < WORD && high < WORD
      modifies this`timerValue, this`isUpdateBeacon
      ensures Valid()
      ensures var delta := Delta(beaconPeriod, high, low);
              && isUpdateBeacon == (delta < 151 * 1024) && timerValue == (if isUpdateBeacon then delta / 1024 + 10 else 100)
              && (isUpdateBeacon ==> delta < timerValue * 1000 <= delta + 10000)
              && (!isUpdateBeacon ==> timerValue * 1000 + 54000 < delta)
    {
      hide Delta, Remain;
      var delta := UntilTbtt(low, high);
      var delta2Ms := delta / 1024;
      if delta2Ms > 150 {
        timerValue, isUpdateBeacon := 100, false;
      } else {
        timerValue, isUpdateBeacon := delta2Ms + 10, true;
      }
    }
  }
}
