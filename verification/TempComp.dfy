/** Closed-loop temperature compensation of the transmit power (chips/mt76x0.c): a level from two boundary
    tables, and the six-bit field of TX_ALC_CFG_1 that carries it. */
module TempComp {

  const MAX_BDY_LEVEL := 8
  const TX_ALC_STEP := 2

  // ---------------------------------------------------------------- the level

  /** Boundaries are entries 1..7; entry 0 is not used. */
  type BdyTable = t: seq<int> | |t| == MAX_BDY_LEVEL witness [0, 0, 0, 0, 0, 0, 0, 0]

  /** The first index from idx on whose boundary is not passed (above, or below for the minus table). */
  function Above(plus: BdyTable, temp: int, idx: nat): (k: nat)
    requires 1 <= idx <= MAX_BDY_LEVEL
    ensures idx <= k <= MAX_BDY_LEVEL
    ensures forall i | idx <= i < k :: temp > plus[i]
    ensures k < MAX_BDY_LEVEL ==> temp <= plus[k]
    decreases MAX_BDY_LEVEL - idx
  {
    if idx == MAX_BDY_LEVEL || temp <= plus[idx] then idx else Above(plus, temp, idx + 1)
  }

  function Below(minus: BdyTable, temp: int, idx: nat): (k: nat)
    requires 1 <= idx <= MAX_BDY_LEVEL
    ensures idx <= k <= MAX_BDY_LEVEL
    ensures forall i | idx <= i < k :: temp < minus[i]
    ensures k < MAX_BDY_LEVEL ==> temp >= minus[k]
    decreases MAX_BDY_LEVEL - idx
  {
    if idx == MAX_BDY_LEVEL || temp >= minus[idx] then idx else Below(minus, temp, idx + 1)
  }

  /** The compensation level that get_temp_tx_alc_level finds. */
  function Level(minus: BdyTable, plus: BdyTable, temp: int): int {
    if temp < minus[1] then -(TX_ALC_STEP * (Below(minus, temp, 1) - 1))
    else if temp > plus[1] then TX_ALC_STEP * (Above(plus, temp, 1) - 1)
    else 0
  }

  /** A higher reading never gets a lower level, whatever the tables hold. */
  lemma LevelMonotone(minus: BdyTable, plus: BdyTable, s: int, t: int)
    requires s <= t
    ensures Level(minus, plus, s) <= Level(minus, plus, t)
  {
    assert Below(minus, t, 1) <= Below(minus, s, 1);
    assert Above(plus, s, 1) <= Above(plus, t, 1);
  }

  /** Boundaries up to entry n that a reading has crossed. */
  function CrossedPlus(plus: BdyTable, temp: int, n: nat): nat
    requires n < MAX_BDY_LEVEL
  {
    if n == 0 then 0 else CrossedPlus(plus, temp, n - 1) + if temp > plus[n] then 1 else 0
  }

  function CrossedMinus(minus: BdyTable, temp: int, n: nat): nat
    requires n < MAX_BDY_LEVEL
  {
    if n == 0 then 0 else CrossedMinus(minus, temp, n - 1) + if temp < minus[n] then 1 else 0
  }

  lemma {:induction false} PlusPrefix(plus: BdyTable, temp: int, k: nat, n: nat)
    requires 1 <= k <= MAX_BDY_LEVEL && n < MAX_BDY_LEVEL
    requires forall i | 1 <= i <= n :: temp > plus[i] <==> i < k
    ensures CrossedPlus(plus, temp, n) == if n < k then n else k - 1
  {
    if n > 0 {
      PlusPrefix(plus, temp, k, n - 1);
    }
  }

  lemma {:induction false} MinusPrefix(minus: BdyTable, temp: int, k: nat, n: nat)
    requires 1 <= k <= MAX_BDY_LEVEL && n < MAX_BDY_LEVEL
    requires forall i | 1 <= i <= n :: temp < minus[i] <==> i < k
    ensures CrossedMinus(minus, temp, n) == if n < k then n else k - 1
  {
    if n > 0 {
      MinusPrefix(minus, temp, k, n - 1);
    }
  }

  /** Away from the reference the boundaries go down in the minus table and up in the plus table. */
  predicate Sorted(minus: BdyTable, plus: BdyTable) {
    && minus[1] <= plus[1]
    && forall i, j | 1 <= i < j < MAX_BDY_LEVEL :: minus[j] <= minus[i] && plus[i] <= plus[j]
  }

  /** With sorted tables the level is the step times the boundaries crossed. */
  lemma LevelCounts(minus: BdyTable, plus: BdyTable, temp: int)
    requires Sorted(minus, plus)
    ensures Level(minus, plus, temp) == TX_ALC_STEP * (CrossedPlus(plus, temp, 7) - CrossedMinus(minus, temp, 7))
  {
    hide Above, Below, CrossedPlus, CrossedMinus;
    PlusPrefix(plus, temp, Above(plus, temp, 1), 7);
    MinusPrefix(minus, temp, Below(minus, temp, 1), 7);
  }

  /** get_temp_tx_alc_level */
  method GetLevel(enable: bool, minus: BdyTable, plus: BdyTable, temp: int) returns (ok: bool, level: int)
    ensures ok == enable
    ensures ok ==> level == Level(minus, plus, temp) && -14 <= level <= 14
  {
    if !enable {
      return false, 0;
    }
    var idx := 1;
    if temp < minus[1] {
      while idx < MAX_BDY_LEVEL && temp < minus[idx]
        invariant 1 <= idx <= MAX_BDY_LEVEL && Below(minus, temp, 1) == Below(minus, temp, idx)
      {
        idx := idx + 1;
      }
      return true, -(TX_ALC_STEP * (idx - 1));
    } else if temp > plus[1] {
      while idx < MAX_BDY_LEVEL && temp > plus[idx]
        invariant 1 <= idx <= MAX_BDY_LEVEL && Above(plus, temp, 1) == Above(plus, temp, idx)
      {
        idx := idx + 1;
      }
      return true, TX_ALC_STEP * (idx - 1);
    } else {
      return true, 0;
    }
  }

  // ---------------------------------------------------------------- the register field

  /** A value stored in a signed char. */
  function Char(n: int): int {
    (n + 128) % 256 - 128
  }

  /** The low six bits of a register value as a signed number. */
  function Signed6(reg: nat): int {
    var f := reg % 64;
    if f >= 32 then f - 64 else f
  }

  /** The six bits written for an 8-bit value: bit 5 carries the sign. */
  function Encode6(n: int): (f: nat)
    ensures f < 64
  {
    if n < 0 then n % 32 + 32 else n % 64
  }

  lemma EncodeExact(n: int)
    ensures Signed6(Encode6(n)) == n <==> -32 <= n <= 31
  {
  }

  /** TX_ALC_CFG_1, LastTempCompDeltaPwr and DeltaPwrBeforeTempComp */
  datatype State = State(reg: nat, last: int, before: int)

  /** The read-modify-write of mt76x0_temp_tx_alc for a new compensation. */
  function Compensate(s: State, delta: int): State {
    var before := Char(Signed6(s.reg) - s.last);
    State(s.reg - s.reg % 64 + Encode6(Char(delta + before)), delta, before)
  }

  /** The field holds the uncompensated value plus the latest compensation only. */
  predicate Tracks(s: State, base: int) {
    Signed6(s.reg) == base + s.last
  }

  predicate Fits(n: int) {
    -32 <= n <= 31
  }

  lemma FieldOf(hi: nat, f: nat)
    requires hi % 64 == 0 && f < 64
    ensures Signed6(hi + f) == Signed6(f) && (hi + f) - (hi + f) % 64 == hi
  {
  }

  /** One compensation replaces the previous one exactly when the sum fits in the field. */
  lemma CompensateTracks(s: State, base: int, delta: int)
    requires Tracks(s, base) && Fits(base)
    ensures Tracks(Compensate(s, delta), base) <==> Fits(base + delta)
    ensures var r := Compensate(s, delta).reg; r - r % 64 == s.reg - s.reg % 64
  {
    hide Signed6, Encode6, Char;
    CharFits(base);
    CharFits(delta + base);
    var n := Char(delta + base);
    HighBits(s.reg);
    FieldOf(s.reg - s.reg % 64, Encode6(n));
    EncodeExact(n);
    SignedRange(Encode6(n));
  }

  lemma CharFits(n: int)
    ensures Fits(n) ==> Char(n) == n
  {
  }

  lemma HighBits(reg: nat)
    ensures 0 <= reg - reg % 64 && (reg - reg % 64) % 64 == 0
  {
  }

  lemma SignedRange(f: nat)
    ensures -32 <= Signed6(f) <= 31
  {
  }

  function RunAll(s: State, deltas: seq<int>): State
    decreases |deltas|
  {
    if deltas == [] then s else RunAll(Compensate(s, deltas[0]), deltas[1..])
  }

  /** Every state of the run tracks. */
  predicate Steady(s: State, base: int, deltas: seq<int>)
    decreases |deltas|
  {
    Tracks(s, base) && (deltas != [] ==> Steady(Compensate(s, deltas[0]), base, deltas[1..]))
  }

  /** Main result: over every run of compensations, the field is the starting value plus the latest
      compensation after each of them if and only if every such sum fits in the field; and the other bits of
      the register never change. */
  lemma {:induction false} CompensationDoesNotAccumulate(s: State, base: int, deltas: seq<int>)
    requires Tracks(s, base) && Fits(base)
    ensures Steady(s, base, deltas) <==> forall i | 0 <= i < |deltas| :: Fits(base + deltas[i])
    ensures Steady(s, base, deltas) ==>
              var r := RunAll(s, deltas).reg;
              && Signed6(r) == base + (if deltas == [] then s.last else deltas[|deltas| - 1])
              && r - r % 64 == s.reg - s.reg % 64
    decreases |deltas|
  {
    if deltas != [] {
      CompensateTracks(s, base, deltas[0]);
      var u := Compensate(s, deltas[0]);
      assert u.last == deltas[0];
      hide Compensate, Tracks;
      if Fits(base + deltas[0]) {
        CompensationDoesNotAccumulate(u, base, deltas[1..]);
        assert forall i | 1 <= i < |deltas| :: deltas[i] == deltas[1..][i - 1];
      }
    }
  }

  /** Once a sum does not fit, its error stays: from 31, a compensation by 2 and then by 0 leaves -1. */
  lemma ErrorStays()
    ensures Tracks(State(31, 0, 0), 31)
    ensures Signed6(Compensate(Compensate(State(31, 0, 0), 2), 0).reg) == -1
  {
    Computes(State(31, 0, 0), 2, 31, 33, 33);
    Computes(State(33, 2, 31), 0, -33, -33, 63);
  }

  lemma Computes(s: State, delta: int, before: int, n: int, field: nat)
    requires s.reg < 64 && Signed6(s.reg) - s.last == before && delta + before == n && -128 <= before < 128 && -128 <= n < 128
    requires field == Encode6(n)
    ensures Compensate(s, delta) == State(field, delta, before)
  {
  }

  // ---------------------------------------------------------------- the periodic adjustment

  datatype Reading = NoReport | Report(temp: int)

  class Compensator {
    const minusG: BdyTable
    const plusG: BdyTable
    const minusA: (BdyTable, BdyTable)
    const plusA: (BdyTable, BdyTable)
    const autoG: bool
    const autoA: bool
    const chBndryIdx: nat
    const mpDelta: int
    var compG: int
    var compA: int
    var state: State

    /** mt76x0_temp_tx_alc_init, with the tables already shifted to the reference temperature */
    constructor (minusG: BdyTable, plusG: BdyTable, minusA: (BdyTable, BdyTable), plusA: (BdyTable, BdyTable),
                 autoG: bool, autoA: bool, chBndryIdx: nat, mpDelta: int, reg: nat)
      ensures this.minusG == minusG && this.plusG == plusG && this.minusA == minusA && this.plusA == plusA
      ensures this.autoG == autoG && this.autoA == autoA && this.chBndryIdx == chBndryIdx && this.mpDelta == mpDelta
      ensures compG == compA == 0 && state == State(reg, 0, 0) && Tracks(state, Signed6(reg)) && Fits(Signed6(reg))
    {
      this.minusG, this.plusG, this.minusA, this.plusA := minusG, plusG, minusA, plusA;
      this.autoG, this.autoA, this.chBndryIdx, this.mpDelta := autoG, autoA, chBndryIdx, mpDelta;
      compG, compA, state := 0, 0, State(reg, 0, 0);
    }

    /** mt76x0_temp_tx_alc. Channels 1..14 are band G; band A has one pair of tables up to the boundary channel
        and another behind it. Without a report, or with the band's compensation off, nothing changes. */
    method Adjust(channel: nat, reading: Reading)
      modifies this
      ensures channel <= 14 ==> compA == old(compA)
      ensures channel > 14 ==> compG == old(compG)
      ensures reading.NoReport? || (channel <= 14 && !autoG) || (channel > 14 && !autoA) ==>
                state == old(state) && compG == old(compG) && compA == old(compA)
      ensures reading.Report? && channel <= 14 && autoG ==>
                compG == Level(minusG, plusG, reading.temp) && state == Compensate(old(state), Char(compG - mpDelta))
      ensures reading.Report? && 14 < channel <= chBndryIdx && autoA ==>
                compA == Level(minusA.0, plusA.0, reading.temp) && state == Compensate(old(state), Char(compA - mpDelta))
      ensures reading.Report? && 14 < channel && chBndryIdx < channel && autoA ==>
                compA == Level(minusA.1, plusA.1, reading.temp) && state == Compensate(old(state), Char(compA - mpDelta))
    {
      hide Char, Signed6, Encode6, Level;
      if (if channel > 14 then !autoA else !autoG) || reading.NoReport? {
        return;
      }
      var minus, plus, enable := minusG, plusG, autoG;
      if channel > 14 {
        enable := autoA;
        if channel <= chBndryIdx {
          minus, plus := minusA.0, plusA.0;
        } else {
          minus, plus := minusA.1, plusA.1;
        }
      }
      var ok, level := GetLevel(enable, minus, plus, reading.temp);
      if !ok {
        return;
      }
      var delta;
      if channel <= 14 {
        compG := level;
        delta := Char(compG - mpDelta);
      } else {
        compA := level;
        delta := Char(compA - mpDelta);
      }
      var before := Char(Signed6(state.reg) - state.last);
      var last := delta;
      delta := Encode6(Char(delta + before));
      state := State(state.reg - state.reg % 64 + delta, last, before);
    }
  }
}
