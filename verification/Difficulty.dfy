/** The six difficulty rules of the chain and their dispatch, with mainnet parameters.

    Arithmetic is the 256-bit arithmetic of the source: a product or sum that does not fit
    aborts (`ArithmeticOverflow`), a left shift drops the high bits. */
module Difficulty {
  import opened Basics
  import opened Arith
  import opened Compact

  /** What a rule can see of an earlier block. */
  datatype Head = Head(timestamp: u32, bits: u32)

  /** `ChainLookup`: heads by height. */
  type Lookup = map<nat, Head>

  datatype Fault = MissingHeader(height: nat) | ArithmeticOverflow

  type Required = Result<u32, Fault>

  const POW_LIMIT: nat := 0xfff_ffffffff_ffffffff_ffffffff_ffffffff_ffffffff_ffffffff_ffffffff
  const SPACING := 600
  const TIMESPAN_V1 := 1_209_600
  const TIMESPAN_V2 := 21_600
  const WINDOW := 45
  const CIP01_HEIGHT := 20_289
  const CIP02_HEIGHT := 21_346
  const CIP03_HEIGHT := 27_260
  const CIP04_HEIGHT := 46_331
  const CIP05_HEIGHT := 397_000
  const RESET_BITS: u32 := 0x1c0f_fff0
  const MIN_DIFFICULTY_COMPACT: u32 := 0x1e0f_ffff

  function Clamp(x: int, lo: int, hi: int): int {
    if x < lo then lo else if x > hi then hi else x
  }

  /** Division of the source's signed integers: toward zero. */
  function TruncDiv(a: int, d: int): int
    requires d > 0
  {
    if a >= 0 then a / d else -((-a) / d)
  }

  function Encoded(target: nat): u32
    requires target < TWO256
  {
    ClosedForm(target);
    TargetToCompact(target)
  }

  // ---------- CIP01, CIP02, CIP03: old target times actual over expected time ----------

  function NeedsShift(target: nat): bool {
    BitLen(target) > BitLen(POW_LIMIT) - 1
  }

  /** The factor that is multiplied: the target, halved when it is close to the limit. */
  function Shifted(target: nat): nat {
    if NeedsShift(target) then target / 2 else target
  }

  function Scaled(target: nat, actual: nat, expected: nat): nat
    requires expected > 0
  {
    var t := Div(Mul(Shifted(target), actual), expected);
    Min(if NeedsShift(target) then t * 2 % TWO256 else t, POW_LIMIT)
  }

  function Retarget(parentBits: u32, actual: nat, expected: nat): Required
    requires expected > 0
  {
    var target := Target(parentBits);
    if Mul(Shifted(target), actual) >= TWO256 then Err(ArithmeticOverflow)
    else Ok(Encoded(Scaled(target, actual, expected)))
  }

  lemma PeriodStart(height: nat, interval: nat)
    requires height > 0 && interval > 0 && height % interval == 0
    ensures height == interval || height >= 2 * interval
  {
    var q := height / interval;
    MulMonoIf(2, q, interval);
    assert height == q * interval;
  }

  /** The block a period is measured from: the very first period has no block before it. */
  function PeriodFirst(height: nat, interval: nat): nat
    requires height > 0 && interval > 0 && height % interval == 0
  {
    PeriodStart(height, interval);
    height - 1 - (if height == interval then interval - 1 else interval)
  }

  /** Time between two blocks, held between two bounds. */
  function Elapsed(chain: Lookup, last: nat, first: nat, lo: nat, hi: nat): nat
    requires last in chain && first in chain && lo <= hi
  {
    Clamp(chain[last].timestamp - chain[first].timestamp, lo, hi)
  }

  /** CIP01 and CIP02 differ only in the length of the period. */
  function PeriodicRetarget(height: nat, chain: Lookup, timespan: nat): Required
    requires height > 0 && (timespan == TIMESPAN_V1 || timespan == TIMESPAN_V2)
  {
    var parent, interval := height - 1, timespan / SPACING;
    if parent !in chain then Err(MissingHeader(parent))
    else if height % interval != 0 then Ok(chain[parent].bits)
    else
      var first := PeriodFirst(height, interval);
      if first !in chain then Err(MissingHeader(first))
      else Retarget(chain[parent].bits, Elapsed(chain, parent, first, timespan / 4, timespan * 4), timespan)
  }

  function Cip01(height: nat, chain: Lookup): Required
    requires height > 0
  {
    PeriodicRetarget(height, chain, TIMESPAN_V1)
  }

  function Cip02(height: nat, chain: Lookup): Required
    requires height > 0
  {
    PeriodicRetarget(height, chain, TIMESPAN_V2)
  }

  function Cip03(height: nat, chain: Lookup): Required
    requires height > 0
  {
    var parent, first := height - 1, Cip03First(height);
    if parent !in chain then Err(MissingHeader(parent))
    else if first !in chain then Err(MissingHeader(first))
    else Retarget(chain[parent].bits, Elapsed(chain, parent, first, CIP03_LOW, CIP03_HIGH), TIMESPAN_V2)
  }

  const CIP03_LOW := TIMESPAN_V2 * 100 / 112
  const CIP03_HIGH := TIMESPAN_V2 * 112 / 100

  function Cip03First(height: nat): nat
    requires height > 0
  {
    Max(height - 1 - TIMESPAN_V2 / SPACING, 0)
  }

  // ---------- CIP04: PID controller ----------

  const MANTISSA_MAX := 8_388_607

  /** Halving until the value fits 23 bits. */
  function Halved(r: int): (h: int)
    decreases if r > 0 then r else 0
  {
    if r > MANTISSA_MAX then Halved(r / 2) else r
  }

  /** `h` is the first of `r`, `r / 2`, `r / 4`, ... that fits: `k` halvings, and one fewer
      does not fit. */
  ghost predicate FirstFit(r: int, k: nat, h: int) {
    h <= MANTISSA_MAX && if k == 0 then h == r else h == r / Pow2(k) && r / Pow2(k - 1) > MANTISSA_MAX
  }

  method HalveToMantissa(r: int) returns (h: int, ghost k: nat)
    ensures h == Halved(r) && FirstFit(r, k, h)
  {
    hide Pow2;
    h, k := r, 0;
    Pow2Zero();
    while h > MANTISSA_MAX
      invariant Halved(h) == Halved(r) && h == r / Pow2(k)
      invariant k > 0 ==> r / Pow2(k - 1) > MANTISSA_MAX
      decreases h
    {
      HalfAgain(r, k);
      h, k := h / 2, k + 1;
    }
  }

  lemma Pow2Zero()
    ensures Pow2(0) == 1
  {
  }

  lemma HalfAgain(r: int, k: nat)
    requires r >= 0
    ensures r / Pow2(k + 1) == r / Pow2(k) / 2
  {
    hide Pow2;
    Pow2Next(k);
    DivDiv(r, Pow2(k), 2);
  }

  method TargetBitLength(val: nat) returns (count: nat)
    requires val < TWO256
    ensures count == BitLen(val)
  {
    Pow2Is256();
    BitLenIff(val, 256);
    count := 0;
    var v := val;
    while v > 0
      invariant count + BitLen(v) == BitLen(val) <= 256
    {
      count := count + 1;
      v := v / 2;
      if count > 256 {
        assert false;
      }
    }
  }

  /** The size of the change: the PID value, aligned with the leading bits of the target. */
  function Adjustment(target: nat, r: int): nat {
    var a := if r < 0 then -r else r;
    if BitLen(target) > 24 then Mul(a, Pow2(BitLen(target) - 24)) % TWO256 else a % TWO256
  }

  /** The target moved by the PID value. */
  function Moved(target: nat, r: int): (m: Result<nat, Fault>)
    requires target < TWO256
    ensures m.Ok? ==> m.value < TWO256
  {
    var a := Adjustment(target, r);
    if r >= 0 then Ok(if a < target then target - a else 0)
    else if target + a >= TWO256 then Err(ArithmeticOverflow)
    else Ok(Min(target + a, POW_LIMIT))
  }

  function Floored(compact: u32): u32 {
    if compact > MIN_DIFFICULTY_COMPACT then MIN_DIFFICULTY_COMPACT else compact
  }

  /** `pid` gives the scaled controller output for an average block time. */
  function Cip04(height: nat, chain: Lookup, pid: int -> int): Required
    requires height > 8
  {
    var parent, first := height - 1, height - 9;
    if parent !in chain then Err(MissingHeader(parent))
    else if first !in chain then Err(MissingHeader(first))
    else
      var avg := TruncDiv(chain[parent].timestamp - chain[first].timestamp, 8);
      var error := avg - SPACING;
      if -10 < error < 10 then Ok(chain[parent].bits)
      else
        match Moved(Target(chain[parent].bits), Halved(pid(avg)))
        case Err(e) => Err(e)
        case Ok(t) => Ok(Floored(Encoded(t)))
  }

  // ---------- CIP05: time-gated ratio with CIP04 fallback ----------

  predicate InGate(timestamp: nat) {
    timestamp % 60 <= 14 || 30 <= timestamp % 60 <= 44
  }

  function Cip05(height: nat, chain: Lookup, pid: int -> int): Required
    requires height > 8
  {
    var parent, prev := height - 1, height - 2;
    if parent !in chain then Err(MissingHeader(parent))
    else if !InGate(chain[parent].timestamp) then Cip04(height, chain, pid)
    else if prev !in chain then Err(MissingHeader(prev))
    else
      var actual := Elapsed(chain, parent, prev, SPACING - SPACING / 4, SPACING + SPACING / 2);
      var product := Mul(Target(chain[parent].bits), actual);
      if product >= TWO256 then Err(ArithmeticOverflow)
      else Ok(Floored(Encoded(Min(Div(product, SPACING), POW_LIMIT))))
  }

  // ---------- CIP06: linearly weighted moving average ----------

  const K := WINDOW * (WINDOW + 1) * SPACING / 2

  /** Running values of the window loop. */
  datatype Acc = Acc(prev: int, weighted: nat, avg: nat)

  /** Timestamps forced to increase by at least one second. */
  function Monotone(prev: int, timestamp: int): int {
    if timestamp > prev then timestamp else prev + 1
  }

  function SolveTime(prev: int, timestamp: int): (s: nat)
    ensures 1 <= s <= 6 * SPACING
  {
    Min(Monotone(prev, timestamp) - prev, 6 * SPACING)
  }

  /** The window from height `start`, after `j` blocks. */
  function Window(chain: Lookup, start: nat, j: nat): (r: Result<Acc, Fault>)
    requires start > 0
    ensures r.Err? ==> r.error.MissingHeader?
  {
    if j == 0 then
      if start - 1 !in chain then Err(MissingHeader(start - 1)) else Ok(Acc(chain[start - 1].timestamp, 0, 0))
    else
      match Window(chain, start, j - 1)
      case Err(e) => Err(e)
      case Ok(a) =>
        if start + j - 1 !in chain then Err(MissingHeader(start + j - 1))
        else
          var head := chain[start + j - 1];
          Ok(Acc(Monotone(a.prev, head.timestamp),
                 a.weighted + Mul(SolveTime(a.prev, head.timestamp), j),
                 a.avg + Div(Target(head.bits), WINDOW * K)))
  }

  function Cip06(height: nat, chain: Lookup): Required
    requires height > 0
  {
    var parent := height - 1;
    if parent < WINDOW then Ok(Encoded(POW_LIMIT))
    else
      match Window(chain, parent - WINDOW + 1, WINDOW)
      case Err(e) => Err(e)
      case Ok(a) =>
        if Mul(a.avg, a.weighted) >= TWO256 then Err(ArithmeticOverflow)
        else Ok(Encoded(Min(Mul(a.avg, a.weighted), POW_LIMIT)))
  }

  /** The window loop of CIP06. */
  method LwmaNextWork(height: nat, chain: Lookup) returns (r: Required)
    requires height > 0
    ensures r == Cip06(height, chain)
  {
    hide Target, Encoded;
    var parent := height - 1;
    if parent < WINDOW {
      return Ok(Encoded(POW_LIMIT));
    }
    var anchor := parent - WINDOW;
    if anchor !in chain {
      MissingStays(chain, anchor + 1, 0, WINDOW);
      return Err(MissingHeader(anchor));
    }
    var previousTimestamp: int := chain[anchor].timestamp;
    var sumWeightedSolvetimes: nat := 0;
    var avgTarget: nat := 0;
    var j := 0;
    while j < WINDOW
      invariant 0 <= j <= WINDOW
      invariant Window(chain, anchor + 1, j) == Ok(Acc(previousTimestamp, sumWeightedSolvetimes, avgTarget))
    {
      var h := anchor + 1 + j;
      if h !in chain {
        MissingStays(chain, anchor + 1, j + 1, WINDOW);
        return Err(MissingHeader(h));
      }
      var blockTime: int := chain[h].timestamp;
      var thisTimestamp := if blockTime > previousTimestamp then blockTime else previousTimestamp + 1;
      var solvetime := Min(thisTimestamp - previousTimestamp, 6 * SPACING);
      previousTimestamp := thisTimestamp;
      j := j + 1;
      sumWeightedSolvetimes := sumWeightedSolvetimes + Mul(solvetime, j);
      avgTarget := avgTarget + Div(Target(chain[h].bits), WINDOW * K);
    }
    var nextTarget := Mul(avgTarget, sumWeightedSolvetimes);
    if nextTarget >= TWO256 {
      return Err(ArithmeticOverflow);
    }
    return Ok(Encoded(Min(nextTarget, POW_LIMIT)));
  }

  lemma {:induction false} MissingStays(chain: Lookup, start: nat, i: nat, j: nat)
    requires start > 0 && i <= j && Window(chain, start, i).Err?
    ensures Window(chain, start, j) == Window(chain, start, i)
    decreases j
  {
    if i < j {
      MissingStays(chain, start, i, j - 1);
    }
  }

  // ---------- Dispatch ----------

  /** `get_next_work_required`: the rule in force at the parent's height. */
  function NextWorkRequired(height: nat, chain: Lookup, pid: int -> int): Required {
    if height == 0 then Ok(Encoded(POW_LIMIT))
    else
      var parent := height - 1;
      if parent < CIP01_HEIGHT then Cip01(height, chain)
      else if parent == CIP01_HEIGHT then Ok(RESET_BITS)
      else if parent < CIP02_HEIGHT then Cip02(height, chain)
      else if parent < CIP03_HEIGHT then Cip03(height, chain)
      else if parent < CIP04_HEIGHT then Cip04(height, chain, pid)
      else if parent < CIP05_HEIGHT then Cip05(height, chain, pid)
      else Cip06(height, chain)
  }
}
