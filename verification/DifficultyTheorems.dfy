/** No rule lets the target exceed the proof-of-work limit, and none of the rules after
    CIP01 can leave 256 bits. */
module DifficultyTheorems {
  import opened Basics
  import opened Arith
  import opened Compact
  import opened Difficulty
  import Pid

  /** Targets of all blocks below `height` respect the limit. */
  ghost predicate Bounded(chain: Lookup, height: nat) {
    forall h :: h in chain && h < height ==> Target(chain[h].bits) <= POW_LIMIT
  }

  /** For averages of 32-bit timestamps the scaled controller output is not too far below zero. */
  ghost predicate PidBounded(pid: int -> int) {
    forall avg :: -0x2000_0000 <= avg <= 0x2000_0000 ==> -0x800_0000_0000 <= pid(avg)
  }

  /** The controller in exact arithmetic meets that bound. */
  lemma {:induction false} ExactPidBounded()
    ensures PidBounded(Pid.Output)
  {
    hide Pid.Output;
    forall avg | -0x2000_0000 <= avg <= 0x2000_0000
      ensures -0x800_0000_0000 <= Pid.Output(avg)
    {
      Pid.OutputBounded(avg);
    }
  }

  lemma LimitBits()
    ensures Pow2(236) == POW_LIMIT + 1 && BitLen(POW_LIMIT) == 236
  {
    hide Pow2, BitLen;
    SmallPowers();
    Pow2Add(16, 16);
    Pow2Add(32, 32);
    Pow2Add(64, 64);
    Pow2Add(128, 64);
    Pow2Add(192, 32);
    Pow2Add(224, 8);
    Pow2Add(232, 4);
    Pow2Four();
    BitLenIff(POW_LIMIT, 236);
    BitLenIff(POW_LIMIT, 235);
    Pow2Add(1, 235);
    Pow2One();
  }

  lemma Pow2Four()
    ensures Pow2(4) == 16
  {
  }

  lemma Pow2One()
    ensures Pow2(1) == 2
  {
  }

  /** An encoded target at most the limit decodes to at most the limit. */
  lemma EncodedBounded(t: nat)
    requires t < TWO256
    ensures Target(Encoded(t)) <= t
  {
    hide CompactToTarget, TargetToCompact;
    Reencoded(t);
  }

  /** The floor used by CIP04 and CIP05 is the encoded limit, and it respects the limit. */
  lemma {:induction false} FloorIsLimit()
    ensures MIN_DIFFICULTY_COMPACT == Encoded(POW_LIMIT)
    ensures Target(MIN_DIFFICULTY_COMPACT) <= POW_LIMIT
  {
    hide Pow2, BitLen, CompactToTarget, TargetToCompact, ByteLen;
    ClosedForm(POW_LIMIT);
    var n := ByteLen(2 * POW_LIMIT);
    LimitBits();
    Pow2Add(236, 4);
    Pow2Four();
    Pow2One();
    Pow2Add(1, 236);
    assert 8 * 30 == 240 && 8 * 29 == 232;
    Pow2Add(232, 4);
    ByteLenIff(2 * POW_LIMIT, 30);
    ByteLenIff(2 * POW_LIMIT, 29);
    assert n == 30;
    assert 8 * (n - 3) == 216;
    Pow2Add(216, 16);
    SmallPowers();
    Pow2Add(16, 4);
    Pow2Add(216, 20);
    assert Pow2(20) == 0x10_0000;
    DivUnique(POW_LIMIT, Pow2(216), 0xf_ffff);
    EncodedBounded(POW_LIMIT);
  }

  /** CIP04 and CIP05: flooring compact values floors the decoded targets. */
  lemma FlooredBounded(t: nat)
    requires t <= POW_LIMIT
    ensures Target(Floored(Encoded(t))) <= POW_LIMIT
  {
    hide Target, Encoded;
    FloorIsLimit();
    EncodedBounded(t);
  }

  // ---------- CIP01, CIP02, CIP03 ----------

  lemma RetargetBounded(bits: u32, actual: nat, expected: nat)
    requires expected > 0
    ensures var r := Retarget(bits, actual, expected); r.Ok? ==> Target(r.value) <= POW_LIMIT
  {
    hide Target, Encoded;
    var t := Scaled(Target(bits), actual, expected);
    EncodedBounded(t);
  }

  /** Periods of at most a day never overflow. */
  lemma RetargetFits(bits: u32, actual: nat, expected: nat)
    requires expected > 0 && Target(bits) <= POW_LIMIT && actual <= 4 * TIMESPAN_V2
    ensures Retarget(bits, actual, expected).Ok?
  {
    hide Target, Encoded, BitLen;
    var t := Shifted(Target(bits));
    assert t <= POW_LIMIT;
    MulMono(t, POW_LIMIT, actual);
    MulMono(actual, 4 * TIMESPAN_V2, POW_LIMIT);
  }

  /** Shifting the result back to the left drops no bit. */
  ghost predicate RetargetKeepsBits(bits: u32, actual: nat, expected: nat)
    requires expected > 0
  {
    var t := Target(bits);
    NeedsShift(t) ==> Div(Mul(Shifted(t), actual), expected) * 2 < TWO256
  }

  lemma {:induction false} RetargetKeeps(bits: u32, actual: nat, expected: nat)
    requires expected > 1
    ensures Retarget(bits, actual, expected).Ok? ==> RetargetKeepsBits(bits, actual, expected)
  {
    hide Target, Encoded, BitLen;
    var product := Mul(Shifted(Target(bits)), actual);
    DivBounds(product, expected);
    MulMono(2, expected, Div(product, expected));
  }

  ghost predicate PeriodicKeepsBits(height: nat, chain: Lookup, timespan: nat)
    requires height > 0 && (timespan == TIMESPAN_V1 || timespan == TIMESPAN_V2)
  {
    var parent, interval := height - 1, timespan / SPACING;
    parent in chain && height % interval == 0 && PeriodFirst(height, interval) in chain ==>
      var actual := Elapsed(chain, parent, PeriodFirst(height, interval), timespan / 4, timespan * 4);
      RetargetKeepsBits(chain[parent].bits, actual, timespan)
  }

  ghost predicate Cip03KeepsBits(height: nat, chain: Lookup)
    requires height > 0
  {
    height - 1 in chain && Cip03First(height) in chain ==>
      var actual := Elapsed(chain, height - 1, Cip03First(height), CIP03_LOW, CIP03_HIGH);
      RetargetKeepsBits(chain[height - 1].bits, actual, TIMESPAN_V2)
  }

  lemma {:induction false} PeriodicBounded(height: nat, chain: Lookup, timespan: nat)
    requires height > 0 && (timespan == TIMESPAN_V1 || timespan == TIMESPAN_V2) && Bounded(chain, height)
    ensures var r := PeriodicRetarget(height, chain, timespan);
            && (r.Ok? ==> Target(r.value) <= POW_LIMIT && PeriodicKeepsBits(height, chain, timespan))
            && (timespan == TIMESPAN_V2 ==> r != Err(ArithmeticOverflow))
  {
    hide Target, Retarget, RetargetKeepsBits;
    var parent, interval := height - 1, timespan / SPACING;
    if parent in chain && height % interval == 0 && PeriodFirst(height, interval) in chain {
      var actual := Elapsed(chain, parent, PeriodFirst(height, interval), timespan / 4, timespan * 4);
      RetargetBounded(chain[parent].bits, actual, timespan);
      RetargetKeeps(chain[parent].bits, actual, timespan);
      if timespan == TIMESPAN_V2 {
        RetargetFits(chain[parent].bits, actual, timespan);
      }
    }
  }

  lemma {:induction false} Cip03Bounded(height: nat, chain: Lookup)
    requires height > 0 && Bounded(chain, height)
    ensures Cip03(height, chain) != Err(ArithmeticOverflow)
    ensures Cip03(height, chain).Ok? ==> Target(Cip03(height, chain).value) <= POW_LIMIT && Cip03KeepsBits(height, chain)
  {
    hide Target, Retarget, RetargetKeepsBits;
    var parent, first := height - 1, Cip03First(height);
    if parent in chain && first in chain {
      var actual := Elapsed(chain, parent, first, CIP03_LOW, CIP03_HIGH);
      RetargetBounded(chain[parent].bits, actual, TIMESPAN_V2);
      RetargetKeeps(chain[parent].bits, actual, TIMESPAN_V2);
      RetargetFits(chain[parent].bits, actual, TIMESPAN_V2);
    }
  }

  // ---------- The CIP01 overflow, exactly ----------

  const LONGEST := 4 * TIMESPAN_V1

  /** The largest target a CIP01 retarget can multiply by its longest period. */
  const SAFE_TARGET := (TWO256 - 1) / LONGEST

  lemma HalfLimitShift(t: nat)
    requires t <= POW_LIMIT
    ensures NeedsShift(t) <==> t >= (POW_LIMIT + 1) / 2
  {
    hide Pow2, BitLen;
    LimitBits();
    BitLenIff(t, 235);
    Pow2Add(1, 235);
    Pow2One();
  }

  /** A retarget over the longest period aborts exactly above `SAFE_TARGET`: the one-bit
      shift near the limit never rescues it. */
  lemma {:induction false} Cip01AbortsIff(bits: u32)
    requires Target(bits) <= POW_LIMIT
    ensures Retarget(bits, LONGEST, TIMESPAN_V1) == Err(ArithmeticOverflow) <==> Target(bits) > SAFE_TARGET
  {
    hide Target, BitLen, Encoded;
    var t := Target(bits);
    HalfLimitShift(t);
  }

  /** Below that bound no period can make it abort. */
  lemma {:induction false} Cip01Safe(bits: u32, actual: nat)
    requires Target(bits) <= SAFE_TARGET && actual <= LONGEST
    ensures Retarget(bits, actual, TIMESPAN_V1).Ok?
  {
    hide Target, BitLen, Encoded;
    var t := Shifted(Target(bits));
    MulMono(t, SAFE_TARGET, actual);
    MulMono(actual, LONGEST, SAFE_TARGET);
  }

  const GENESIS_BITS: u32 := 0x1e0f_fff0

  /** Inside the first period every block repeats the bits of genesis. */
  lemma {:induction false} FirstPeriodBits(chain: Lookup, h: nat, pid: int -> int)
    requires FollowsRules(chain, 2016, pid) && h < 2016
    requires 0 in chain && chain[0].bits == GENESIS_BITS
    ensures h in chain && chain[h].bits == GENESIS_BITS
    decreases h
  {
    hide NextWorkRequired;
    if h > 0 {
      FirstPeriodBits(chain, h - 1, pid);
      assert NextWorkRequired(h, chain, pid) == Ok(chain[h].bits);
      FirstPeriodKeeps(chain, h, pid);
    }
  }

  lemma FirstPeriodKeeps(chain: Lookup, h: nat, pid: int -> int)
    requires 0 < h < 2016 && h - 1 in chain
    ensures NextWorkRequired(h, chain, pid) == Ok(chain[h - 1].bits)
  {
    hide Retarget, Cip02, Cip03, Cip04, Cip05, Cip06, Encoded, Target, PeriodFirst, Elapsed;
    assert TIMESPAN_V1 / SPACING == 2016 && h % 2016 == h;
  }

  /** On every chain that starts from the genesis block and follows the rules, a first period
      of eight weeks or more aborts. */
  lemma {:induction false} Cip01AbortExample(chain: Lookup, pid: int -> int)
    requires FollowsRules(chain, 2016, pid) && 0 in chain && chain[0].bits == GENESIS_BITS
    requires 2015 in chain && chain[2015].timestamp - chain[0].timestamp >= LONGEST
    ensures NextWorkRequired(2016, chain, pid) == Err(ArithmeticOverflow)
  {
    hide Target, BitLen, Encoded, Retarget, FollowsRules;
    FirstPeriodBits(chain, 2015, pid);
    GenesisTarget();
    Cip01AbortsIff(GENESIS_BITS);
    assert 2016 % (TIMESPAN_V1 / SPACING) == 0;
  }

  const TWO216 := (POW_LIMIT + 1) / 0x10_0000

  lemma Pow216()
    ensures Pow2(216) == TWO216
  {
    hide Pow2;
    LimitBits();
    SmallPowers();
    Pow2Four();
    Pow2Add(16, 4);
    Pow2Add(216, 20);
  }

  lemma GenesisDecoded()
    ensures Target(GENESIS_BITS) == 0xf_fff0 * Pow2(216) % TWO256
  {
    hide Pow2;
    assert GENESIS_BITS / 0x100_0000 == 0x1e && GENESIS_BITS % 0x80_0000 == 0xf_fff0;
    assert 8 * (0x1e - 3) == 216;
  }

  lemma GenesisTarget()
    ensures SAFE_TARGET < Target(GENESIS_BITS) <= POW_LIMIT
  {
    hide Pow2, Target;
    GenesisDecoded();
    Pow216();
  }

  // ---------- CIP04 and CIP05 ----------

  lemma {:induction false} HalvedBounds(r: int)
    ensures Halved(r) <= MANTISSA_MAX
    ensures r >= 0 ==> 0 <= Halved(r)
    ensures r < 0 ==> Halved(r) == r
    decreases if r > 0 then r else 0
  {
    if r > MANTISSA_MAX {
      HalvedBounds(r / 2);
    }
  }

  /** Aligning the controller output with the target drops no bit. */
  ghost predicate AlignKeepsBits(t: nat, r: int) {
    var a := if r < 0 then -r else r;
    BitLen(t) > 24 ==> Mul(a, Pow2(BitLen(t) - 24)) < TWO256
  }

  lemma {:induction false} AlignKeeps(t: nat, r: int)
    requires t <= POW_LIMIT && -0x800_0000_0000 <= r <= 0x800_0000_0000
    ensures AlignKeepsBits(t, r) && t + Adjustment(t, r) < TWO256
  {
    hide Pow2, BitLen;
    LimitBits();
    BitLenIff(t, 236);
    if BitLen(t) > 24 {
      var d, a := Pow2(BitLen(t) - 24), if r < 0 then -r else r;
      Pow2Mono(BitLen(t) - 24, 212);
      MulMono(a, 0x800_0000_0000, d);
      MulMono(d, Pow2(212), 0x800_0000_0000);
      SmallPowers();
      Pow2Add(212, 24);
      assert 0x800_0000_0000 * Pow2(212) < TWO256 / 2 + 1;
      ModSmall(Mul(a, d), TWO256);
    }
  }

  lemma MovedBounded(t: nat, r: int)
    requires t <= POW_LIMIT && -0x800_0000_0000 <= r <= MANTISSA_MAX
    ensures Moved(t, r).Ok? && Moved(t, r).value <= POW_LIMIT && AlignKeepsBits(t, r)
  {
    hide Adjustment, AlignKeepsBits;
    AlignKeeps(t, r);
  }

  /** The moved target is zero exactly if the controller takes away as much as there is. A target
      of more than 24 bits is never used up: the output has at most 23. */
  lemma {:induction false} MovedZeroIff(t: nat, r: int)
    requires t <= POW_LIMIT && -0x800_0000_0000 <= r <= MANTISSA_MAX
    ensures Moved(t, r).Ok? && (Moved(t, r).value == 0 <==> 0 <= r && t <= r)
  {
    hide Pow2, BitLen, AlignKeepsBits;
    AlignKeeps(t, r);
    SmallPowers();
    BitLenIff(t, 24);
    if BitLen(t) > 24 && r >= 0 {
      BigNotUsedUp(t, r);
    }
  }

  lemma BigNotUsedUp(t: nat, r: int)
    requires t <= POW_LIMIT && BitLen(t) > 24 && 0 <= r <= MANTISSA_MAX
    ensures Adjustment(t, r) < t && r < t
  {
    hide Pow2, BitLen;
    AlignKeeps(t, r);
    var d := Pow2(BitLen(t) - 24);
    ModSmall(Mul(r, d), TWO256);
    SmallPowers();
    BitLenIff(t, 24);
    BitLenBounds(t);
    Pow2Add(BitLen(t) - 24, 23);
    Pow2Next(23);
    MulMono(r + 1, 0x80_0000, d);
    assert (r + 1) * d == r * d + d;
  }

  lemma DecodedZeroIff(t: nat)
    requires t < TWO256
    ensures Target(Encoded(t)) == 0 <==> t == 0
  {
    hide TargetToCompact, CompactToTarget;
    CodecRoundTrip(t);
  }

  lemma EncodedZero()
    ensures Encoded(0) == 0
  {
    hide Pow2, CompactToTarget;
    SmallPowers();
    assert ByteLen(0) == 0;
    ClosedForm(0);
  }

  lemma FlooredZeroIff(t: nat)
    requires t <= POW_LIMIT
    ensures Target(Floored(Encoded(t))) == 0 <==> t == 0
  {
    hide Target, Encoded;
    EncodedZero();
    DecodedZeroIff(t);
    FloorIsLimit();
    DecodedZeroIff(POW_LIMIT);
  }

  /** When CIP04 requires a target that no hash can meet. */
  lemma {:induction false} Cip04ZeroIff(height: nat, chain: Lookup, pid: int -> int)
    requires height > 8 && Bounded(chain, height) && PidBounded(pid) && height - 1 in chain && height - 9 in chain
    ensures Cip04(height, chain, pid).Ok?
    ensures var avg := TruncDiv(chain[height - 1].timestamp - chain[height - 9].timestamp, 8);
            var t, r := Target(chain[height - 1].bits), Halved(pid(avg));
            Target(Cip04(height, chain, pid).value) == 0 <==>
              if -10 < avg - SPACING < 10 then t == 0 else 0 <= r && t <= r
  {
    hide Target, Encoded, Moved, Halved, Floored, AlignKeepsBits;
    var avg := TruncDiv(chain[height - 1].timestamp - chain[height - 9].timestamp, 8);
    var t, r := Target(chain[height - 1].bits), Halved(pid(avg));
    HalvedBounds(pid(avg));
    MovedZeroIff(t, r);
    MovedBounded(t, r);
    FlooredZeroIff(Moved(t, r).value);
  }

  /** Nine blocks with the same timestamp and target 1: the next target is 0. */
  lemma {:induction false} Cip04ZeroExample(chain: Lookup, height: nat, timestamp: u32)
    requires height > 8 && Bounded(chain, height)
    requires forall h :: height - 9 <= h < height ==> h in chain && chain[h] == Head(timestamp, 0x0300_0001)
    ensures Cip04(height, chain, Pid.Output).Ok? && Target(Cip04(height, chain, Pid.Output).value) == 0
  {
    hide Cip04, Bounded, PidBounded, Halved;
    ExactPidBounded();
    Cip04ZeroIff(height, chain, Pid.Output);
    TargetOne();
    HalvedPositive(Pid.Output(0));
    assert TruncDiv(0, 8) == 0;
  }

  lemma TargetOne()
    ensures Target(0x0300_0001) == 1
  {
    assert Pow2(0) == 1;
  }

  lemma {:induction false} HalvedPositive(r: int)
    requires r > 0
    ensures Halved(r) > 0
    decreases r
  {
    if r > MANTISSA_MAX {
      HalvedPositive(r / 2);
    }
  }

  ghost predicate Cip04KeepsBits(height: nat, chain: Lookup, pid: int -> int)
    requires height > 8
  {
    height - 1 in chain && height - 9 in chain ==>
      var avg := TruncDiv(chain[height - 1].timestamp - chain[height - 9].timestamp, 8);
      AlignKeepsBits(Target(chain[height - 1].bits), Halved(pid(avg)))
  }

  lemma {:induction false} Cip04Bounded(height: nat, chain: Lookup, pid: int -> int)
    requires height > 8 && Bounded(chain, height) && PidBounded(pid)
    ensures Cip04(height, chain, pid) != Err(ArithmeticOverflow)
    ensures Cip04(height, chain, pid).Ok? ==> Target(Cip04(height, chain, pid).value) <= POW_LIMIT
    ensures Cip04KeepsBits(height, chain, pid)
  {
    hide Target, Encoded, Moved, Halved, Floored, AlignKeepsBits;
    var parent, first := height - 1, height - 9;
    if parent in chain && first in chain {
      var avg := TruncDiv(chain[parent].timestamp - chain[first].timestamp, 8);
      var t, r := Target(chain[parent].bits), Halved(pid(avg));
      HalvedBounds(pid(avg));
      MovedBounded(t, r);
      FlooredBounded(Moved(t, r).value);
    }
  }

  lemma {:induction false} Cip05Bounded(height: nat, chain: Lookup, pid: int -> int)
    requires height > 8 && Bounded(chain, height) && PidBounded(pid)
    ensures Cip05(height, chain, pid) != Err(ArithmeticOverflow)
    ensures Cip05(height, chain, pid).Ok? ==> Target(Cip05(height, chain, pid).value) <= POW_LIMIT
    ensures Cip04KeepsBits(height, chain, pid)
  {
    hide Target, Encoded, Floored, Cip04, Cip04KeepsBits;
    Cip04Bounded(height, chain, pid);
    var parent, prev := height - 1, height - 2;
    if parent in chain && InGate(chain[parent].timestamp) && prev in chain {
      var actual := Elapsed(chain, parent, prev, SPACING - SPACING / 4, SPACING + SPACING / 2);
      MulMono(Target(chain[parent].bits), POW_LIMIT, actual);
      MulMono(actual, 900, POW_LIMIT);
      FlooredBounded(Min(Div(Mul(Target(chain[parent].bits), actual), SPACING), POW_LIMIT));
    }
  }

  // ---------- CIP06 ----------

  const NK := WINDOW * K

  /** Sum of the targets of the first `j` blocks of the window. */
  ghost function TargetSum(chain: Lookup, start: nat, j: nat): nat {
    if j == 0 then 0
    else TargetSum(chain, start, j - 1)
         + (if start + j - 1 in chain then Target(chain[start + j - 1].bits) else 0)
  }

  lemma WeightStep(w: nat, s: nat, j: nat)
    requires j > 0 && 1 <= s <= 6 * SPACING
    requires (j - 1) * j <= 2 * w <= 6 * SPACING * ((j - 1) * j)
    ensures j * (j + 1) <= 2 * (w + Mul(s, j)) <= 6 * SPACING * (j * (j + 1))
  {
    MulMono(1, s, j);
    MulMono(s, 6 * SPACING, j);
    assert j * (j + 1) == (j - 1) * j + 2 * j;
  }

  /** The accumulated weights and averages stay within their linear bounds. */
  lemma {:induction false} WindowBounds(chain: Lookup, start: nat, j: nat)
    requires start > 0 && Window(chain, start, j).Ok?
    ensures var a := Window(chain, start, j).value;
            && j * (j + 1) <= 2 * a.weighted <= 6 * SPACING * (j * (j + 1))
            && a.avg * NK <= TargetSum(chain, start, j)
    decreases j
  {
    hide Target;
    if j > 0 {
      WindowBounds(chain, start, j - 1);
      var a := Window(chain, start, j - 1).value;
      var head := chain[start + j - 1];
      WeightStep(a.weighted, SolveTime(a.prev, head.timestamp), j);
      DivBounds(Target(head.bits), NK);
    }
  }

  lemma {:induction false} TargetSumBounded(chain: Lookup, start: nat, j: nat)
    requires Bounded(chain, start + j)
    ensures TargetSum(chain, start, j) <= j * POW_LIMIT
    decreases j
  {
    hide Target;
    if j > 0 {
      TargetSumBounded(chain, start, j - 1);
    }
  }

  /** The unclamped LWMA target is at most six times the mean target of its window. */
  lemma {:induction false} LwmaSixTimesMean(chain: Lookup, start: nat)
    requires start > 0 && Window(chain, start, WINDOW).Ok?
    ensures var a := Window(chain, start, WINDOW).value;
            WINDOW * Mul(a.avg, a.weighted) <= 6 * TargetSum(chain, start, WINDOW)
  {
    hide Window, TargetSum;
    WindowBounds(chain, start, WINDOW);
    var a := Window(chain, start, WINDOW).value;
    var p := Mul(a.avg, a.weighted);
    MulMono(a.weighted, 3_726_000, a.avg);
    assert p <= a.avg * 3_726_000;
  }

  lemma {:induction false} Cip06Bounded(height: nat, chain: Lookup)
    requires height > 0 && Bounded(chain, height)
    ensures Cip06(height, chain) != Err(ArithmeticOverflow)
    ensures Cip06(height, chain).Ok? ==> Target(Cip06(height, chain).value) <= POW_LIMIT
  {
    hide Target, Encoded, Window, TargetSum;
    EncodedBounded(POW_LIMIT);
    if height - 1 >= WINDOW {
      var start := height - WINDOW;
      if Window(chain, start, WINDOW).Ok? {
        var a := Window(chain, start, WINDOW).value;
        LwmaSixTimesMean(chain, start);
        TargetSumBounded(chain, start, WINDOW);
        EncodedBounded(Min(Mul(a.avg, a.weighted), POW_LIMIT));
      }
    }
  }

  // ---------- Along every chain ----------

  /** No left shift of the rule in force at `height` drops a bit. */
  ghost predicate KeepsBits(height: nat, chain: Lookup, pid: int -> int) {
    height > 0 ==>
      var parent := height - 1;
      if parent < CIP01_HEIGHT then PeriodicKeepsBits(height, chain, TIMESPAN_V1)
      else if CIP01_HEIGHT < parent < CIP02_HEIGHT then PeriodicKeepsBits(height, chain, TIMESPAN_V2)
      else if CIP02_HEIGHT <= parent < CIP03_HEIGHT then Cip03KeepsBits(height, chain)
      else if CIP03_HEIGHT <= parent < CIP05_HEIGHT then Cip04KeepsBits(height, chain, pid)
      else true
  }

  /** One step: whatever rule is in force, the required target respects the limit and no
      shift drops a bit, and after CIP01 no product and no sum leaves 256 bits. */
  lemma {:induction false} NextTargetBounded(height: nat, chain: Lookup, pid: int -> int)
    requires Bounded(chain, height) && PidBounded(pid)
    ensures var r := NextWorkRequired(height, chain, pid);
            && (r.Ok? ==> Target(r.value) <= POW_LIMIT && KeepsBits(height, chain, pid))
            && (height > CIP01_HEIGHT ==> r != Err(ArithmeticOverflow))
  {
    hide Target, Encoded, PeriodicRetarget, Cip03, Cip04, Cip05, Cip06, PeriodicKeepsBits, Cip03KeepsBits,
         Cip04KeepsBits;
    EncodedBounded(POW_LIMIT);
    ResetBounded();
    if height > 0 {
      PeriodicBounded(height, chain, TIMESPAN_V1);
      PeriodicBounded(height, chain, TIMESPAN_V2);
      Cip03Bounded(height, chain);
      if height > 8 {
        Cip04Bounded(height, chain, pid);
        Cip05Bounded(height, chain, pid);
      }
      Cip06Bounded(height, chain);
    }
  }

  lemma ResetBounded()
    ensures Target(RESET_BITS) <= POW_LIMIT
  {
    hide Pow2;
    Pow2Add(100, 100);
    LimitBits();
    Pow2Add(200, 24);
    Pow2Add(224, 12);
    Pow2Add(200, 36);
    SmallPowers();
    assert 8 * (0x1c - 3) == 200;
    Pow2Add(12, 24);
    Pow2Twelve();
  }

  lemma Pow2Twelve()
    ensures Pow2(12) == 0x1000
  {
  }

  /** `heads[1..n]` all carry the bits their rule requires. */
  ghost predicate FollowsRules(chain: Lookup, n: nat, pid: int -> int) {
    forall h :: 0 < h < n ==> h in chain && NextWorkRequired(h, chain, pid) == Ok(chain[h].bits)
  }

  /** Target bound along every chain that follows the rules, at every height. */
  lemma {:induction false} ChainTargetsBounded(chain: Lookup, n: nat, pid: int -> int)
    requires FollowsRules(chain, n, pid) && PidBounded(pid)
    requires 0 in chain && Target(chain[0].bits) <= POW_LIMIT
    ensures Bounded(chain, n)
    decreases n
  {
    hide Target, NextWorkRequired;
    if n > 1 {
      ChainTargetsBounded(chain, n - 1, pid);
      NextTargetBounded(n - 1, chain, pid);
    }
  }

  /** With the controller in exact arithmetic there is nothing left to assume. */
  lemma {:induction false} ExactChainTargetsBounded(chain: Lookup, n: nat)
    requires FollowsRules(chain, n, Pid.Output)
    requires 0 in chain && Target(chain[0].bits) <= POW_LIMIT
    ensures Bounded(chain, n)
  {
    hide FollowsRules, Target, Bounded, PidBounded;
    ExactPidBounded();
    ChainTargetsBounded(chain, n, Pid.Output);
  }
}
