/** How the required target answers to the times of the blocks, rule by rule. */
module DifficultyResponse {
  import opened Basics
  import opened Arith
  import opened Compact
  import opened Difficulty
  import opened DifficultyTheorems
  import Pid

  // ---------- CIP06: the stamps ----------

  /** The latest time that the blocks of the window allow for block `j`: each block is at least
      one second after the one before. */
  ghost predicate IsStamp(chain: Lookup, start: nat, j: nat, m: int)
    requires start > 0 && forall h :: start - 1 <= h < start + j ==> h in chain
  {
    && (forall i :: 0 <= i <= j ==> Shown(chain, start, j, i) <= m)
    && exists i :: 0 <= i <= j && Shown(chain, start, j, i) == m
  }

  /** What block `i` of the window says about block `j`. */
  ghost function Shown(chain: Lookup, start: nat, j: nat, i: nat): int
    requires start > 0 && i <= j && start + i - 1 in chain
  {
    chain[start + i - 1].timestamp + (j - i)
  }

  lemma {:induction false} WindowIff(chain: Lookup, start: nat, j: nat)
    requires start > 0
    ensures Window(chain, start, j).Ok? <==> forall h :: start - 1 <= h < start + j ==> h in chain
    decreases j
  {
    hide Target;
    if j > 0 {
      WindowIff(chain, start, j - 1);
      if Window(chain, start, j - 1).Err? {
        var h :| start - 1 <= h < start + j - 1 && h !in chain;
      }
    }
  }

  lemma {:induction false} StampIs(chain: Lookup, start: nat, j: nat)
    requires start > 0 && Window(chain, start, j).Ok?
    ensures forall h :: start - 1 <= h < start + j ==> h in chain
    ensures IsStamp(chain, start, j, Window(chain, start, j).value.prev)
    decreases j
  {
    hide Target;
    WindowIff(chain, start, j);
    if j == 0 {
      assert Shown(chain, start, 0, 0) == chain[start - 1].timestamp;
    } else {
      StampIs(chain, start, j - 1);
      var p, m := Window(chain, start, j - 1).value.prev, Window(chain, start, j).value.prev;
      forall i | 0 <= i <= j
        ensures Shown(chain, start, j, i) <= m
      {
        assert i < j ==> Shown(chain, start, j, i) == Shown(chain, start, j - 1, i) + 1;
      }
      if m == p + 1 {
        var i :| 0 <= i <= j - 1 && Shown(chain, start, j - 1, i) == p;
        assert Shown(chain, start, j, i) == m;
      } else {
        assert Shown(chain, start, j, j) == m;
      }
    }
  }

  // ---------- CIP06: the weights ----------

  /** The time each block took after the one before, at most an hour, times its position. */
  ghost function Weigh(stamps: seq<int>, j: nat): int
    requires j < |stamps|
  {
    if j == 0 then 0 else Weigh(stamps, j - 1) + j * Min(stamps[j] - stamps[j - 1], 6 * SPACING)
  }

  lemma StampUnique(chain: Lookup, start: nat, j: nat, m: int, n: int)
    requires start > 0 && forall h :: start - 1 <= h < start + j ==> h in chain
    requires IsStamp(chain, start, j, m) && IsStamp(chain, start, j, n)
    ensures m == n
  {
    hide Shown;
  }

  /** The weighted sum of a window, from the stamps of its blocks. */
  lemma {:induction false} WeightedIs(chain: Lookup, start: nat, j: nat, stamps: seq<int>)
    requires start > 0 && Window(chain, start, j).Ok? && j < |stamps|
    requires forall h :: start - 1 <= h < start + j ==> h in chain
    requires forall k :: 0 <= k <= j ==> IsStamp(chain, start, k, stamps[k])
    ensures Window(chain, start, j).value.prev == stamps[j]
    ensures Window(chain, start, j).value.weighted == Weigh(stamps, j)
    decreases j
  {
    hide Target, IsStamp, Mul, Div;
    StampIs(chain, start, j);
    StampUnique(chain, start, j, Window(chain, start, j).value.prev, stamps[j]);
    if j > 0 {
      WeightedIs(chain, start, j - 1, stamps);
    }
  }

  /** Two windows with the same blocks, except that block `i` and all after it come `d` seconds
      later in the first. */
  ghost predicate Delayed(late: Lookup, chain: Lookup, start: nat, i: nat, n: nat, d: nat) {
    && start > 0 && (forall h :: start - 1 <= h < start + n ==> h in late && h in chain)
    && forall h :: start - 1 <= h < start + n ==>
         && late[h].bits == chain[h].bits
         && late[h].timestamp == chain[h].timestamp + if h >= start + i - 1 then d else 0
  }

  lemma {:induction false} SameBefore(late: Lookup, chain: Lookup, start: nat, i: nat, n: nat, d: nat, j: nat)
    requires Delayed(late, chain, start, i, n, d) && j < i && j <= n
    ensures Window(late, start, j) == Window(chain, start, j)
    decreases j
  {
    hide Target;
    if j > 0 {
      SameBefore(late, chain, start, i, n, d, j - 1);
    }
  }

  /** A delay `d` of block `i`, within the cap, counts `i` times: the oldest block of the window
      has weight 1, the newest weight 45. */
  lemma {:induction false} DelayWeighs(late: Lookup, chain: Lookup, start: nat, i: nat, n: nat, d: nat, j: nat)
    requires 0 < i <= j <= n && Delayed(late, chain, start, i, n, d)
    requires Window(chain, start, i - 1).Ok?
    requires 0 < chain[start + i - 1].timestamp - Window(chain, start, i - 1).value.prev <= 6 * SPACING - d
    ensures Window(late, start, j).Ok? && Window(chain, start, j).Ok?
    ensures var a, b := Window(late, start, j).value, Window(chain, start, j).value;
            a.prev == b.prev + d && a.weighted == b.weighted + i * d && a.avg == b.avg
    decreases j
  {
    if j == i {
      SameBefore(late, chain, start, i, n, d, i - 1);
      DelayedBlock(late, chain, start, i, d);
    } else {
      DelayWeighs(late, chain, start, i, n, d, j - 1);
      LaterBlock(late, chain, start, j, d);
    }
  }

  /** The delayed block itself. */
  lemma DelayedBlock(late: Lookup, chain: Lookup, start: nat, i: nat, d: nat)
    requires start > 0 && i > 0 && start + i - 1 in chain && start + i - 1 in late
    requires Window(chain, start, i - 1).Ok? && Window(late, start, i - 1) == Window(chain, start, i - 1)
    requires late[start + i - 1].bits == chain[start + i - 1].bits
    requires late[start + i - 1].timestamp == chain[start + i - 1].timestamp + d
    requires 0 < chain[start + i - 1].timestamp - Window(chain, start, i - 1).value.prev <= 6 * SPACING - d
    ensures Window(late, start, i).Ok? && Window(chain, start, i).Ok?
    ensures var a, b := Window(late, start, i).value, Window(chain, start, i).value;
            a.prev == b.prev + d && a.weighted == b.weighted + i * d && a.avg == b.avg
  {
    hide Target, Mul;
    var p := Window(chain, start, i - 1).value.prev;
    var solve := chain[start + i - 1].timestamp - p;
    MulAdd(solve, d, i);
  }

  lemma MulAdd(a: nat, d: nat, i: nat)
    ensures Mul(a + d, i) == Mul(a, i) + i * d
  {
  }

  /** A block after it. */
  lemma LaterBlock(late: Lookup, chain: Lookup, start: nat, j: nat, d: nat)
    requires start > 0 && j > 0 && start + j - 1 in chain && start + j - 1 in late
    requires Window(chain, start, j - 1).Ok? && Window(late, start, j - 1).Ok?
    requires Window(late, start, j - 1).value.prev == Window(chain, start, j - 1).value.prev + d
    requires late[start + j - 1].bits == chain[start + j - 1].bits
    requires late[start + j - 1].timestamp == chain[start + j - 1].timestamp + d
    ensures Window(late, start, j).Ok? && Window(chain, start, j).Ok?
    ensures var a, b, x, y := Window(late, start, j).value, Window(chain, start, j).value,
                              Window(late, start, j - 1).value, Window(chain, start, j - 1).value;
            a.prev == b.prev + d && a.weighted - x.weighted == b.weighted - y.weighted && a.avg - x.avg == b.avg - y.avg
  {
    hide Target, Mul, Div;
  }

  // ---------- CIP06: a steady chain ----------

  /** Block `h` has target `t` and came `s` seconds after the one before. */
  ghost predicate Paced(chain: Lookup, h: nat, t: nat, s: nat) {
    h > 0 && h in chain && h - 1 in chain && Target(chain[h].bits) == t
    && chain[h].timestamp == chain[h - 1].timestamp + s
  }

  ghost predicate Steady(chain: Lookup, start: nat, j: nat, t: nat, s: nat) {
    start > 0 && start - 1 in chain && forall h :: start <= h < start + j ==> Paced(chain, h, t, s)
  }

  function Triangle(j: nat): nat {
    if j == 0 then 0 else Triangle(j - 1) + j
  }

  lemma {:induction false} TriangleClosed(j: nat)
    ensures 2 * Triangle(j) == j * (j + 1)
  {
    if j > 0 {
      TriangleClosed(j - 1);
    }
  }

  lemma {:induction false} SteadyWindow(chain: Lookup, start: nat, j: nat, t: nat, s: nat)
    requires Steady(chain, start, j, t, s) && s > 0
    ensures start + j - 1 in chain && Window(chain, start, j).Ok?
    ensures var a := Window(chain, start, j).value;
            && a.prev == chain[start + j - 1].timestamp
            && a.weighted == Mul(Min(s, 6 * SPACING), Triangle(j))
            && a.avg == Mul(j, Div(t, NK))
    decreases j
  {
    hide Target, Mul, Div;
    if j > 0 {
      SteadyWindow(chain, start, j - 1, t, s);
      var h := start + j - 1;
      assert Paced(chain, h, t, s);
      var q, c := Div(t, NK), Min(s, 6 * SPACING);
      MulSplit(q, j - 1, 1);
      var a := Window(chain, start, j - 1).value;
      assert SolveTime(a.prev, chain[h].timestamp) == c;
      MulSplit(c, Triangle(j - 1), j);
    }
  }

  lemma MulSplit(a: nat, b: nat, c: nat)
    ensures Mul(a, b) + Mul(a, c) == Mul(a, b + c)
    ensures Mul(b, a) + a * c == Mul(b + c, a)
  {
  }

  /** If the last 45 blocks all have target `t` and each took `s` seconds, the next target is
      `t * s / 600`, with times above an hour counted as an hour, rounded down by less than
      one unit in 46575 of each second, and held at the limit. */
  lemma {:induction false} LwmaSteady(height: nat, chain: Lookup, t: nat, s: nat)
    requires height > WINDOW && Steady(chain, height - WINDOW, WINDOW, t, s) && s > 0 && t <= POW_LIMIT
    ensures var c := Min(s, 6 * SPACING);
            exists p :: 0 <= p < TWO256 && Cip06(height, chain) == Ok(Encoded(Min(p, POW_LIMIT)))
              && SPACING * p <= t * c < SPACING * p + NK * c
  {
    hide Window, Target, Steady, Triangle, Encoded;
    var start := height - WINDOW;
    SteadyWindow(chain, start, WINDOW, t, s);
    TriangleClosed(WINDOW);
    var q, c := Div(t, NK), Min(s, 6 * SPACING);
    var a := Window(chain, start, WINDOW).value;
    var p := Mul(a.avg, a.weighted);
    DivBounds(t, NK);
    SteadyProduct(q, c);
    SteadyBounds(t, q, NK, c);
    MulMono(t, POW_LIMIT, c);
    MulMono(c, 3600, POW_LIMIT);
    SteadyWitness(height, chain, t * c, c, p, q * c);
  }

  lemma SteadyWitness(height: nat, chain: Lookup, tc: nat, c: nat, p: nat, x: nat)
    requires height > WINDOW && Window(chain, height - WINDOW, WINDOW).Ok? && p == 46_575 * x
    requires var a := Window(chain, height - WINDOW, WINDOW).value; p == Mul(a.avg, a.weighted)
    requires NK * x <= tc < NK * x + NK * c && tc <= 3600 * POW_LIMIT
    ensures exists p :: 0 <= p < TWO256 && Cip06(height, chain) == Ok(Encoded(Min(p, POW_LIMIT)))
              && SPACING * p <= tc < SPACING * p + NK * c
  {
    hide Window, Encoded, Mul;
    assert SPACING * p == NK * x && p < TWO256;
    assert Cip06(height, chain) == Ok(Encoded(Min(p, POW_LIMIT)));
  }

  lemma SteadyProduct(q: nat, c: nat)
    ensures Mul(Mul(WINDOW, q), Mul(c, 1035)) == 46_575 * (q * c)
  {
    assert (45 * q) * (c * 1035) == 46_575 * (q * c);
  }

  /** Rounding down to a multiple of `n`, times `c`. */
  lemma SteadyBounds(t: nat, q: nat, n: nat, c: nat)
    requires q * n <= t < q * n + n && c > 0
    ensures n * (q * c) <= t * c < n * (q * c) + n * c
  {
    MulMono(q * n, t, c);
    MulMono(t + 1, q * n + n, c);
    assert (q * n) * c == n * (q * c);
    assert (q * n + n) * c == n * (q * c) + n * c;
    assert (t + 1) * c == t * c + c;
  }

  /** The average of the window's targets, rounded down block by block. */
  lemma {:induction false} AverageBounds(chain: Lookup, start: nat, j: nat)
    requires start > 0 && Window(chain, start, j).Ok?
    ensures var a := Window(chain, start, j).value;
            TargetSum(chain, start, j) - j * NK <= a.avg * NK <= TargetSum(chain, start, j)
    decreases j
  {
    hide Target, Mul, Div;
    if j > 0 {
      AverageBounds(chain, start, j - 1);
      var q := Div(Target(chain[start + j - 1].bits), NK);
      DivBounds(Target(chain[start + j - 1].bits), NK);
      AverageStep(Window(chain, start, j - 1).value.avg, q, NK);
      assert j * NK == (j - 1) * NK + NK;
    }
  }

  lemma AverageStep(x: nat, q: nat, n: nat)
    ensures (x + q) * n == x * n + q * n
  {
  }

  // ---------- CIP01, CIP02, CIP03, CIP05: in proportion ----------

  /** The new target is the old one times the measured over the expected time, held at the
      limit, but for at most 7 units and the rounding of the compact form. */
  ghost predicate Tracks(next: nat, target: nat, actual: nat, expected: nat)
    requires expected > 0
  {
    var q := Min(Div(Mul(target, actual), expected), POW_LIMIT);
    next <= q && (q - next - 7) * 0x8000 <= q
  }

  lemma EncodedNear(t: nat)
    requires t < TWO256
    ensures Target(Encoded(t)) <= t && (t - Target(Encoded(t))) * 0x8000 <= t
  {
    hide TargetToCompact, CompactToTarget;
    CodecRoundTrip(t);
  }

  /** Dropping the lowest bit before multiplying costs little. */
  lemma HalvedProduct(t: nat, actual: nat, expected: nat)
    requires expected > 0 && actual <= 4 * expected
    ensures var q, h := Div(Mul(t, actual), expected), Div(Mul(t / 2, actual), expected);
            q - 7 <= h * 2 <= q
  {
    var u := t / 2;
    var q, h := Div(Mul(t, actual), expected), Div(Mul(u, actual), expected);
    DivBounds(Mul(t, actual), expected);
    DivBounds(Mul(u, actual), expected);
    MulMono(2 * u, t, actual);
    MulMono(t, 2 * u + 1, actual);
    HalvedBoundsOf(q, h, u * actual, t * actual, actual, expected);
  }

  lemma HalvedBoundsOf(q: nat, h: nat, ua: nat, ta: nat, actual: nat, e: nat)
    requires e > 0 && actual <= 4 * e && 2 * ua <= ta <= 2 * ua + actual
    requires h * e <= ua < h * e + e && q * e <= ta < q * e + e
    ensures q - 7 <= h * 2 <= q
  {
    MulMonoIf(q + 1, h * 2, e);
    MulMonoIf(h * 2 + 8, q, e);
    assert (q + 1) * e == q * e + e;
    assert (h * 2) * e == 2 * (h * e);
    assert (h * 2 + 8) * e == 2 * (h * e) + 8 * e;
  }

  lemma {:induction false} RetargetTracks(bits: u32, actual: nat, expected: nat)
    requires expected > 1 && actual <= 4 * expected && Retarget(bits, actual, expected).Ok?
    ensures Tracks(Target(Retarget(bits, actual, expected).value), Target(bits), actual, expected)
  {
    hide Target, Encoded, BitLen;
    var t := Target(bits);
    RetargetKeeps(bits, actual, expected);
    HalvedProduct(t, actual, expected);
    EncodedNear(Difficulty.Scaled(t, actual, expected));
    if NeedsShift(t) {
      ModSmall(Div(Mul(Shifted(t), actual), expected) * 2, TWO256);
    }
  }

  /** Up to height 21346 the target changes every 2016 blocks, from 20291 on every 36, in
      proportion to the time since the block that many before the parent, between a quarter
      and four times the expected time. In between it is the parent's. */
  lemma {:induction false} PeriodicRule(height: nat, chain: Lookup, pid: int -> int)
    requires 0 < height <= 21_346 && NextWorkRequired(height, chain, pid).Ok?
    ensures var bits, interval := NextWorkRequired(height, chain, pid).value, if height <= 20_289 then 2016 else 36;
            if height == 20_290 then bits == 0x1c0f_fff0
            else
              && height - 1 in chain
              && var parent := chain[height - 1];
              if height % interval != 0 then bits == parent.bits
              else
                var first := if height == interval then 0 else height - 1 - interval;
                && first in chain
                && var actual := Clamp(parent.timestamp - chain[first].timestamp, 150 * interval, 2400 * interval);
                Tracks(Target(bits), Target(parent.bits), actual, 600 * interval)
  {
    hide Target, Retarget, Tracks;
    if height != 20_290 && height % (if height <= 20_289 then 2016 else 36) == 0 {
      var timespan := if height <= 20_289 then TIMESPAN_V1 else TIMESPAN_V2;
      var first := PeriodFirst(height, timespan / SPACING);
      RetargetTracks(chain[height - 1].bits, Elapsed(chain, height - 1, first, timespan / 4, timespan * 4), timespan);
    }
  }

  /** From height 21347 to 27260 every block moves it, in proportion to the time of the last
      36, within twelve percent. */
  lemma {:induction false} TightRule(height: nat, chain: Lookup, pid: int -> int)
    requires 21_346 < height <= 27_260 && NextWorkRequired(height, chain, pid).Ok?
    ensures height - 1 in chain && height - 37 in chain
    ensures var parent := chain[height - 1];
            var actual := Clamp(parent.timestamp - chain[height - 37].timestamp, 19_285, 24_192);
            Tracks(Target(NextWorkRequired(height, chain, pid).value), Target(parent.bits), actual, 21_600)
  {
    hide Target, Retarget, Tracks;
    var actual := Elapsed(chain, height - 1, height - 37, CIP03_LOW, CIP03_HIGH);
    RetargetTracks(chain[height - 1].bits, actual, TIMESPAN_V2);
  }

  lemma FlooredIs(t: nat)
    requires t <= POW_LIMIT
    ensures Floored(Encoded(t)) == Encoded(t)
  {
    hide Target;
    FloorIsLimit();
    EncodeMonotone(t, POW_LIMIT);
  }

  // ---------- CIP04: the controller ----------

  /** One unit of the controller, for a target of this size. */
  function Unit(t: nat): nat {
    if BitLen(t) > 24 then Pow2(BitLen(t) - 24) else 1
  }

  /** The target goes down by the controller's output, in its units, and stays between zero and
      the limit. */
  lemma {:induction false} MovedExact(t: nat, r: int)
    requires t <= POW_LIMIT && -0x800_0000_0000 <= r <= MANTISSA_MAX
    ensures Moved(t, r).Ok? && Moved(t, r).value == Clamp(t - r * Unit(t), 0, POW_LIMIT)
  {
    hide Pow2, BitLen, Mul;
    AlignKeeps(t, r);
    var a := if r < 0 then -r else r;
    SmallPowers();
    assert a < TWO256;
    ModSmall(Mul(a, Unit(t)), TWO256);
    SignedProduct(r, Unit(t));
  }

  lemma SignedProduct(r: int, u: nat)
    ensures r >= 0 ==> r * u == Mul(r, u)
    ensures r < 0 ==> r * u + Mul(-r, u) == 0
  {
  }

  /** Next to the exact target, rounded down to the compact form. */
  ghost predicate RoundedTo(next: nat, exact: int) {
    next <= exact && (exact - next) * 0x8000 <= exact
  }

  /** CIP04 by the average time of the last eight blocks: near ten minutes nothing changes,
      otherwise the controller moves the target. */
  lemma {:induction false} PidRule(height: nat, chain: Lookup, pid: int -> int)
    requires height > 8 && Bounded(chain, height) && PidBounded(pid) && height - 1 in chain && height - 9 in chain
    ensures Cip04(height, chain, pid).Ok?
    ensures var parent, avg := chain[height - 1], TruncDiv(chain[height - 1].timestamp - chain[height - 9].timestamp, 8);
            var bits, t := Cip04(height, chain, pid).value, Target(parent.bits);
            if 590 < avg < 610 then bits == parent.bits
            else RoundedTo(Target(bits), Clamp(t - Halved(pid(avg)) * Unit(t), 0, POW_LIMIT))
  {
    hide Target, Encoded, Moved, Halved, Floored, Unit;
    var avg := TruncDiv(chain[height - 1].timestamp - chain[height - 9].timestamp, 8);
    var t, r := Target(chain[height - 1].bits), Halved(pid(avg));
    HalvedBounds(pid(avg));
    MovedExact(t, r);
    FlooredIs(Clamp(t - r * Unit(t), 0, POW_LIMIT));
    EncodedNear(Clamp(t - r * Unit(t), 0, POW_LIMIT));
  }

  /** The exact controller lowers the target after fast blocks and raises it after slow ones. */
  lemma {:induction false} PidDirection(avg: int)
    requires avg >= 0
    ensures avg <= 590 ==> Pid.Output(avg) > 0
    ensures avg >= 610 ==> Pid.Output(avg) < 0
  {
    hide Pid.Controller, Pid.ToI64;
    if avg > 0 {
      ControllerSign(avg);
      if avg <= 590 {
        PidScaled(Pid.Controller(avg));
      }
      if avg >= 610 {
        PidScaled(-Pid.Controller(avg));
      }
    }
  }

  /** Fast blocks and very slow ones, with the smaller and the larger integral gain. */
  lemma {:induction false} PidExamples()
    ensures Pid.Output(300) == 992_133 && Pid.Output(1200) == -1_229_844
  {
    assert Pid.Controller(300) == 15.13875;
    assert Pid.Controller(1200) == -18.7659375;
    assert (65536.0 * 15.13875).Floor == 992_133;
    assert (65536.0 * 18.7659375).Floor == 1_229_844;
  }

  lemma PidScaled(c: real)
    requires c >= 0.05
    ensures Pid.ToI64(65536.0 * c) > 0 && Pid.ToI64(65536.0 * -(-c)) > 0 && Pid.ToI64(65536.0 * -c) < 0
  {
    assert 65536.0 * c >= 3000.0;
    assert 65536.0 * -c == -(65536.0 * c);
  }

  lemma ControllerSign(avg: int)
    requires avg > 0
    ensures avg <= 590 ==> Pid.Controller(avg) >= 0.05
    ensures avg >= 610 ==> Pid.Controller(avg) <= -0.05
  {
    var e, a, g := (avg - SPACING) as real, avg as real, Pid.Integral(avg - SPACING);
    Pid.Ratio(g, e, a);
    RatioBelowOne(e, a);
    PidSign(-g * Pid.SPACING, e, e / a);
    Pid.Combine(g, e, a);
  }

  lemma RatioBelowOne(e: real, a: real)
    requires a > 0.0 && e < a
    ensures e / a < 1.0 && (e > 0.0 <==> e / a > 0.0)
  {
    var r := e / a;
    assert e == r * a;
  }

  lemma PidSign(w: real, e: real, r: real)
    requires w > 0.0 && r < 1.0 && (e > 0.0 <==> r > 0.0)
    ensures var c := Pid.PROPORTIONAL * e + w * (0.0075 * (r * r) - r);
            (e <= -10.0 ==> c >= 0.05) && (e >= 10.0 ==> c <= -0.05)
  {
    var p := 0.0075 * (r * r) - r;
    if e >= 10.0 {
      assert r * r <= r;
      assert w * p <= 0.0;
    }
    if e <= -10.0 {
      assert r * r >= 0.0;
      assert w * p >= 0.0;
    }
  }

  /** From height 27261 to 46331 CIP04 decides. From 46332 to 397000 it does so unless the
      seconds of the parent's time are below 15, or from 30 to 44: then the target moves in
      proportion to the time of the last block alone, between 450 and 900 seconds. */
  lemma {:induction false} GatedRule(height: nat, chain: Lookup, pid: int -> int)
    requires 27_260 < height <= 397_000 && Bounded(chain, height) && NextWorkRequired(height, chain, pid).Ok?
    ensures height - 1 in chain
    ensures var parent, r := chain[height - 1], NextWorkRequired(height, chain, pid);
            var seconds := parent.timestamp % 60;
            if height > 46_331 && (seconds < 15 || 30 <= seconds < 45) then
              && height - 2 in chain
              && var actual := Clamp(parent.timestamp - chain[height - 2].timestamp, 450, 900);
              Tracks(Target(r.value), Target(parent.bits), actual, 600)
            else r == Cip04(height, chain, pid)
  {
    hide Target, Encoded, Floored, Cip04;
    if height > 46_331 && InGate(chain[height - 1].timestamp) {
      var actual := Elapsed(chain, height - 1, height - 2, 450, 900);
      var q := Min(Div(Mul(Target(chain[height - 1].bits), actual), SPACING), POW_LIMIT);
      FlooredIs(q);
      EncodedNear(q);
    } else if height <= 46_331 {
      Cip04Parent(height, chain, pid);
    }
  }

  lemma Cip04Parent(height: nat, chain: Lookup, pid: int -> int)
    requires height > 8 && Cip04(height, chain, pid).Ok?
    ensures height - 1 in chain
  {
  }

  /** Above height 397000 the weighted average decides. */
  lemma {:induction false} SteadyToday(height: nat, chain: Lookup, pid: int -> int, t: nat, s: nat)
    requires height > 397_000 && Steady(chain, height - WINDOW, WINDOW, t, s) && s > 0 && t <= POW_LIMIT
    ensures var c := Min(s, 6 * SPACING);
            exists p :: 0 <= p < TWO256 && NextWorkRequired(height, chain, pid) == Ok(Encoded(Min(p, POW_LIMIT)))
              && SPACING * p <= t * c < SPACING * p + NK * c
  {
    hide Cip06, Encoded, Steady;
    LwmaSteady(height, chain, t, s);
  }
}
