/** The compact (nBits) form of a 256-bit target, and block work. */
module Compact {
  import opened Arith

  const TWO256: nat := 0x1_00000000_00000000_00000000_00000000_00000000_00000000_00000000_00000000

  const U32 := 0x1_0000_0000

  /** Bytes needed for a value. */
  function ByteLen(t: nat): nat {
    (BitLen(t) + 7) / 8
  }

  /** `compact_to_target`: target (shifts drop bits above 256), negative flag, overflow flag. */
  function CompactToTarget(compact: nat): (r: (nat, bool, bool))
    requires compact < U32
    ensures r.0 < TWO256
  {
    var size, word0 := compact / 0x100_0000, compact % 0x80_0000;
    var word := if size <= 3 then word0 / Pow2(8 * (3 - size)) else word0;
    var target := if size <= 3 then word else word * Pow2(8 * (size - 3)) % TWO256;
    var negative := word != 0 && compact / 0x80_0000 % 2 == 1;
    var overflow := word != 0 && (size > 34 || (word > 0xff && size > 33) || (word > 0xffff && size > 32));
    (target, negative, overflow)
  }

  function Target(compact: nat): nat
    requires compact < U32
  {
    CompactToTarget(compact).0
  }

  /** Mantissa for an exponent of `n` bytes. */
  function Mantissa(t: nat, n: nat): nat {
    if n <= 3 then Mul(t, Pow2(8 * (3 - n))) else Div(t, Pow2(8 * (n - 3)))
  }

  /** `target_to_compact`. */
  function TargetToCompact(target: nat): nat
    requires target < TWO256
  {
    var size := ByteLen(target);
    var c := Mantissa(target, size) % U32;
    if c / 0x80_0000 % 2 == 1 then c / 0x100 % 0x80_0000 + (size + 1) * 0x100_0000
    else c % 0x80_0000 + size * 0x100_0000
  }

  /** The complement trick of `work_from_bits`: it stays inside 256 bits. */
  function Work(target: nat): nat
    requires target < TWO256
  {
    (TWO256 - 1 - target) / (target + 1) + 1
  }

  /** `work_from_bits`. */
  function WorkFromBits(compact: nat): nat
    requires compact < U32
  {
    var (target, negative, overflow) := CompactToTarget(compact);
    if negative || overflow || target == 0 then 0
    else Work(target)
  }

  lemma TopWord(val: nat, pos: nat)
    requires val < Pow2(64 * (pos + 1))
    ensures var word := val / Pow2(64 * pos) % Pow2(64);
            if word == 0 then val < Pow2(64 * pos) else BitLen(val) == 64 * pos + BitLen(word)
  {
    hide Pow2;
    var d := Pow2(64 * pos);
    var w := Div(val, d);
    Pow2Add(64, 64 * pos);
    assert 64 + 64 * pos == 64 * (pos + 1);
    DivLess(val, d, Pow2(64));
    ModSmall(w, Pow2(64));
    if w != 0 {
      BitLenShift(val, 64 * pos);
    } else {
      DivBounds(val, d);
    }
  }

  lemma Pow2Is256()
    ensures Pow2(256) == TWO256
  {
    hide Pow2;
    SmallPowers();
    Pow2Add(16, 16);
    Pow2Add(32, 32);
    Pow2Add(64, 64);
    Pow2Add(128, 128);
  }

  /** The word loop of `bits_u256`; `BitLen(word)` is 64 minus the leading zeros of a word. */
  method BitsU256(val: nat) returns (bits: nat)
    requires val < TWO256
    ensures bits == BitLen(val)
  {
    hide Pow2;
    Pow2Is256();
    var pos := 4;
    while pos > 0
      invariant 0 <= pos <= 4
      invariant val < Pow2(64 * pos)
    {
      pos := pos - 1;
      var word := val / Pow2(64 * pos) % Pow2(64);
      TopWord(val, pos);
      if word != 0 {
        return 64 * pos + BitLen(word);
      }
    }
    SmallPowers();
    return 0;
  }

  // ---------- Byte lengths ----------

  lemma SmallPowers()
    ensures Pow2(0) == 1 && Pow2(8) == 0x100 && Pow2(16) == 0x1_0000 && Pow2(24) == 0x100_0000
  {
    assert Pow2(4) == 16;
    Pow2Add(4, 4);
    Pow2Add(8, 8);
    Pow2Add(16, 8);
  }

  lemma ByteLenIff(t: nat, n: nat)
    ensures ByteLen(t) <= n <==> t < Pow2(8 * n)
  {
    BitLenIff(t, 8 * n);
  }

  /** Encoding sizes: one more byte when the top bit of the leading byte is set. */
  lemma DoubledByteLen(t: nat)
    ensures ByteLen(t) <= ByteLen(2 * t) <= ByteLen(t) + 1
  {
    var s := ByteLen(t);
    ByteLenIff(t, s);
    ByteLenIff(2 * t, s + 1);
    Pow2Mono(8 * s, 8 * (s + 1));
    ByteLenIff(t, ByteLen(2 * t));
    ByteLenIff(2 * t, ByteLen(2 * t));
  }

  // ---------- The closed form of the encoding ----------

  lemma MantissaBelowShort(t: nat, n: nat, k: nat)
    requires n <= 3 && k <= 3 && n + k >= 3
    ensures Mantissa(t, n) < Pow2(8 * k) <==> t < Pow2(8 * (n + k - 3))
  {
    hide Pow2;
    var d, p := Pow2(8 * (3 - n)), Pow2(8 * (n + k - 3));
    Pow2Add(8 * (n + k - 3), 8 * (3 - n));
    assert 8 * (n + k - 3) + 8 * (3 - n) == 8 * k;
    MulMonoIf(t + 1, p, d);
    MulMonoIf(p, t, d);
    assert (t + 1) * d == t * d + d;
  }

  lemma MantissaBelow(t: nat, n: nat, k: nat)
    requires k <= 3 && n + k >= 3
    ensures Mantissa(t, n) < Pow2(8 * k) <==> t < Pow2(8 * (n + k - 3))
  {
    hide Pow2;
    if n <= 3 {
      MantissaBelowShort(t, n, k);
    } else {
      var d := Pow2(8 * (n - 3));
      Pow2Add(8 * k, 8 * (n - 3));
      assert 8 * k + 8 * (n - 3) == 8 * (n + k - 3);
      DivIff(t, d, Pow2(8 * k));
    }
  }

  lemma DivIff(t: nat, d: nat, q: nat)
    requires d > 0
    ensures t / d < q <==> t < q * d
  {
    if t < q * d {
      DivLess(t, d, q);
    } else {
      DivAtLeast(t, d, q);
    }
  }

  lemma MantissaNext(t: nat, n: nat)
    ensures Mantissa(t, n) / 0x100 == Mantissa(t, n + 1)
  {
    hide Pow2;
    SmallPowers();
    if n < 3 {
      Pow2Add(8 * (2 - n), 8);
      assert 8 * (2 - n) + 8 == 8 * (3 - n) && 3 - (n + 1) == 2 - n;
      assert t * (Pow2(8 * (2 - n)) * 0x100) == t * Pow2(8 * (2 - n)) * 0x100;
      DivMul(t * Pow2(8 * (2 - n)), 0x100);
    } else if n == 3 {
      assert Pow2(8 * (3 - n)) == 1 && 8 * (n + 1 - 3) == 8;
    } else {
      Pow2Add(8 * (n - 3), 8);
      assert 8 * (n - 3) + 8 == 8 * (n + 1 - 3);
      DivDiv(t, Pow2(8 * (n - 3)), 0x100);
    }
  }

  /** The sign bit of the first mantissa is set exactly when doubling needs one more byte. */
  lemma SignBit(t: nat)
    ensures var s := ByteLen(t); Mantissa(t, s) >= 0x80_0000 <==> ByteLen(2 * t) > s
  {
    hide Pow2, ByteLen;
    SmallPowers();
    var s := ByteLen(t);
    ByteLenIff(2 * t, s);
    if s <= 3 {
      var d := Pow2(8 * (3 - s));
      Pow2Add(8 * s, 8 * (3 - s));
      assert 8 * s + 8 * (3 - s) == 24;
      MulMonoIf(2 * t + 1, Pow2(8 * s), d);
      MulMonoIf(Pow2(8 * s), 2 * t, d);
      assert (2 * t + 1) * d == 2 * (t * d) + d && (2 * t) * d == 2 * (t * d);
    } else {
      var d := Pow2(8 * (s - 3));
      Pow2Add(24, 8 * (s - 3));
      assert 24 + 8 * (s - 3) == 8 * s;
      DivIff(t, d, 0x80_0000);
    }
  }

  /** The encoding without its case split: exponent `ByteLen(2t)`, leading bytes as mantissa. */
  lemma {:induction false} ClosedForm(t: nat)
    requires t < TWO256
    ensures var n := ByteLen(2 * t);
            && TargetToCompact(t) == Mantissa(t, n) + n * 0x100_0000 < U32
            && Mantissa(t, n) < 0x80_0000 && n <= 33
            && (n == 33 ==> Mantissa(t, n) <= 0xffff)
            && (t > 0 ==> n > 0 && Mantissa(t, n) >= 0x8000)
  {
    hide Pow2, ByteLen, Mantissa;
    SmallPowers();
    var s, n := ByteLen(t), ByteLen(2 * t);
    var c := Mantissa(t, s);
    DoubledByteLen(t);
    SignBit(t);
    MantissaNext(t, s);
    ByteLenIff(t, s);
    MantissaBelow(t, s, 3);
    assert s + 3 - 3 == s;
    Pow2Is256();
    ByteLenIff(t, 32);
    EncodeCases(t);
    if t > 0 {
      ByteLenIff(t, 0);
      ByteLenIff(t, s - 1);
      MantissaBelow(t, s, 2);
      assert 8 * (s + 2 - 3) == 8 * (s - 1);
    }
  }

  lemma EncodeCases(t: nat)
    requires t < TWO256
    ensures var s, c := ByteLen(t), Mantissa(t, ByteLen(t));
            c < 0x100_0000 ==>
              TargetToCompact(t) == if c >= 0x80_0000 then c / 0x100 + (s + 1) * 0x100_0000 else c + s * 0x100_0000
  {
    hide Mantissa, ByteLen;
  }

  // ---------- The codec theorems ----------

  lemma DecodeFields(m: nat, n: nat)
    requires m < 0x80_0000 && n <= 33
    ensures var c := m + n * 0x100_0000;
            && c < U32
            && CompactToTarget(c).0 == (if n <= 3 then m / Pow2(8 * (3 - n)) else m * Pow2(8 * (n - 3)) % TWO256)
            && !CompactToTarget(c).1
            && (n < 33 || m <= 0xffff ==> !CompactToTarget(c).2)
  {
    hide Pow2;
    var c := m + n * 0x100_0000;
    assert c / 0x100_0000 == n && c % 0x80_0000 == m && c / 0x80_0000 == 2 * n;
  }

  /** Decoding an encoded target: the leading bytes, with no flag set. */
  lemma Decoded(t: nat)
    requires t < TWO256
    ensures TargetToCompact(t) < U32
    ensures var n := ByteLen(2 * t);
            CompactToTarget(TargetToCompact(t)) ==
            (if n <= 3 then t else Mantissa(t, n) * Pow2(8 * (n - 3)), false, false)
    ensures var n := ByteLen(2 * t);
            n > 3 ==> Mantissa(t, n) * Pow2(8 * (n - 3)) <= t < (Mantissa(t, n) + 1) * Pow2(8 * (n - 3))
  {
    hide Pow2, ByteLen, TargetToCompact, CompactToTarget;
    var n := ByteLen(2 * t);
    var m := Mantissa(t, n);
    ClosedForm(t);
    DecodeFields(m, n);
    if n <= 3 {
      DivMul(t, Pow2(8 * (3 - n)));
    } else {
      var d := Pow2(8 * (n - 3));
      DivBounds(t, d);
      assert (m + 1) * d == m * d + d;
      assert m * d % TWO256 == m * d;
    }
  }

  /** The exponent and mantissa of an encoded target survive decoding and encoding again. */
  lemma Reencoded(t: nat)
    requires t < TWO256
    ensures TargetToCompact(t) < U32 && Target(TargetToCompact(t)) <= t
    ensures TargetToCompact(Target(TargetToCompact(t))) == TargetToCompact(t)
  {
    hide Pow2, ByteLen, TargetToCompact, CompactToTarget;
    Decoded(t);
    ClosedForm(t);
    var n := ByteLen(2 * t);
    SmallPowers();
    ByteLenIff(2 * t, 0);
    if n > 3 {
      var m, d := Mantissa(t, n), Pow2(8 * (n - 3));
      var u := m * d;
      ClosedForm(u);
      DivMul(m, d);
      ExponentOf(m, n);
    }
  }

  lemma ExponentOf(m: nat, n: nat)
    requires n > 3 && 0x8000 <= m < 0x80_0000
    ensures ByteLen(2 * (m * Pow2(8 * (n - 3)))) == n
  {
    hide Pow2, ByteLen;
    var d := Pow2(8 * (n - 3));
    var u := m * d;
    SmallPowers();
    Pow2Add(24, 8 * (n - 3));
    Pow2Add(16, 8 * (n - 3));
    assert 24 + 8 * (n - 3) == 8 * n && 16 + 8 * (n - 3) == 8 * (n - 1);
    assert 2 * u == (2 * m) * d;
    MulMono(0x1_0000, 2 * m, d);
    MulMono(2 * m + 1, 0x100_0000, d);
    assert (2 * m + 1) * d == (2 * m) * d + d;
    ByteLenIff(2 * u, n);
    ByteLenIff(2 * u, n - 1);
  }

  lemma ByteLenMono(a: nat, b: nat)
    requires a <= b
    ensures ByteLen(a) <= ByteLen(b)
  {
    hide Pow2, ByteLen;
    ByteLenIff(b, ByteLen(b));
    ByteLenIff(a, ByteLen(b));
  }

  lemma {:induction false} EncodeMonotone(t: nat, u: nat)
    requires t <= u < TWO256
    ensures TargetToCompact(t) <= TargetToCompact(u)
  {
    hide Pow2, ByteLen, TargetToCompact;
    ClosedForm(t);
    ClosedForm(u);
    ByteLenMono(2 * t, 2 * u);
    var n := ByteLen(2 * t);
    if n == ByteLen(2 * u) {
      if n <= 3 {
        MulMono(t, u, Pow2(8 * (3 - n)));
      } else {
        DivMono(t, u, Pow2(8 * (n - 3)));
      }
    }
  }

  /** The compact codec on every 256-bit target: no flag is ever set, decoding never exceeds
      the target, encoding again changes nothing, and the error stays below one unit of the
      last mantissa byte. */
  lemma {:induction false} CodecRoundTrip(t: nat)
    requires t < TWO256
    ensures var c := TargetToCompact(t);
            && c < U32 && !CompactToTarget(c).1 && !CompactToTarget(c).2
            && Target(c) <= t
            && TargetToCompact(Target(c)) == c
            && (t < 0x80_0000 ==> Target(c) == t)
            && (t >= 0x80_0000 ==> (t - Target(c)) * 0x8000 < t)
  {
    hide Pow2, ByteLen, TargetToCompact, CompactToTarget;
    Decoded(t);
    Reencoded(t);
    ClosedForm(t);
    SmallPowers();
    ByteLenIff(2 * t, 3);
    var n := ByteLen(2 * t);
    if n > 3 {
      var m, d := Mantissa(t, n), Pow2(8 * (n - 3));
      MulMono(0x8000, m, d);
      assert (m + 1) * d == m * d + d;
    }
  }

  /** Comparing encodings as integers compares the decoded targets. */
  lemma {:induction false} CompactOrder(t: nat, u: nat)
    requires t < TWO256 && u < TWO256
    ensures TargetToCompact(t) < U32 && TargetToCompact(u) < U32
    ensures t <= u ==> TargetToCompact(t) <= TargetToCompact(u)
    ensures TargetToCompact(t) <= TargetToCompact(u) <==> Target(TargetToCompact(t)) <= Target(TargetToCompact(u))
  {
    hide TargetToCompact, CompactToTarget;
    Reencoded(t);
    Reencoded(u);
    if t <= u {
      EncodeMonotone(t, u);
    }
    var a, b := Target(TargetToCompact(t)), Target(TargetToCompact(u));
    if a <= b {
      EncodeMonotone(a, b);
    } else {
      EncodeMonotone(b, a);
    }
  }

  /** Work is `floor(2^256 / (target + 1))`, positive, and falls as the target grows. */
  lemma {:induction false} WorkIsQuotient(t: nat)
    requires t < TWO256
    ensures Work(t) == TWO256 / (t + 1) >= 1
  {
    var d, n := t + 1, TWO256;
    var q := (n - d) / d;
    DivBounds(n - d, d);
    assert (q + 1) * d == q * d + d;
    DivUnique(n, d, q + 1);
  }

  lemma {:induction false} WorkFromBitsSpec(c: nat)
    requires c < U32
    ensures var (t, negative, overflow) := CompactToTarget(c);
            WorkFromBits(c) == if negative || overflow || t == 0 then 0 else TWO256 / (t + 1)
  {
    hide CompactToTarget;
    WorkIsQuotient(CompactToTarget(c).0);
  }

  lemma {:induction false} WorkAntitone(t: nat, u: nat)
    requires t <= u < TWO256
    ensures Work(u) <= Work(t)
  {
    WorkIsQuotient(t);
    WorkIsQuotient(u);
    DivAntitone(TWO256, t + 1, u + 1);
  }
}
