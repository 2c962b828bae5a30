/** Script numbers as bytes: sign and magnitude, least significant byte first. */
module ScriptNumbers {
  import opened Basics
  import opened LittleEndian
  import opened Script
  import opened ScriptEngine
  import opened ScriptRules

  /** The bytes of a magnitude, without leading zeros. */
  function Magnitude(v: nat): Bytes {
    if v == 0 then [] else [v % 256] + Magnitude(v / 256)
  }

  /** The sign goes into the top bit of the last byte, or into a byte of its own. */
  function WithSign(m: Bytes, negative: bool): Bytes
    requires m != []
  {
    if Last(m) >= 0x80 then m + [if negative then 0x80 else 0]
    else if negative then Init(m) + [Last(m) + 0x80]
    else m
  }

  function EncodeNumber(v: int): Bytes {
    if v == 0 then [] else MagnitudeFacts(if v < 0 then -v else v); WithSign(Magnitude(if v < 0 then -v else v), v < 0)
  }

  lemma {:induction false} MagnitudeFacts(v: nat)
    ensures LeValue(Magnitude(v)) == v
    ensures v > 0 ==> Magnitude(v) != [] && Last(Magnitude(v)) != 0
    decreases v
  {
    if v > 0 {
      MagnitudeFacts(v / 256);
      assert Magnitude(v)[1..] == Magnitude(v / 256);
      if v >= 256 {
        assert Last(Magnitude(v)) == Last(Magnitude(v / 256));
      }
    }
  }

  /** The loop over the magnitude. */
  method MagnitudeBytes(value: nat) returns (bytes: Bytes)
    ensures bytes == Magnitude(value)
  {
    bytes := [];
    var rest := value;
    while rest > 0
      invariant bytes + Magnitude(rest) == Magnitude(value)
    {
      ghost var low, high := [rest % 256], Magnitude(rest / 256);
      assert bytes + (low + high) == bytes + low + high;
      bytes := bytes + [rest % 256];
      rest := rest / 256;
    }
    assert bytes + [] == bytes;
  }

  /** `encode_script_number`. */
  method EncodeScriptNumber(value: int) returns (bytes: Bytes)
    ensures bytes == EncodeNumber(value)
  {
    hide Magnitude;
    if value == 0 {
      return [];
    }
    var negative := value < 0;
    var absValue: nat := if negative then -value else value;
    MagnitudeFacts(absValue);
    bytes := MagnitudeBytes(absValue);
    var last := bytes[|bytes| - 1];
    if last >= 0x80 {
      bytes := bytes + [if negative then 0x80 else 0];
    } else if negative {
      bytes := bytes[..|bytes| - 1] + [last + 0x80];
    }
  }

  lemma {:induction false} LimitOf(data: Bytes, n: nat)
    requires data != [] && Last(data) != 0
    ensures |data| <= n <==> LeValue(data) < Limit(n)
    decreases |data|
  {
    LeBound(data);
    LastByte(data);
    LeBound(Init(data));
    if |data| <= n {
      LimitMono(|data|, n);
    } else {
      LimitMono(n, |data| - 1);
      MulLimit(Last(data), Limit(|data| - 1));
    }
  }

  lemma MulLimit(b: nat, l: nat)
    requires b > 0
    ensures b * l >= l
  {
  }

  lemma {:induction false} LimitMono(a: nat, b: nat)
    requires a <= b
    ensures Limit(a) <= Limit(b)
    decreases b
  {
    if a < b {
      LimitMono(a, b - 1);
    }
  }

  /** Decoding signed bytes gives back the number they were made from. */
  lemma WithSignDecodes(m: Bytes, negative: bool)
    requires m != [] && Last(m) != 0 && |WithSign(m, negative)| <= 4
    ensures DecodeNumber(WithSign(m, negative)) == Ok(LeValue(m) * if negative then -1 else 1)
  {
    hide LeValue, Limit;
    var s := WithSign(m, negative);
    LastByte(s);
    LastByte(m);
    if Last(m) >= 0x80 {
      assert s[..|s| - 1] == m;
    } else if negative {
      assert s[..|s| - 1] == Init(m);
      Spread(Last(m), Limit(|m| - 1));
    }
  }

  lemma Spread(b: int, l: int)
    ensures (b + 0x80) * l == b * l + 0x80 * l
  {
  }

  /** Encoding and decoding: every number of less than 32 bits comes back, and every other one
      is refused, because its encoding has more than four bytes. */
  lemma {:induction false} NumberRoundTrip(v: int)
    ensures DecodeNumber(EncodeNumber(v)) ==
            if -0x8000_0000 < v < 0x8000_0000 then Ok(v) else Err(NumericOverflow)
  {
    hide LeValue, Limit, Magnitude;
    if v != 0 {
      var a := if v < 0 then -v else v;
      var m := Magnitude(a);
      MagnitudeFacts(a);
      LimitOf(m, 3);
      LimitOf(m, 4);
      FourBytes(m);
      if |EncodeNumber(v)| <= 4 {
        WithSignDecodes(m, v < 0);
      }
    }
  }

  /** A magnitude leaves its top bit for the sign exactly if it is below half the limit. */
  lemma FourBytes(m: Bytes)
    requires m != []
    ensures Limit(3) == 0x100_0000 && Limit(4) == 0x1_0000_0000
    ensures |m| == 4 ==> (Last(m) < 0x80 <==> LeValue(m) < 0x8000_0000)
  {
    assert Limit(2) == 0x1_0000;
    assert Limit(4) == 256 * Limit(3);
    if |m| == 4 {
      LastByte(m);
      LeBound(m[..3]);
    }
  }
}
