/** Script numbers: little-endian, sign bit in the top byte, shortest form only. */
module ScriptNum {
  import opened Basics

  /** The shortest encoding of the magnitude `m` with the given sign. */
  function EncodeMagnitude(m: nat, negative: bool): (v: Bytes)
    requires m > 0
    ensures |v| > 0
  {
    if m < 128 then [if negative then m + 128 else m]
    else if m < 256 then [m, if negative then 128 else 0]
    else [m % 256] + EncodeMagnitude(m / 256, negative)
  }

  /** scriptNum.Bytes */
  function Encode(n: int): Bytes {
    if n == 0 then [] else if n > 0 then EncodeMagnitude(n, false) else EncodeMagnitude(-n, true)
  }

  function Magnitude(v: Bytes): nat
    requires v != []
  {
    if |v| == 1 then v[0] % 128 else v[0] + 256 * Magnitude(v[1..])
  }

  /** The number a byte string stands for, shortest form or not. */
  function Value(v: Bytes): int {
    if v == [] then 0
    else if Last(v) >= 128 then 0 - (Magnitude(v) as int)
    else Magnitude(v)
  }

  /** What checkMinimalDataEncoding accepts. */
  predicate Minimal(v: Bytes) {
    v == [] || Last(v) % 128 != 0 || (|v| > 1 && v[|v| - 2] >= 128)
  }

  /** MakeScriptNum(v, true, len(v)) */
  function Decode(v: Bytes): Result<int> {
    if Minimal(v) then Ok(Value(v)) else Err
  }

  lemma {:induction false} MagnitudeRoundTrip(m: nat, negative: bool)
    requires m > 0
    ensures var v := EncodeMagnitude(m, negative);
            Minimal(v) && Magnitude(v) == m && (Last(v) >= 128 <==> negative)
  {
    if m >= 256 {
      MagnitudeRoundTrip(m / 256, negative);
      var v, w := EncodeMagnitude(m, negative), EncodeMagnitude(m / 256, negative);
      assert v[1..] == w && Last(v) == Last(w);
      assert m / 256 > 0;
      if |w| == 1 {
        assert Last(w) % 128 != 0;
      } else {
        assert v[|v| - 2] == w[|w| - 2];
      }
    }
  }

  /** Every number survives encoding, and its encoding is one the strict decoder takes. */
  lemma EncodeDecode(n: int)
    ensures Decode(Encode(n)) == Ok(n)
  {
    if n != 0 {
      MagnitudeRoundTrip(if n > 0 then n else -n, n < 0);
    }
  }

  lemma {:induction false} MagnitudeCanonical(v: Bytes)
    requires v != [] && Minimal(v)
    ensures Magnitude(v) > 0
    ensures EncodeMagnitude(Magnitude(v), Last(v) >= 128) == v
  {
    if |v| == 1 {
    } else if |v| == 2 {
      assert v[1..] == [v[1]];
      var top: int := v[1] % 128;
      assert Magnitude(v) == 256 * top + v[0];
      if v[1] % 128 != 0 {
        assert Magnitude(v) / 256 == top;
      }
    } else {
      assert Last(v[1..]) == Last(v) && v[1..][|v| - 3] == v[|v| - 2];
      MagnitudeCanonical(v[1..]);
      assert Magnitude(v) / 256 == Magnitude(v[1..]) && Magnitude(v) % 256 == v[0];
      assert v == [v[0]] + v[1..];
    }
  }

  /** The strict decoder accepts one byte string per number: the one the encoder writes. */
  lemma DecodeEncode(v: Bytes)
    ensures Decode(v).Ok? <==> Encode(Value(v)) == v
  {
    if v != [] {
      if Minimal(v) {
        MagnitudeCanonical(v);
      } else if Value(v) != 0 {
        MagnitudeRoundTrip(Magnitude(v), Last(v) >= 128);
      }
    }
  }

  lemma {:induction false} EncodeLength(m: nat, k: nat)
    requires 0 < m && k > 0 && m < 128 * Pow2(8 * (k - 1))
    ensures |EncodeMagnitude(m, false)| <= k
  {
    if k == 1 {
    } else {
      Pow2Small();
      Pow2Add(8, 8 * (k - 2));
      assert 8 * (k - 1) == 8 + 8 * (k - 2);
      if m >= 256 {
        assert m / 256 < 128 * Pow2(8 * (k - 2));
        EncodeLength(m / 256, k - 1);
      }
    }
  }

  /** A 32-bit number takes at most five bytes, a counter below 2^15 at most two. */
  lemma EncodeShort(n: nat)
    ensures n < 0x1_0000_0000 ==> |Encode(n)| <= 5
    ensures n < 0x8000 ==> |Encode(n)| <= 2
  {
    Pow2Small();
    Pow2Add(8, 8);
    Pow2Add(16, 16);
    if 0 < n < 0x1_0000_0000 { EncodeLength(n, 5); }
    if 0 < n < 0x8000 { EncodeLength(n, 2); }
  }
}
