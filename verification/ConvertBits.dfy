/** Multiplication and division facts used by the bit regrouper, one nonlinear step at a time. */
module DivMod {

  lemma MulLe(a: int, b: int, c: int)
    requires a <= b && c >= 0
    ensures a * c <= b * c
  {
  }

  lemma Distribute(a: int, b: int, c: int)
    ensures (a + b) * c == a * c + b * c
    ensures (a - b) * c == a * c - b * c
  {
  }

  lemma Associate(a: int, b: int, c: int)
    ensures a * b * c == a * (b * c) == a * (c * b)
  {
  }

  lemma Predecessor(a: int, b: int)
    ensures a * b == a * (b - 1) + a
  {
  }

  lemma Positive(a: int, b: int)
    requires a > 0 && b > 0
    ensures a * b > 0
  {
  }

  lemma Division(x: int, d: int)
    requires d > 0
    ensures x == x / d * d + x % d && 0 <= x % d < d
  {
  }

  lemma QuotientNat(n: nat, d: nat)
    requires d > 0
    ensures n / d >= 0
  {
  }

  lemma QuotientIsUnique(d: int, q: int, r: int, q': int, r': int)
    requires 0 <= r < d && 0 <= r' < d && q * d + r == q' * d + r'
    ensures q == q' && r == r'
  {
    if q < q' {
      MulLe(q + 1, q', d);
      Distribute(q, 1, d);
    } else if q' < q {
      MulLe(q' + 1, q, d);
      Distribute(q', 1, d);
    }
  }

  lemma Unique(x: int, d: int, q: int, r: int)
    requires d > 0 && 0 <= r < d && x == q * d + r
    ensures x / d == q && x % d == r
  {
    Division(x, d);
    QuotientIsUnique(d, q, r, x / d, x % d);
  }

  /** A quotient below the bound: n < p * d gives n / d < p. */
  lemma QuotientBound(n: nat, p: nat, d: nat)
    requires d > 0 && n < p * d
    ensures n / d < p
  {
    Division(n, d);
    if n / d >= p {
      MulLe(p, n / d, d);
    }
  }

  lemma CancelFactor(a: int, b: int, f: int)
    requires f > 0 && a * f == b * f
    ensures a == b
  {
    QuotientIsUnique(f, a, 0, b, 0);
  }

  /** The remainder of a product splits into two digits. */
  lemma TwoDigits(a: nat, b: nat, q': nat, r': nat, r: nat)
    requires r < a && r' < b
    ensures (q' * b + r') * a + r == q' * (a * b) + (r' * a + r)
    ensures 0 <= r' * a + r < a * b
  {
    Distribute(q' * b, r', a);
    Associate(q', b, a);
    MulLe(r', b - 1, a);
    Distribute(b, 1, a);
    MulLe(0, r', a);
  }

  lemma Split(n: nat, a: nat, b: nat)
    requires a > 0 && b > 0
    ensures a * b > 0
    ensures n / (a * b) == n / a / b
    ensures n % (a * b) / a == n / a % b
    ensures n % (a * b) % a == n % a
  {
    Positive(a, b);
    Division(n, a);
    QuotientNat(n, a);
    SplitQuotient(n, a, b, n / a, n % a);
  }

  lemma SplitQuotient(n: nat, a: nat, b: nat, m: nat, r: nat)
    requires b > 0 && r < a && n == m * a + r
    ensures a * b > 0
    ensures n / (a * b) == m / b && n % (a * b) / a == m % b && n % (a * b) % a == r
  {
    var q', r' := m / b, m % b;
    Division(m, b);
    QuotientNat(m, b);
    SplitDigits(n, a, b, q', r', r);
  }

  lemma SplitDigits(n: nat, a: nat, b: nat, q': nat, r': nat, r: nat)
    requires r < a && r' < b && n == (q' * b + r') * a + r
    ensures a * b > 0
    ensures n / (a * b) == q' && n % (a * b) / a == r' && n % (a * b) % a == r
  {
    Positive(a, b);
    TwoDigits(a, b, q', r', r);
    Unique(n, a * b, q', r' * a + r);
    Unique(r' * a + r, a, r', r);
  }

  lemma ShiftIn(n: nat, a: nat, f: nat, v: nat)
    requires a > 0 && f > 0 && v < f
    ensures a * f > 0
    ensures (n * f + v) / (a * f) == n / a
    ensures (n * f + v) % (a * f) == n % a * f + v
  {
    Positive(a, f);
    Division(n, a);
    TwoDigits(f, a, n / a, n % a, v);
    assert f * a == a * f;
    Unique(n * f + v, a * f, n / a, n % a * f + v);
  }
}

/** Shifts and masks on unbounded unsigned numbers. */
module Shifts {
  import opened Basics
  import DivMod

  function Shl(n: nat, k: nat): nat {
    n * Pow2(k)
  }

  function Shr(n: nat, k: nat): nat {
    DivMod.QuotientNat(n, Pow2(k));
    n / Pow2(k)
  }

  /** The low `k` bits. */
  function Low(n: nat, k: nat): nat {
    n % Pow2(k)
  }

  lemma Parts(n: nat, k: nat)
    ensures n == Shl(Shr(n, k), k) + Low(n, k) && Low(n, k) < Pow2(k)
  {
    hide Pow2;
    DivMod.Division(n, Pow2(k));
  }

  lemma PartsUnique(q: nat, r: nat, k: nat)
    requires r < Pow2(k)
    ensures Shr(Shl(q, k) + r, k) == q && Low(Shl(q, k) + r, k) == r
  {
    hide Pow2;
    DivMod.Unique(q * Pow2(k) + r, Pow2(k), q, r);
  }

  lemma ShlShl(n: nat, a: nat, b: nat)
    ensures Shl(Shl(n, a), b) == Shl(n, a + b)
  {
    hide Pow2;
    Pow2Add(a, b);
    DivMod.Associate(n, Pow2(a), Pow2(b));
  }

  lemma ShlSum(n: nat, m: nat, k: nat)
    ensures Shl(n + m, k) == Shl(n, k) + Shl(m, k)
  {
    hide Pow2;
    DivMod.Distribute(n, m, Pow2(k));
  }

  lemma ShrLow(n: nat, a: nat, b: nat)
    ensures Shr(n, a + b) == Shr(Shr(n, a), b)
    ensures Shr(Low(n, a + b), a) == Low(Shr(n, a), b)
    ensures Low(Low(n, a + b), a) == Low(n, a)
  {
    hide Pow2;
    Pow2Add(a, b);
    DivMod.Split(n, Pow2(a), Pow2(b));
  }

  /** Reading `v` as the next `f` bits below `n`. */
  lemma ShiftIn(n: nat, f: nat, v: nat, b: nat)
    requires v < Pow2(f)
    ensures Shr(Shl(n, f) + v, b + f) == Shr(n, b)
    ensures Low(Shl(n, f) + v, b + f) == Shl(Low(n, b), f) + v
  {
    hide Pow2;
    Pow2Add(b, f);
    DivMod.ShiftIn(n, Pow2(b), Pow2(f), v);
  }

  lemma ShlBound(n: nat, r: nat, a: nat, b: nat)
    requires n < Pow2(a) && r < Pow2(b)
    ensures Shl(n, b) + r < Pow2(a + b)
  {
    hide Pow2;
    Pow2Add(a, b);
    DivMod.MulLe(n, Pow2(a) - 1, Pow2(b));
    DivMod.Distribute(Pow2(a), 1, Pow2(b));
  }

  lemma ShrBound(n: nat, a: nat, b: nat)
    requires n < Pow2(a + b)
    ensures Shr(n, b) < Pow2(a)
  {
    hide Pow2;
    Pow2Add(a, b);
    DivMod.QuotientBound(n, Pow2(a), Pow2(b));
  }

  lemma ShlInjective(n: nat, m: nat, k: nat)
    requires Shl(n, k) == Shl(m, k)
    ensures n == m
  {
    hide Pow2;
    DivMod.CancelFactor(n, m, Pow2(k));
  }

  lemma ShlZero(n: nat, k: nat)
    ensures Shl(n, k) == 0 <==> n == 0
    ensures Shl(n, 0) == n && Shr(n, 0) == n && Low(n, 0) == 0
  {
    assert Pow2(0) == 1;
    if n > 0 {
      DivMod.Positive(n, Pow2(k));
    }
  }

  lemma {:induction false} Pow2Monotone(a: nat, b: nat)
    requires a <= b
    ensures Pow2(a) <= Pow2(b)
  {
    if a < b {
      Pow2Monotone(a, b - 1);
    }
  }

  /** Bitwise or of two unsigned numbers. */
  function BitOr(a: nat, b: nat): nat
    decreases a + b
  {
    if a == 0 then b else if b == 0 then a
    else 2 * BitOr(a / 2, b / 2) + (if a % 2 == 1 || b % 2 == 1 then 1 else 0)
  }

  lemma {:induction false} BitOrDisjoint(a: nat, k: nat, b: nat)
    requires b < Pow2(k)
    ensures BitOr(Shl(a, k), b) == Shl(a, k) + b
  {
    if k > 0 && a > 0 && b > 0 {
      assert Shl(a, k) == 2 * Shl(a, k - 1) by {
        var p := Pow2(k - 1);
        assert a * (2 * p) == 2 * (a * p);
      }
      BitOrDisjoint(a, k - 1, b / 2);
      ShlZero(a, k - 1);
    }
  }

  lemma {:induction false} BitOrBound(a: nat, b: nat, k: nat)
    requires a < Pow2(k) && b < Pow2(k)
    ensures BitOr(a, b) < Pow2(k)
  {
    if a > 0 && b > 0 {
      assert k > 0;
      BitOrBound(a / 2, b / 2, k - 1);
    }
  }
}

/** The bit regrouper of pkg/escrow/bech32.go against big-endian numbers. */
module ConvertBits {
  import opened Basics
  import opened Shifts
  import DivMod

  /** The number that a string of `width`-bit digits stands for, first digit most significant. */
  function Number(data: Bytes, width: nat): nat {
    if data == [] then 0 else Shl(Number(Front(data), width), width) + Last(data)
  }

  predicate Fits(data: Bytes, width: nat) {
    forall i :: 0 <= i < |data| ==> data[i] < Pow2(width)
  }

  lemma ByteBound(width: nat)
    requires width <= 8
    ensures Pow2(width) <= 256
  {
    Pow2Monotone(width, 8);
    Pow2Small();
  }

  lemma LowIsByte(n: nat, width: nat)
    requires width <= 8
    ensures Low(n, width) < 256
  {
    hide Pow2;
    ByteBound(width);
    Parts(n, width);
  }

  /** The last `count` digits of a number. */
  function Digits(n: nat, count: nat, width: nat): (d: Bytes)
    requires width <= 8
    ensures |d| == count
  {
    LowIsByte(n, width);
    if count == 0 then [] else Digits(Shr(n, width), count - 1, width) + [Low(n, width)]
  }

  /** What regrouping means: read the input as one number, write its bits again in digits of the
      other width; the bits left over are padded with zeros, or have to be zeros too few to matter. */
  function Regroup(data: Bytes, fromBits: nat, toBits: nat, pad: bool): Option<Bytes>
    requires 0 < fromBits && 0 < toBits <= 8
  {
    var n := Number(data, fromBits);
    var total := fromBits * |data|;
    var left := total % toBits;
    var whole := Digits(Shr(n, left), total / toBits, toBits);
    var rest := Low(n, left);
    if pad then
      if left > 0 then
        PaddingFits(n, left, toBits);
        Some(whole + [Shl(rest, toBits - left)])
      else Some(whole)
    else if left >= fromBits || rest != 0 then None
    else Some(whole)
  }

  lemma PaddingFits(n: nat, left: nat, toBits: nat)
    requires left <= toBits <= 8
    ensures Shl(Low(n, left), toBits - left) < Pow2(toBits) <= 256
  {
    hide Pow2, Shl, Low;
    ByteBound(toBits);
    Parts(n, left);
    ShlBound(Low(n, left), 0, left, toBits - left);
  }

  // ------------------------------------------------------------ digits and numbers

  lemma NumberSnoc(data: Bytes, digit: byte, width: nat)
    ensures Number(data + [digit], width) == Shl(Number(data, width), width) + digit
    ensures Fits(data, width) && digit < Pow2(width) ==> Fits(data + [digit], width)
  {
    assert Front(data + [digit]) == data;
  }

  lemma DigitsSnoc(n: nat, count: nat, width: nat)
    requires width <= 8
    ensures Low(n, width) < 256
    ensures Digits(n, count + 1, width) == Digits(Shr(n, width), count, width) + [Low(n, width)]
  {
    LowIsByte(n, width);
  }

  lemma Empty(n: nat, width: nat)
    requires width <= 8
    ensures Digits(n, 0, width) == [] && Number([], width) == 0 && Pow2(0) == 1
  {
  }

  lemma {:induction false} NumberBound(data: Bytes, width: nat)
    requires Fits(data, width)
    ensures Number(data, width) < Pow2(width * |data|)
  {
    if data == [] {
      assert width * |data| == 0;
    } else {
      NumberBound(Front(data), width);
      hide Pow2, Shl, Number;
      assert data == Front(data) + [Last(data)];
      assert Last(data) == data[|data| - 1];
      NumberSnoc(Front(data), Last(data), width);
      ShlBound(Number(Front(data), width), Last(data), width * (|data| - 1), width);
      DivMod.Predecessor(width, |data|);
    }
  }

  lemma {:induction false} DigitsOfNumber(data: Bytes, width: nat)
    requires width <= 8 && Fits(data, width)
    ensures Digits(Number(data, width), |data|, width) == data
  {
    hide Pow2, Number, Digits, Shl, Shr, Low;
    if data == [] {
      Empty(Number(data, width), width);
    } else {
      var digit := Last(data);
      assert data == Front(data) + [digit];
      assert digit == data[|data| - 1];
      NumberSnoc(Front(data), digit, width);
      PartsUnique(Number(Front(data), width), digit, width);
      DigitsSnoc(Number(data, width), |data| - 1, width);
      DigitsOfNumber(Front(data), width);
    }
  }

  lemma {:induction false} NumberOfDigits(n: nat, count: nat, width: nat)
    requires width <= 8 && n < Pow2(width * count)
    ensures Number(Digits(n, count, width), width) == n && Fits(Digits(n, count, width), width)
    decreases count
  {
    hide Pow2, Number, Digits, Shl, Shr, Low;
    Empty(n, width);
    if count == 0 {
      assert width * count == 0;
    } else {
      DivMod.Predecessor(width, count);
      ShrBound(n, width * (count - 1), width);
      NumberOfDigits(Shr(n, width), count - 1, width);
      Parts(n, width);
      DigitsSnoc(n, count - 1, width);
      NumberSnoc(Digits(Shr(n, width), count - 1, width), Low(n, width), width);
    }
  }

  // ------------------------------------------------------------ the program

  /** The low 32 bits of a word. */
  function Word(n: nat): uint32 {
    n % 0x1_0000_0000
  }

  lemma WordSize()
    ensures Pow2(32) == 0x1_0000_0000
  {
    hide Pow2;
    Pow2Small();
    Pow2Add(8, 8);
    Pow2Add(16, 16);
  }

  lemma WordIsLow(n: nat)
    ensures Word(n) == Low(n, 32)
  {
    hide Pow2;
    WordSize();
  }

  /** acc = (acc << fromBits) | uint32(val) on a 32-bit word. */
  function ShiftOr(acc: uint32, fromBits: nat, val: byte): uint32 {
    OrIsWord(Word(Shl(acc, fromBits)), val);
    BitOr(Word(Shl(acc, fromBits)), val)
  }

  lemma OrIsWord(acc: uint32, val: byte)
    ensures BitOr(acc, val) < 0x1_0000_0000
  {
    hide Pow2, BitOr;
    WordSize();
    BitOrBound(acc, val, 32);
  }

  /** A 32-bit word keeps as many low bits as it has. */
  lemma WordKeepsLowBits(n: nat, bits: nat)
    requires bits <= 32
    ensures Low(Word(n), bits) == Low(n, bits)
  {
    hide Low;
    WordIsLow(n);
    ShrLow(n, bits, 32 - bits);
  }

  /** Shifting and or-ing is shifting and adding, modulo the word. */
  lemma ShiftOrIsSum(acc: uint32, fromBits: nat, val: byte)
    requires fromBits <= 32 && val < Pow2(fromBits)
    ensures ShiftOr(acc, fromBits, val) == Word(Shl(acc, fromBits) + val)
  {
    hide Pow2, BitOr, Shl, Low, Word;
    WordIsLow(Shl(acc, fromBits));
    WordIsLow(Shl(acc, fromBits) + val);
    ShiftIn(acc, fromBits, 0, 32 - fromBits);
    ShiftIn(acc, fromBits, val, 32 - fromBits);
    BitOrDisjoint(Low(acc, 32 - fromBits), fromBits, val);
  }

  /** The word keeps the low bits of the number read so far, although it overflows. */
  lemma ShiftOrKeepsLowBits(acc: uint32, n: nat, bits: nat, fromBits: nat, val: byte)
    requires bits + fromBits <= 32 && val < Pow2(fromBits)
    requires Low(acc, bits) == Low(n, bits)
    ensures Low(ShiftOr(acc, fromBits, val), bits + fromBits) == Low(Shl(n, fromBits) + val, bits + fromBits)
    ensures Shr(Shl(n, fromBits) + val, bits + fromBits) == Shr(n, bits)
  {
    hide Pow2, ShiftOr, Shl, Low, Shr, Word;
    ShiftOrIsSum(acc, fromBits, val);
    WordKeepsLowBits(Shl(acc, fromBits) + val, bits + fromBits);
    ShiftIn(acc, fromBits, val, bits);
    ShiftIn(n, fromBits, val, bits);
  }

  /** Taking one digit off the top of the pending bits. */
  lemma TakeDigit(acc: uint32, n: nat, bits: nat, toBits: nat, done: nat)
    requires toBits <= 8 && Low(acc, bits + toBits) == Low(n, bits + toBits)
    ensures Low(Shr(acc, bits), toBits) < 256
    ensures Digits(Shr(n, bits + toBits), done, toBits) + [Low(Shr(acc, bits), toBits)]
         == Digits(Shr(n, bits), done + 1, toBits)
    ensures Low(acc, bits) == Low(n, bits)
  {
    hide Pow2, Digits, Shr, Low;
    ShrLow(acc, bits, toBits);
    ShrLow(n, bits, toBits);
    DigitsSnoc(Shr(n, bits), done, toBits);
  }

  /** The pending bits moved to the top of one last digit. */
  lemma LastDigit(acc: uint32, bits: nat, toBits: nat)
    requires bits <= toBits <= 8
    ensures Low(Word(Shl(acc, toBits - bits)), toBits) == Shl(Low(acc, bits), toBits - bits) < 256
    ensures Shl(Low(acc, bits), toBits - bits) == 0 <==> Low(acc, bits) == 0
  {
    hide Pow2, Shl, Low, Word;
    PaddingFits(acc, bits, toBits);
    WordKeepsLowBits(Shl(acc, toBits - bits), toBits);
    ShiftIn(acc, toBits - bits, 0, bits);
    ShlZero(Low(acc, bits), toBits - bits);
  }

  /** ConvertBits, with its 32-bit accumulator that overflows on long inputs. */
  method Convert(data: Bytes, fromBits: nat, toBits: nat, pad: bool) returns (r: Option<Bytes>)
    requires 1 <= fromBits <= 8 && 1 <= toBits <= 8
    ensures Fits(data, fromBits) ==> r == Regroup(data, fromBits, toBits, pad)
  {
    hide Pow2, Number, Digits, ShiftOr, Shl, Shr, Low, Word;
    var acc: uint32 := 0;
    var bits: nat := 0;
    var ret: Bytes := [];
    Empty(Shr(0, 0), toBits);
    Empty(0, toBits);
    ShlZero(0, 0);
    ghost var fits := Fits(data, fromBits);
    assert Number(data[..0], fromBits) == 0 by {
      Number0(data[..0], fromBits);
    }
    for i := 0 to |data|
      invariant 0 <= bits < toBits
      invariant fromBits * i == toBits * |ret| + bits
      invariant fits ==> Low(acc, bits) == Low(Number(data[..i], fromBits), bits)
      invariant fits ==> ret == Digits(Shr(Number(data[..i], fromBits), bits), |ret|, toBits)
    {
      if fits {
        ShiftOrKeepsLowBits(acc, Number(data[..i], fromBits), bits, fromBits, data[i]);
        assert data[..i + 1] == data[..i] + [data[i]];
        NumberSnoc(data[..i], data[i], fromBits);
      }
      acc := ShiftOr(acc, fromBits, data[i]);
      bits := bits + fromBits;
      ghost var n := Number(data[..i + 1], fromBits);
      DivMod.Predecessor(fromBits, i + 1);
      while bits >= toBits
        invariant 0 <= bits <= 15
        invariant fromBits * (i + 1) == toBits * |ret| + bits
        invariant fits ==> Low(acc, bits) == Low(n, bits)
        invariant fits ==> ret == Digits(Shr(n, bits), |ret|, toBits)
      {
        bits := bits - toBits;
        if fits {
          TakeDigit(acc, n, bits, toBits, |ret|);
        }
        LowIsByte(Shr(acc, bits), toBits);
        DivMod.Predecessor(toBits, |ret| + 1);
        ret := ret + [Low(Shr(acc, bits), toBits)];
      }
    }
    assert data[..|data|] == data;
    LeftOver(fromBits * |data|, toBits, |ret|, bits);
    LastDigit(acc, bits, toBits);
    var last := Low(Word(Shl(acc, toBits - bits)), toBits);
    if pad {
      if bits > 0 {
        ret := ret + [last];
      }
    } else if bits >= fromBits || last != 0 {
      return None;
    }
    return Some(ret);
  }

  lemma Number0(data: Bytes, width: nat)
    ensures data == [] ==> Number(data, width) == 0
  {
  }

  lemma LeftOver(total: nat, d: nat, q: nat, r: nat)
    requires r < d && total == d * q + r
    ensures total / d == q && total % d == r
  {
    assert d * q == q * d;
    DivMod.Unique(total, d, q, r);
  }

  // ------------------------------------------------------------ bijection

  lemma BytesFit(p: Bytes)
    ensures Fits(p, 8)
  {
    Pow2Small();
  }

  /** The digits that Regroup writes before any padding: `total` bits are `count` digits and a rest. */
  lemma WholeDigits(data: Bytes, fromBits: nat, toBits: nat, count: nat, left: nat)
    requires toBits <= 8 && Fits(data, fromBits) && fromBits * |data| == toBits * count + left
    ensures var whole := Digits(Shr(Number(data, fromBits), left), count, toBits);
            Fits(whole, toBits) && Number(whole, toBits) == Shr(Number(data, fromBits), left)
  {
    hide Pow2, Number, Digits, Shl, Shr, Low;
    NumberBound(data, fromBits);
    ShrBound(Number(data, fromBits), toBits * count, left);
    NumberOfDigits(Shr(Number(data, fromBits), left), count, toBits);
  }

  /** The padded 8-to-5 regrouping, as one number: the bytes shifted left by the padding. */
  lemma PaddedNumber(p: Bytes)
    ensures Regroup(p, 8, 5, true).Some?
    ensures var q := Regroup(p, 8, 5, true).value;
            && var padding := 5 * |q| - 8 * |p|;
            && 0 <= padding < 5 && Fits(q, 5)
            && Number(q, 5) == Shl(Number(p, 8), padding)
  {
    hide Pow2, Number, Digits, Shl, Shr, Low;
    var n, left := Number(p, 8), 8 * |p| % 5;
    BytesFit(p);
    WholeDigits(p, 8, 5, 8 * |p| / 5, left);
    Parts(n, left);
    ShlZero(n, 0);
    if left > 0 {
      var whole, rest := Digits(Shr(n, left), 8 * |p| / 5, 5), Low(n, left);
      PaddingFits(n, left, 5);
      NumberSnoc(whole, Shl(rest, 5 - left), 5);
      ShlShl(Shr(n, left), left, 5 - left);
      ShlSum(Shl(Shr(n, left), left), rest, 5 - left);
    }
  }

  /** The unpadded 5-to-8 regrouping accepts exactly the strings that end in fewer than five bits
      beyond the last byte, all of them zero. */
  lemma UnpaddedNumber(q: Bytes)
    requires Fits(q, 5)
    ensures Regroup(q, 5, 8, false).Some? ==>
              var p := Regroup(q, 5, 8, false).value;
              && var left := 5 * |q| - 8 * |p|;
              && 0 <= left < 5
              && Number(q, 5) == Shl(Number(p, 8), left)
    ensures Regroup(q, 5, 8, false).Some? <==> 5 * |q| % 8 < 5 && Low(Number(q, 5), 5 * |q| % 8) == 0
  {
    hide Pow2, Number, Digits, Shl, Shr, Low;
    WholeDigits(q, 5, 8, 5 * |q| / 8, 5 * |q| % 8);
    Parts(Number(q, 5), 5 * |q| % 8);
  }

  lemma SameDigits(a: Bytes, b: Bytes, width: nat)
    requires width <= 8 && |a| == |b| && Fits(a, width) && Fits(b, width)
    requires Number(a, width) == Number(b, width)
    ensures a == b
  {
    hide Pow2, Number, Digits;
    DigitsOfNumber(a, width);
    DigitsOfNumber(b, width);
  }

  lemma SameShifted(p: Bytes, p': Bytes, padding: nat)
    requires |p| == |p'| && Shl(Number(p, 8), padding) == Shl(Number(p', 8), padding)
    ensures p == p'
  {
    hide Pow2, Number, Shl;
    ShlInjective(Number(p', 8), Number(p, 8), padding);
    BytesFit(p);
    BytesFit(p');
    SameDigits(p, p', 8);
  }

  /** Symbols that spell the bytes followed by fewer than five zero bits are regrouped to the bytes. */
  lemma UnpaddedGivesBack(p: Bytes, q: Bytes, padding: nat)
    requires Fits(q, 5) && padding < 5 && 5 * |q| == 8 * |p| + padding
    requires Number(q, 5) == Shl(Number(p, 8), padding)
    ensures Regroup(q, 5, 8, false) == Some(p)
  {
    hide Pow2, Number, Regroup, Shl, Low, Fits;
    LeftOver(5 * |q|, 8, |p|, padding);
    UnpaddedNumber(q);
    PaddingIsZero(Number(p, 8), padding);
    var p' := Regroup(q, 5, 8, false).value;
    assert |p'| == |p|;
    SameShifted(p, p', padding);
  }

  /** Every byte string survives the padded regrouping to five bits and the unpadded one back. */
  lemma BytesRoundTrip(p: Bytes)
    ensures var q := Regroup(p, 8, 5, true);
            q.Some? && Fits(q.value, 5) && Regroup(q.value, 5, 8, false) == Some(p)
  {
    hide Pow2, Number, Regroup, Shl, Fits;
    PaddedNumber(p);
    var q := Regroup(p, 8, 5, true).value;
    UnpaddedGivesBack(p, q, 5 * |q| - 8 * |p|);
  }

  lemma PaddingIsZero(n: nat, padding: nat)
    ensures Low(Shl(n, padding), padding) == 0
  {
    PartsUnique(n, 0, padding);
  }

  /** And every five-bit string that the unpadded call accepts is what the padded call gives back:
      the two are inverse bijections. */
  lemma SymbolsRoundTrip(q: Bytes)
    requires Fits(q, 5) && Regroup(q, 5, 8, false).Some?
    ensures Regroup(Regroup(q, 5, 8, false).value, 8, 5, true) == Some(q)
  {
    hide Pow2, Number, Digits, Regroup, Shl, Shr, Low;
    UnpaddedNumber(q);
    var p := Regroup(q, 5, 8, false).value;
    PaddedNumber(p);
    var q' := Regroup(p, 8, 5, true).value;
    assert |q'| == |q|;
    SameDigits(q, q', 5);
  }
}
