/** One step of the Bech32 checksum on 32-bit words: the linear algebra behind it. */
module PolymodStep {

  /** a ^ b */
  function Xor(a: bv32, b: bv32): bv32 {
    a ^ b
  }

  /** (chk & 0x1ffffff) << 5 */
  function ShiftState(chk: bv32): bv32 {
    (chk & 0x1ffffff) << 5
  }

  const GEN: seq<bv32> := [0x3b6a57b2, 0x26508e6d, 0x1ea119fa, 0x3d4233dd, 0x2a1462b3]

  predicate Tap(b: bv32, i: nat)
    requires i < 5
  {
    (b >> i) & 1 == 1
  }

  /** The generators selected by the low `n` bits of `b`. */
  function Taps(b: bv32, n: nat): bv32
    requires n <= 5
  {
    if n == 0 then 0
    else if Tap(b, n - 1) then Xor(Taps(b, n - 1), GEN[n - 1]) else Taps(b, n - 1)
  }

  function Step(chk: bv32, v: bv32): bv32 {
    Xor(Xor(ShiftState(chk), v), Taps(chk >> 25, 5))
  }

  const STATE_LIMIT: bv32 := 0x4000_0000

  // ------------------------------------------------------------ exclusive or

  lemma XorAssociates(a: bv32, b: bv32, c: bv32)
    ensures Xor(Xor(a, b), c) == Xor(a, Xor(b, c))
  {
  }

  lemma XorCommutes(a: bv32, b: bv32)
    ensures Xor(a, b) == Xor(b, a)
  {
  }

  lemma XorUnit(a: bv32)
    ensures Xor(a, 0) == a && Xor(0, a) == a && Xor(a, a) == 0
  {
  }

  lemma XorCancels(a: bv32, b: bv32, c: bv32)
    requires Xor(a, b) == Xor(a, c)
    ensures b == c
  {
    assert Xor(a, Xor(a, b)) == b && Xor(a, Xor(a, c)) == c;
  }

  lemma XorBound(a: bv32, b: bv32)
    requires a < STATE_LIMIT && b < STATE_LIMIT
    ensures Xor(a, b) < STATE_LIMIT
  {
  }

  lemma XorTwice(a: bv32, b: bv32)
    ensures Xor(a, Xor(a, b)) == b
  {
  }

  /** (a + b) + (c + d) == (a + c) + (b + d) */
  lemma XorInterchange(a: bv32, b: bv32, c: bv32, d: bv32)
    ensures Xor(Xor(a, b), Xor(c, d)) == Xor(Xor(a, c), Xor(b, d))
  {
    hide Xor;
    XorAssociates(a, b, Xor(c, d));
    XorAssociates(b, c, d);
    XorCommutes(b, c);
    XorAssociates(c, b, d);
    XorAssociates(a, c, Xor(b, d));
  }

  // ------------------------------------------------------------ linearity

  lemma ShiftIsLinear(c: bv32, d: bv32)
    ensures ShiftState(Xor(c, d)) == Xor(ShiftState(c), ShiftState(d))
    ensures Xor(c, d) >> 25 == Xor(c >> 25, d >> 25)
  {
  }

  lemma TapIs(b: bv32)
    ensures Tap(b, 0) == (b & 1 == 1) && Tap(b, 1) == ((b >> 1) & 1 == 1) && Tap(b, 2) == ((b >> 2) & 1 == 1)
    ensures Tap(b, 3) == ((b >> 3) & 1 == 1) && Tap(b, 4) == ((b >> 4) & 1 == 1)
  {
  }

  lemma TapZeroIsLinear(b: bv32, d: bv32)
    ensures Xor(b, d) & 1 == 1 <==> (b & 1 == 1) != (d & 1 == 1)
  {
  }

  lemma TapOneIsLinear(b: bv32, d: bv32)
    ensures (Xor(b, d) >> 1) & 1 == 1 <==> ((b >> 1) & 1 == 1) != ((d >> 1) & 1 == 1)
  {
  }

  lemma TapTwoIsLinear(b: bv32, d: bv32)
    ensures (Xor(b, d) >> 2) & 1 == 1 <==> ((b >> 2) & 1 == 1) != ((d >> 2) & 1 == 1)
  {
  }

  lemma TapThreeIsLinear(b: bv32, d: bv32)
    ensures (Xor(b, d) >> 3) & 1 == 1 <==> ((b >> 3) & 1 == 1) != ((d >> 3) & 1 == 1)
  {
  }

  lemma TapFourIsLinear(b: bv32, d: bv32)
    ensures (Xor(b, d) >> 4) & 1 == 1 <==> ((b >> 4) & 1 == 1) != ((d >> 4) & 1 == 1)
  {
  }

  lemma TapIsLinear(b: bv32, d: bv32, i: nat)
    requires i < 5
    ensures Tap(Xor(b, d), i) <==> Tap(b, i) != Tap(d, i)
  {
    hide Tap, Xor;
    TapIs(b);
    TapIs(d);
    TapIs(Xor(b, d));
    TapZeroIsLinear(b, d);
    TapOneIsLinear(b, d);
    TapTwoIsLinear(b, d);
    TapThreeIsLinear(b, d);
    TapFourIsLinear(b, d);
  }

  lemma {:induction false} TapsAreLinear(b: bv32, d: bv32, n: nat)
    requires n <= 5
    ensures Taps(Xor(b, d), n) == Xor(Taps(b, n), Taps(d, n))
  {
    hide Xor, Tap;
    if n == 0 {
      XorUnit(0);
    } else {
      TapsAreLinear(b, d, n - 1);
      TapIsLinear(b, d, n - 1);
      var tb, td, g := Taps(b, n - 1), Taps(d, n - 1), GEN[n - 1];
      XorInterchange(tb, g, td, g);
      XorUnit(g);
      XorUnit(Xor(tb, td));
      XorAssociates(tb, td, g);
      XorAssociates(tb, g, td);
      XorCommutes(td, g);
    }
  }

  /** The step is linear over exclusive or. */
  lemma StepIsLinear(c: bv32, d: bv32, v: bv32, w: bv32)
    ensures Step(Xor(c, d), Xor(v, w)) == Xor(Step(c, v), Step(d, w))
  {
    hide Xor, ShiftState, Taps;
    ShiftIsLinear(c, d);
    TapsAreLinear(c >> 25, d >> 25, 5);
    XorInterchange(ShiftState(c), ShiftState(d), v, w);
    XorInterchange(Xor(ShiftState(c), v), Xor(ShiftState(d), w), Taps(c >> 25, 5), Taps(d >> 25, 5));
  }

  // ------------------------------------------------------------ the step, bit by bit

  function FlatStep(chk: bv32, v: bv32): bv32 {
    var b := chk >> 25;
    ((chk & 0x1ffffff) << 5) ^ v
    ^ (if b & 1 == 1 then 0x3b6a57b2 else 0)
    ^ (if (b >> 1) & 1 == 1 then 0x26508e6d else 0)
    ^ (if (b >> 2) & 1 == 1 then 0x1ea119fa else 0)
    ^ (if (b >> 3) & 1 == 1 then 0x3d4233dd else 0)
    ^ (if (b >> 4) & 1 == 1 then 0x2a1462b3 else 0)
  }

  function Pick(c: bool, g: bv32): bv32 {
    if c then g else 0
  }

  lemma TapsUnrolled(b: bv32)
    ensures Taps(b, 5) == Xor(Xor(Xor(Xor(Pick(Tap(b, 0), 0x3b6a57b2), Pick(Tap(b, 1), 0x26508e6d)),
                              Pick(Tap(b, 2), 0x1ea119fa)), Pick(Tap(b, 3), 0x3d4233dd)), Pick(Tap(b, 4), 0x2a1462b3))
  {
    hide Xor, Tap;
    XorUnit(0x3b6a57b2);
    assert Taps(b, 0) == 0;
    assert Taps(b, 1) == Pick(Tap(b, 0), 0x3b6a57b2);
    XorUnit(Taps(b, 1));
    assert Taps(b, 2) == Xor(Taps(b, 1), Pick(Tap(b, 1), 0x26508e6d));
    XorUnit(Taps(b, 2));
    assert Taps(b, 3) == Xor(Taps(b, 2), Pick(Tap(b, 2), 0x1ea119fa));
    XorUnit(Taps(b, 3));
    assert Taps(b, 4) == Xor(Taps(b, 3), Pick(Tap(b, 3), 0x3d4233dd));
    XorUnit(Taps(b, 4));
  }

  lemma StepFlat(chk: bv32, v: bv32)
    ensures Step(chk, v) == FlatStep(chk, v)
  {
    hide Taps;
    TapsUnrolled(chk >> 25);
    TapIs(chk >> 25);
  }

  lemma FlatSmall(d: bv32, v: bv32)
    requires d < 0x2000000
    ensures FlatStep(d, v) == (d << 5) ^ v
  {
  }

  lemma FlatKernel(c: bv32)
    requires c < STATE_LIMIT && FlatStep(c, 0) == 0
    ensures c == 0
  {
  }

  lemma FlatBound(c: bv32, v: bv32)
    requires v < STATE_LIMIT
    ensures FlatStep(c, v) < STATE_LIMIT
  {
  }

  /** Below 25 bits nothing is folded back: the step just shifts the symbol in. */
  lemma StepShifts(d: bv32, v: bv32)
    requires d < 0x2000000
    ensures Step(d, v) == Xor(d << 5, v)
  {
    hide Step, FlatStep;
    StepFlat(d, v);
    FlatSmall(d, v);
  }

  lemma StepBound(c: bv32, v: bv32)
    requires v < STATE_LIMIT
    ensures Step(c, v) < STATE_LIMIT
  {
    hide Step, FlatStep;
    StepFlat(c, v);
    FlatBound(c, v);
  }

  /** For a fixed symbol different 30-bit states stay different. */
  lemma StepIsInjective(c: bv32, d: bv32, v: bv32)
    requires c < STATE_LIMIT && d < STATE_LIMIT && Step(c, v) == Step(d, v)
    ensures c == d
  {
    hide Step, FlatStep, Xor;
    StepIsLinear(c, d, v, v);
    XorUnit(v);
    XorUnit(Step(c, v));
    XorBound(c, d);
    StepFlat(Xor(c, d), 0);
    FlatKernel(Xor(c, d));
    XorUnit(c);
    XorCancels(c, d, c);
  }

  /** The top five bits of a state, from the low five bits that the step leaves behind. */
  function TopBits(low: bv32): bv32 {
    (if low & 1 == 1 then 17 else 0)
    ^ (if (low >> 1) & 1 == 1 then 11 else 0)
    ^ (if (low >> 2) & 1 == 1 then 22 else 0)
    ^ (if (low >> 3) & 1 == 1 then 5 else 0)
    ^ (if (low >> 4) & 1 == 1 then 10 else 0)
  }

  lemma TopBitsClear(u: bv32)
    ensures TopBits(u) < 32 && (u ^ FlatStep(TopBits(u) << 25, 0)) & 31 == 0
  {
  }

  lemma ShiftBack(x: bv32, b: bv32)
    requires x < STATE_LIMIT && x & 31 == 0 && b < 32
    ensures (x >> 5) << 5 == x && x >> 5 < 0x2000000
    ensures b << 25 < STATE_LIMIT && Xor(b << 25, x >> 5) < STATE_LIMIT
  {
  }

  lemma XorBack(state: bv32, v: bv32, g: bv32)
    ensures Xor(g, Xor(Xor(Xor(state, v), g), v)) == state
  {
  }

  lemma LowBitsCancel(u: bv32)
    ensures TopBits(u) < 32 && Xor(u, Step(TopBits(u) << 25, 0)) & 31 == 0
  {
    hide Step, FlatStep, TopBits;
    TopBitsClear(u);
    StepFlat(TopBits(u) << 25, 0);
  }

  lemma StepJoins(b: bv32, x: bv32, v: bv32)
    requires x < STATE_LIMIT && x & 31 == 0 && b < 32
    ensures Xor(b << 25, x >> 5) < STATE_LIMIT
    ensures Step(Xor(b << 25, x >> 5), v) == Xor(Step(b << 25, 0), Xor(x, v))
  {
    hide Step, Xor;
    ShiftBack(x, b);
    StepIsLinear(b << 25, x >> 5, 0, v);
    StepShifts(x >> 5, v);
    XorUnit(v);
  }

  /** And every 30-bit state is reached, so with `StepIsInjective` the step is a bijection. */
  lemma StepIsOnto(state: bv32, v: bv32)
    requires state < STATE_LIMIT && v < STATE_LIMIT
    ensures exists c :: c < STATE_LIMIT && Step(c, v) == state
  {
    hide Step, Xor, TopBits;
    var u := Xor(state, v);
    var b := TopBits(u);
    LowBitsCancel(u);
    ShiftBack(0, b);
    StepBound(b << 25, 0);
    XorBound(state, v);
    XorBound(u, Step(b << 25, 0));
    StepJoins(b, Xor(u, Step(b << 25, 0)), v);
    XorBack(state, v, Step(b << 25, 0));
  }
}

/** The checksum of whole symbol strings (pkg/escrow/bech32.go). */
module Checksums {
  import opened Basics
  import opened PolymodStep

  /** uint32(v) */
  function Bits(v: byte): bv32 {
    (v as bv8) as bv32
  }

  function PolymodFrom(chk: bv32, values: Bytes): bv32
    decreases |values|
  {
    if values == [] then chk else PolymodFrom(Step(chk, Bits(values[0])), values[1..])
  }

  function Polymod(values: Bytes): bv32 {
    PolymodFrom(1, values)
  }

  /** bech32mPolymod */
  method Compute(values: Bytes) returns (chk: bv32)
    ensures chk == Polymod(values)
  {
    hide Bits, Xor, ShiftState, Tap;
    chk := 1;
    for k := 0 to |values|
      invariant PolymodFrom(chk, values[k..]) == Polymod(values)
    {
      var b := chk >> 25;
      ghost var before := chk;
      chk := Xor(ShiftState(chk), Bits(values[k]));
      ghost var shifted := chk;
      XorUnit(shifted);
      for i := 0 to 5
        invariant chk == Xor(shifted, Taps(b, i))
      {
        XorAssociates(shifted, Taps(b, i), GEN[i]);
        if Tap(b, i) {
          chk := Xor(chk, GEN[i]);
        }
      }
      assert chk == Step(before, Bits(values[k]));
      assert values[k..][1..] == values[k + 1..] && values[k..][0] == values[k];
    }
    assert values[|values|..] == [];
  }

  lemma {:induction false} PolymodAppend(chk: bv32, a: Bytes, b: Bytes)
    ensures PolymodFrom(chk, a + b) == PolymodFrom(PolymodFrom(chk, a), b)
    decreases |a|
  {
    hide Step, Bits;
    if a == [] {
      assert a + b == b;
    } else {
      assert (a + b)[1..] == a[1..] + b;
      PolymodAppend(Step(chk, Bits(a[0])), a[1..], b);
    }
  }

  lemma PolymodSnoc(chk: bv32, a: Bytes, v: byte)
    ensures PolymodFrom(chk, a + [v]) == Step(PolymodFrom(chk, a), Bits(v))
  {
    hide Step, Bits;
    PolymodAppend(chk, a, [v]);
    assert [v][1..] == [];
    assert PolymodFrom(PolymodFrom(chk, a), [v]) == PolymodFrom(Step(PolymodFrom(chk, a), Bits(v)), [v][1..]);
  }

  // ------------------------------------------------------------ bytes as words

  lemma BitsBound(v: byte)
    ensures Bits(v) < STATE_LIMIT
    ensures v < 32 ==> Bits(v) < 32
    ensures Bits(0) == 0
  {
  }

  /** Reading a symbol as a word loses nothing. */
  lemma ByteBack(v: int)
    requires 0 <= v < 32
    ensures (v as bv8) as int == v
  {
  }

  lemma BitsInjective(v: byte, w: byte)
    requires v < 32 && w < 32
    ensures Bits(v) == Bits(w) <==> v == w
  {
    ByteBack(v);
    ByteBack(w);
  }

  predicate Symbols(s: Bytes) {
    forall i :: 0 <= i < |s| ==> s[i] < 32
  }

  // ------------------------------------------------------------ the last six symbols

  function Zeros(n: nat): Bytes {
    seq(n, _ => 0)
  }

  /** A packed word with one more symbol: (p << 5) ^ v */
  function PackOne(p: bv32, v: bv32): bv32 {
    Xor(p << 5, v)
  }

  /** Up to six symbols packed into a word, first symbol highest. */
  function Pack(s: Bytes): bv32 {
    if s == [] then 0 else PackOne(Pack(Front(s)), Bits(Last(s)))
  }

  function Limit(n: nat): bv32
    requires n <= 6
  {
    match n
    case 0 => 1
    case 1 => 0x20
    case 2 => 0x400
    case 3 => 0x8000
    case 4 => 0x10_0000
    case 5 => 0x200_0000
    case 6 => 0x4000_0000
  }

  lemma PackOneLimit(p: bv32, v: bv32, n: nat)
    requires n <= 5 && p < Limit(n) && v < 32
    ensures PackOne(p, v) < Limit(n + 1)
    ensures p < 0x2000000
  {
    if n == 0 {
    } else if n == 1 {
    } else if n == 2 {
    } else if n == 3 {
    } else if n == 4 {
    } else {
    }
  }

  lemma PackOneInjective(p: bv32, q: bv32, v: bv32, w: bv32)
    requires p < 0x2000000 && q < 0x2000000 && v < 32 && w < 32
    requires PackOne(p, v) == PackOne(q, w)
    ensures p == q && v == w
  {
  }

  lemma PackOneSteps(p: bv32, v: bv32)
    requires p < 0x2000000
    ensures Step(p, v) == PackOne(p, v)
  {
    hide Step;
    StepShifts(p, v);
  }

  lemma SymbolBound(s: Bytes)
    requires s != [] && Symbols(s)
    ensures Symbols(Front(s)) && Bits(Last(s)) < 32 && Last(s) < 32
  {
    assert Last(s) == s[|s| - 1];
    BitsBound(Last(s));
  }

  lemma {:induction false} PackLimit(s: Bytes)
    requires Symbols(s) && |s| <= 6
    ensures Pack(s) < Limit(|s|)
  {
    hide Bits, PackOne, Limit;
    if s == [] {
      LimitZero();
    } else {
      SymbolBound(s);
      PackLimit(Front(s));
      PackOneLimit(Pack(Front(s)), Bits(Last(s)), |s| - 1);
    }
  }

  lemma LimitZero()
    ensures 0 < Limit(0)
  {
  }

  lemma PackSnoc(s: Bytes, v: byte)
    ensures Pack(s + [v]) == PackOne(Pack(s), Bits(v))
  {
    assert Front(s + [v]) == s;
  }

  /** By linearity, feeding up to six symbols is feeding zeros and adding the packed symbols. */
  lemma {:induction false} Absorb(chk: bv32, s: Bytes)
    requires Symbols(s) && |s| <= 6
    ensures PolymodFrom(chk, s) == Xor(PolymodFrom(chk, Zeros(|s|)), Pack(s))
  {
    hide Step, Bits, Xor, PackOne, Limit;
    if s == [] {
      XorUnit(chk);
    } else {
      var v, front := Last(s), Front(s);
      var rest, packed := PolymodFrom(chk, Zeros(|front|)), Pack(front);
      assert s == front + [v] && Zeros(|s|) == Zeros(|front|) + [0];
      SymbolBound(s);
      Absorb(chk, front);
      PolymodSnoc(chk, front, v);
      PolymodSnoc(chk, Zeros(|front|), 0);
      PackLimit(front);
      BitsBound(v);
      PackOneLimit(packed, Bits(v), |front|);
      StepIsLinear(rest, packed, 0, Bits(v));
      XorUnit(Bits(v));
      PackOneSteps(packed, Bits(v));
    }
  }

  lemma PackLast(s: Bytes)
    requires s != [] && Symbols(s) && |s| <= 6
    ensures Pack(s) == PackOne(Pack(Front(s)), Bits(Last(s)))
    ensures Symbols(Front(s)) && Pack(Front(s)) < 0x2000000 && Bits(Last(s)) < 32
  {
    hide Bits, PackOne, Limit;
    SymbolBound(s);
    PackLimit(Front(s));
    PackOneLimit(Pack(Front(s)), Bits(Last(s)), |s| - 1);
  }

  lemma {:induction false} PackInjective(s: Bytes, t: Bytes)
    requires Symbols(s) && Symbols(t) && |s| == |t| <= 6 && Pack(s) == Pack(t)
    ensures s == t
  {
    hide Bits, PackOne, Limit, Pack;
    if s != [] {
      PackLast(s);
      PackLast(t);
      PackOneInjective(Pack(Front(s)), Pack(Front(t)), Bits(Last(s)), Bits(Last(t)));
      SymbolBound(s);
      SymbolBound(t);
      BitsInjective(Last(s), Last(t));
      PackInjective(Front(s), Front(t));
      assert s == Front(s) + [Last(s)] && t == Front(t) + [Last(t)];
    }
  }

  // ------------------------------------------------------------ checksum

  function Symbol(word: bv32): (s: byte)
    ensures s < 32 && Bits(s) == word & 31
  {
    SymbolBits(word & 31);
    (word & 31) as int
  }

  lemma SymbolBits(w: bv32)
    requires w < 32
    ensures (w as int) < 32 && Bits(w as int) == w
  {
  }

  /** word >> k */
  function DownShift(word: bv32, k: nat): bv32
    requires k <= 25
  {
    word >> k
  }

  lemma DownShiftIs(word: bv32)
    ensures DownShift(word, 25) == word >> 25 && DownShift(word, 20) == word >> 20 && DownShift(word, 15) == word >> 15
    ensures DownShift(word, 10) == word >> 10 && DownShift(word, 5) == word >> 5
  {
  }

  lemma DownShiftByNone(word: bv32)
    ensures DownShift(word, 0) == word
  {
  }

  /** The six checksum symbols of bech32mEncode, taken off the word from the top. */
  function ChecksumSymbols(word: bv32): (s: Bytes)
    ensures |s| == 6 && Symbols(s)
  {
    [Symbol(DownShift(word, 25)), Symbol(DownShift(word, 20)), Symbol(DownShift(word, 15)),
     Symbol(DownShift(word, 10)), Symbol(DownShift(word, 5)), Symbol(DownShift(word, 0))]
  }

  lemma Reassemble(w: bv32)
    requires w < STATE_LIMIT
    ensures PackOne(PackOne(PackOne(PackOne(PackOne(PackOne(0, (w >> 25) & 31), (w >> 20) & 31), (w >> 15) & 31),
                                    (w >> 10) & 31), (w >> 5) & 31), w & 31) == w
  {
  }

  lemma PackSix(s: Bytes)
    requires |s| == 6
    ensures Pack(s) == PackOne(PackOne(PackOne(PackOne(PackOne(PackOne(0, Bits(s[0])), Bits(s[1])), Bits(s[2])),
                                               Bits(s[3])), Bits(s[4])), Bits(s[5]))
  {
    hide Bits, PackOne, Pack;
    PackNone();
    PackPrefix(s, 5);
    PackPrefix(s, 4);
    PackPrefix(s, 3);
    PackPrefix(s, 2);
    PackPrefix(s, 1);
    PackPrefix(s, 0);
    assert s[..6] == s && s[..0] == [];
  }

  lemma PackNone()
    ensures Pack([]) == 0
  {
  }

  lemma PackPrefix(s: Bytes, n: nat)
    requires n < |s|
    ensures Pack(s[..n + 1]) == PackOne(Pack(s[..n]), Bits(s[n]))
  {
    hide Bits, PackOne;
    assert s[..n + 1] == s[..n] + [s[n]];
    PackSnoc(s[..n], s[n]);
  }

  lemma PackChecksum(word: bv32)
    requires word < STATE_LIMIT
    ensures Pack(ChecksumSymbols(word)) == word
  {
    hide Bits, Symbol, PackOne, Pack, DownShift;
    DownShiftIs(word);
    DownShiftByNone(word);
    PackSix(ChecksumSymbols(word));
    Reassemble(word);
  }

  lemma {:induction false} StateBound(chk: bv32, values: Bytes)
    requires chk < STATE_LIMIT
    ensures PolymodFrom(chk, values) < STATE_LIMIT
    decreases |values|
  {
    hide Step, Bits;
    if values != [] {
      BitsBound(values[0]);
      StepBound(chk, Bits(values[0]));
      StateBound(Step(chk, Bits(values[0])), values[1..]);
    }
  }

  /** Whatever comes before, the six checksum symbols drive the checksum to the wanted constant. */
  lemma ChecksumCloses(values: Bytes, target: bv32)
    requires target < STATE_LIMIT
    ensures Polymod(values + ChecksumSymbols(Xor(Polymod(values + Zeros(6)), target))) == target
  {
    hide Step, Bits, Pack, ChecksumSymbols, Xor;
    var open := Polymod(values + Zeros(6));
    var word := Xor(open, target);
    var sum := ChecksumSymbols(word);
    PolymodAppend(1, values, Zeros(6));
    PolymodAppend(1, values, sum);
    StateBound(1, values + Zeros(6));
    XorBound(open, target);
    ChecksumIsSymbols(word);
    Absorb(PolymodFrom(1, values), sum);
    PackChecksum(word);
    XorTwice(open, target);
  }

  /** Symbol `i` is the word shifted down by 5 * (5 - i) bits. */
  lemma ChecksumAt(word: bv32, i: nat)
    requires i < 6
    ensures ChecksumSymbols(word)[i] == Symbol(DownShift(word, 5 * (5 - i)))
  {
    hide Symbol, DownShift;
  }

  lemma ChecksumIsSymbols(word: bv32)
    ensures |ChecksumSymbols(word)| == 6 && Symbols(ChecksumSymbols(word))
  {
  }

  // ------------------------------------------------------------ error detection

  lemma {:induction false} PolymodIsInjective(c: bv32, d: bv32, values: Bytes)
    requires c < STATE_LIMIT && d < STATE_LIMIT && PolymodFrom(c, values) == PolymodFrom(d, values)
    ensures c == d
    decreases |values|
  {
    hide Step, Bits;
    if values != [] {
      var v := Bits(values[0]);
      BitsBound(values[0]);
      StepBound(c, v);
      StepBound(d, v);
      PolymodIsInjective(Step(c, v), Step(d, v), values[1..]);
      StepIsInjective(c, d, v);
    }
  }

  /** Two strings of any length that differ, but only inside six consecutive symbols, never have the
      same checksum. */
  lemma BurstsAreDetected(before: Bytes, s: Bytes, t: Bytes, after: Bytes)
    requires |s| == |t| <= 6 && Symbols(s) && Symbols(t)
    ensures Polymod(before + s + after) == Polymod(before + t + after) <==> s == t
  {
    hide Step, Bits, Xor, Pack;
    if Polymod(before + s + after) == Polymod(before + t + after) {
      var chk := Polymod(before);
      PolymodAppend(1, before + s, after);
      PolymodAppend(1, before + t, after);
      PolymodAppend(1, before, s);
      PolymodAppend(1, before, t);
      StateBound(1, before + s);
      StateBound(1, before + t);
      PolymodIsInjective(Polymod(before + s), Polymod(before + t), after);
      Absorb(chk, s);
      Absorb(chk, t);
      XorCancels(PolymodFrom(chk, Zeros(|s|)), Pack(s), Pack(t));
      PackInjective(s, t);
    }
  }
}
