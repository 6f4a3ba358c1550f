/** Relative locktimes and their BIP 68 sequence numbers (internal/script/locktime.go). */
module Locktime {
  import opened Basics
  import opened Opcodes
  import ScriptNum

  datatype LocktimeType = Second | Block

  datatype RelativeLocktime = RelativeLocktime(kind: LocktimeType, value: uint32)

  const SEQUENCE_MASK := 0x1_0000
  const TYPE_FLAG := 0x40_0000
  const GRANULARITY := 512
  const SECONDS_MAX := 0xffff * 512
  const DISABLE_FLAG := 0x8000_0000

  /** Bit test on the two's complement form of any integer: `flag` is a power of two. */
  predicate HasBit(x: int, flag: int)
    requires flag > 0
  {
    (x / flag) % 2 == 1
  }

  function BIP68Sequence(locktime: RelativeLocktime): Result<uint32> {
    if locktime.kind == Second then
      if locktime.value > SECONDS_MAX || locktime.value % GRANULARITY != 0 then Err
      else Ok(TYPE_FLAG + locktime.value / GRANULARITY)
    else Ok(locktime.value)
  }

  function DecodeSequence(sequence: Bytes): Result<RelativeLocktime> {
    match ScriptNum.Decode(sequence)
    case Err => Err
    case Ok(raw) =>
      // opcode bytes OP_1..OP_16 stand for 1..16, whatever put them here
      var number := if OP_1 <= raw <= OP_16 then raw - (OP_1 - 1) else raw;
      if HasBit(number, DISABLE_FLAG) then Err
      else if HasBit(number, TYPE_FLAG) then
        Ok(RelativeLocktime(Second, (number % SEQUENCE_MASK) * GRANULARITY))
      else Ok(RelativeLocktime(Block, number % 0x1_0000_0000))
  }

  /** The bytes the CSV decoder hands to `DecodeSequence` after reading the push of `n`. */
  function SequenceBytes(n: uint32): Bytes {
    if n == 0 then [OP_0] else if n <= 16 then [OP_1 - 1 + n] else ScriptNum.Encode(n)
  }

  /** Which locktimes come back unchanged: a test on the value alone. */
  predicate SurvivesCSV(locktime: RelativeLocktime) {
    if locktime.kind == Second then
      locktime.value <= SECONDS_MAX && locktime.value % GRANULARITY == 0
    else
      && locktime.value != 0
      && !(OP_1 <= locktime.value <= OP_16)
      && !HasBit(locktime.value, TYPE_FLAG)
      && !HasBit(locktime.value, DISABLE_FLAG)
  }

  /** What the decoder reads back from an encoded sequence, in every case. */
  lemma DecodeEncodedSequence(n: uint32)
    ensures n == 0 ==> DecodeSequence(SequenceBytes(n)) == Err
    ensures n > 0 ==>
      var seen := if OP_1 <= n <= OP_16 then n - (OP_1 - 1) else n;
      DecodeSequence(SequenceBytes(n)) ==
        if HasBit(seen, DISABLE_FLAG) then Err
        else if HasBit(seen, TYPE_FLAG) then Ok(RelativeLocktime(Second, (seen % SEQUENCE_MASK) * GRANULARITY))
        else Ok(RelativeLocktime(Block, seen))
  {
    if n == 0 {
    } else if n <= 16 {
      assert ScriptNum.Value([OP_1 - 1 + n]) == OP_1 - 1 + n;
    } else {
      hide HasBit, ScriptNum.Decode, SequenceBytes;
      LargeSequence(n);
    }
  }

  lemma LargeSequence(n: uint32)
    requires n > 16
    ensures SequenceBytes(n) == ScriptNum.Encode(n) && ScriptNum.Decode(SequenceBytes(n)) == Ok(n)
  {
    hide ScriptNum.Encode, ScriptNum.Value, ScriptNum.Minimal;
    ScriptNum.EncodeDecode(n);
  }

  /** The exact domain of the locktime round trip through a CSV script. */
  lemma LocktimeRoundTrip(locktime: RelativeLocktime)
    ensures SurvivesCSV(locktime) <==>
            && BIP68Sequence(locktime).Ok?
            && DecodeSequence(SequenceBytes(BIP68Sequence(locktime).value)) == Ok(locktime)
  {
    if BIP68Sequence(locktime).Ok? {
      var n := BIP68Sequence(locktime).value;
      DecodeEncodedSequence(n);
      if locktime.kind == Second {
        var units := locktime.value / GRANULARITY;
        assert units <= 0xffff && n == TYPE_FLAG + units;
        assert n / TYPE_FLAG == 1 && n / DISABLE_FLAG == 0;
        assert n % SEQUENCE_MASK == units;
      }
    }
  }
}
