/** Opcodes used by the escrow scripts. */
module Opcodes {
  import opened Basics

  const OP_0: byte := 0x00
  const OP_DATA_32: byte := 0x20
  const OP_DATA_75: byte := 0x4b
  const OP_PUSHDATA1: byte := 0x4c
  const OP_PUSHDATA2: byte := 0x4d
  const OP_PUSHDATA4: byte := 0x4e
  const OP_1: byte := 0x51
  const OP_16: byte := 0x60
  const OP_VERIFY: byte := 0x69
  const OP_DROP: byte := 0x75
  const OP_EQUAL: byte := 0x87
  const OP_NUMEQUAL: byte := 0x9c
  const OP_SHA256: byte := 0xa8
  const OP_CHECKSIG: byte := 0xac
  const OP_CHECKSIGVERIFY: byte := 0xad
  const OP_CHECKSEQUENCEVERIFY: byte := 0xb2
  const OP_CHECKSIGADD: byte := 0xba

  const MAX_SCRIPT_SIZE := 10000

  predicate IsSmallInt(op: byte) {
    op == OP_0 || OP_1 <= op <= OP_16
  }

  /** AsSmallInt is also called on opcodes that are not small integers, so it is total here. */
  function AsSmallInt(op: byte): int {
    if op == OP_0 then 0 else op - (OP_1 - 1)
  }

  predicate IsDirectPush(op: byte) {
    1 <= op <= OP_DATA_75
  }
}

/** The script tokenizer, as a function from the unread part of a script to its first token. */
module Tokenizer {
  import opened Basics
  import opened Opcodes
  import ScriptNum

  /** `Malformed` is the tokenizer's error state: a push that runs past the end of the script. */
  datatype Next = Done | Malformed | Tok(op: byte, data: Bytes, rest: Bytes)

  function LittleEndian(b: Bytes): nat {
    if b == [] then 0 else b[0] + 256 * LittleEndian(b[1..])
  }

  function NextToken(script: Bytes): (t: Next)
    ensures t.Tok? ==> |t.rest| < |script| && t.rest == script[|script| - |t.rest|..] && t.op == script[0]
    ensures t.Malformed? ==> script != []
  {
    if script == [] then Done
    else
      var op := script[0];
      if IsDirectPush(op) then
        if |script| < 1 + op then Malformed else Tok(op, script[1..1 + op], script[1 + op..])
      else if OP_PUSHDATA1 <= op <= OP_PUSHDATA4 then
        var width := if op == OP_PUSHDATA1 then 1 else if op == OP_PUSHDATA2 then 2 else 4;
        if |script| < 1 + width then Malformed
        else
          var size := LittleEndian(script[1..1 + width]);
          if size >= 0x8000_0000 || |script| < 1 + width + size then Malformed
          else Tok(op, script[1 + width..1 + width + size], script[1 + width + size..])
      else Tok(op, [], script[1..])
  }

  /** A direct push of `data`. */
  function Push(data: Bytes): Bytes
    requires 1 <= |data| <= 75
  {
    [|data|] + data
  }

  /** AddInt64 of a non-negative number. */
  function PushInt(n: nat): Bytes
    requires n < 0x1_0000_0000
  {
    if n == 0 then [OP_0]
    else if n <= 16 then [OP_1 - 1 + n]
    else
      ScriptNum.EncodeShort(n);
      Push(ScriptNum.Encode(n))
  }

  lemma NextPush(data: Bytes, rest: Bytes)
    requires 1 <= |data| <= 75
    ensures NextToken(Push(data) + rest) == Tok(|data|, data, rest)
  {
    var s := Push(data) + rest;
    assert s[1..1 + |data|] == data && s[1 + |data|..] == rest;
  }

  lemma NextOp(op: byte, rest: Bytes)
    requires op == OP_0 || op > OP_PUSHDATA4
    ensures NextToken([op] + rest) == Tok(op, [], rest)
  {
    assert ([op] + rest)[1..] == rest;
  }

  lemma NextPushInt(n: nat, rest: Bytes)
    requires n < 0x1_0000_0000
    ensures n <= 16 ==> NextToken(PushInt(n) + rest) == Tok(if n == 0 then OP_0 else OP_1 - 1 + n, [], rest)
    ensures n > 16 ==> 1 <= |ScriptNum.Encode(n)| <= 5
    ensures n > 16 ==> NextToken(PushInt(n) + rest) == Tok(|ScriptNum.Encode(n)|, ScriptNum.Encode(n), rest)
  {
    if n <= 16 {
      NextOp(if n == 0 then OP_0 else OP_1 - 1 + n, rest);
    } else {
      ScriptNum.EncodeShort(n);
      NextPush(ScriptNum.Encode(n), rest);
    }
  }

  /** A prefix of whole tokens, read one after the other, none of them with an excluded opcode. */
  predicate Tokens(script: Bytes, allowed: byte -> bool)
    decreases |script|
  {
    match NextToken(script)
    case Done => true
    case Malformed => false
    case Tok(op, _, rest) => allowed(op) && Tokens(rest, allowed)
  }

  lemma SliceAppend(s: Bytes, more: Bytes, i: nat, j: nat)
    requires i <= j <= |s|
    ensures (s + more)[i..j] == s[i..j] && (s + more)[j..] == s[j..] + more
  {
  }

  /** A complete token is read the same way whatever follows the script. */
  lemma NextAppend(script: Bytes, more: Bytes)
    requires NextToken(script).Tok?
    ensures NextToken(script + more) ==
            NextToken(script).(rest := NextToken(script).rest + more)
  {
    var op := script[0];
    if IsDirectPush(op) {
      SliceAppend(script, more, 1, 1 + op);
    } else if OP_PUSHDATA1 <= op <= OP_PUSHDATA4 {
      var width := if op == OP_PUSHDATA1 then 1 else if op == OP_PUSHDATA2 then 2 else 4;
      SliceAppend(script, more, 1, 1 + width);
      SliceAppend(script, more, 1 + width, 1 + width + LittleEndian(script[1..1 + width]));
    } else {
      SliceAppend(script, more, 1, 1);
    }
  }

  lemma {:induction false} TokensAppend(a: Bytes, b: Bytes, allowed: byte -> bool)
    requires Tokens(a, allowed)
    ensures Tokens(a + b, allowed) == Tokens(b, allowed)
    decreases |a|
  {
    match NextToken(a)
    case Done => assert a + b == b;
    case Tok(_, _, rest) =>
      NextAppend(a, b);
      TokensAppend(rest, b, allowed);
  }
}
