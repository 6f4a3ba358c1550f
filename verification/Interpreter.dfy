/** The part of tapscript execution that the escrow scripts use: 'Script execution' and 'Rules for
    signature opcodes' of BIP 342, and 'Specification' of BIP 112. */
module Interpreter {
  import opened Basics
  import opened Opcodes
  import opened Tokenizer
  import Locktime
  import ScriptNum

  /** What a script sees of the spending transaction: an uninterpreted hash, which signatures are
      valid for which x-only key, and the nSequence of the input. */
  datatype Env = Env(sha256: Bytes -> Bytes, checkSig: (Bytes, Bytes) -> bool, sequence: uint32)

  /** The top of the stack is the last element, as in a witness. */
  type Stack = seq<Bytes>

  const MAX_STACK := 1000
  const MAX_ELEMENT := 520

  function Bool(b: bool): Bytes {
    if b then [1] else []
  }

  /** Neither zero nor negative zero. */
  predicate Truthy(v: Bytes) {
    exists i :: 0 <= i < |v| && v[i] != 0 && !(i == |v| - 1 && v[i] == 0x80)
  }

  function PushItem(st: Stack, item: Bytes): Option<Stack> {
    if |st| >= MAX_STACK || |item| > MAX_ELEMENT then None else Some(st + [item])
  }

  predicate ValidSig(env: Env, key: Bytes, sig: Bytes) {
    (|sig| == 64 || |sig| == 65) && env.checkSig(key, sig)
  }

  /** An empty signature is a plain no, any other has to be valid; unknown key types accept it. */
  function SigResult(env: Env, key: Bytes, sig: Bytes): Option<bool> {
    if key == [] then None
    else if sig == [] then Some(false)
    else if |key| == 32 && !ValidSig(env, key, sig) then None
    else Some(true)
  }

  /** OP_CHECKSEQUENCEVERIFY's comparison of its operand with the input's nSequence. */
  predicate SequenceReached(operand: nat, sequence: uint32) {
    || Locktime.HasBit(operand, Locktime.DISABLE_FLAG)
    || (&& !Locktime.HasBit(sequence, Locktime.DISABLE_FLAG)
        && Locktime.HasBit(operand, Locktime.TYPE_FLAG) == Locktime.HasBit(sequence, Locktime.TYPE_FLAG)
        && operand % Locktime.SEQUENCE_MASK <= sequence % Locktime.SEQUENCE_MASK)
  }

  function StepCheckSig(env: Env, op: byte, st: Stack): Option<Stack>
    requires op == OP_CHECKSIG || op == OP_CHECKSIGVERIFY
  {
    if |st| < 2 then None
    else
      match SigResult(env, st[|st| - 1], st[|st| - 2])
      case None => None
      case Some(b) =>
        var st' := st[..|st| - 2];
        if op == OP_CHECKSIG then Some(st' + [Bool(b)]) else if b then Some(st') else None
  }

  function StepCheckSigAdd(env: Env, st: Stack): Option<Stack> {
    if |st| < 3 || |st[|st| - 2]| > 4 then None
    else
      match SigResult(env, st[|st| - 1], st[|st| - 3])
      case None => None
      case Some(b) =>
        var n := ScriptNum.Value(st[|st| - 2]);
        Some(st[..|st| - 3] + [ScriptNum.Encode(if b then n + 1 else n)])
  }

  function StepOp(env: Env, op: byte, st: Stack): Option<Stack> {
    if op == OP_CHECKSIG || op == OP_CHECKSIGVERIFY then StepCheckSig(env, op, st)
    else if op == OP_CHECKSIGADD then StepCheckSigAdd(env, st)
    else if op == OP_VERIFY then if st != [] && Truthy(Last(st)) then Some(Front(st)) else None
    else if op == OP_DROP then if st != [] then Some(Front(st)) else None
    else if op == OP_SHA256 then if st != [] then PushItem(Front(st), env.sha256(Last(st))) else None
    else if op == OP_EQUAL then
      if |st| >= 2 then Some(st[..|st| - 2] + [Bool(st[|st| - 2] == st[|st| - 1])]) else None
    else if op == OP_NUMEQUAL then
      if |st| >= 2 && |st[|st| - 2]| <= 4 && |st[|st| - 1]| <= 4 then
        Some(st[..|st| - 2] + [Bool(ScriptNum.Value(st[|st| - 2]) == ScriptNum.Value(st[|st| - 1]))])
      else None
    else if op == OP_CHECKSEQUENCEVERIFY then
      if st != [] && |Last(st)| <= 5 && ScriptNum.Value(Last(st)) >= 0
         && SequenceReached(ScriptNum.Value(Last(st)), env.sequence)
      then Some(st) else None
    else None  // an opcode outside this model
  }

  function Step(env: Env, op: byte, data: Bytes, st: Stack): Option<Stack> {
    if op <= OP_PUSHDATA4 then PushItem(st, data)
    else if OP_1 <= op <= OP_16 then PushItem(st, [op - (OP_1 - 1)])
    else StepOp(env, op, st)
  }

  function Exec(env: Env, script: Bytes, st: Stack): Option<Stack>
    decreases |script|
  {
    match NextToken(script)
    case Done => Some(st)
    case Malformed => None
    case Tok(op, data, rest) =>
      match Step(env, op, data, st)
      case None => None
      case Some(st') => Exec(env, rest, st')
  }

  /** A spend of the leaf: the stack within the limits, one true element left at the end. */
  predicate Accepts(env: Env, script: Bytes, stack: Stack) {
    && |stack| <= MAX_STACK
    && (forall item :: item in stack ==> |item| <= MAX_ELEMENT)
    && Succeeds(Exec(env, script, stack))
  }

  predicate Succeeds(result: Option<Stack>) {
    result.Some? && |result.value| == 1 && Truthy(result.value[0])
  }

  // ------------------------------------------------------------ composition

  lemma ExecToken(env: Env, script: Bytes, t: Next, st: Stack)
    requires NextToken(script) == t && t.Tok?
    ensures Exec(env, script, st) ==
            match Step(env, t.op, t.data, st) {
              case None => None
              case Some(st') => Exec(env, t.rest, st')
            }
  {
  }

  predicate AnyOp(op: byte) {
    true
  }

  /** Running a script of whole tokens and then more script is running them one after the other. */
  lemma {:induction false} ExecAppend(env: Env, a: Bytes, b: Bytes, st: Stack)
    requires Tokens(a, AnyOp)
    ensures Exec(env, a + b, st) ==
            match Exec(env, a, st) {
              case None => None
              case Some(st') => Exec(env, b, st')
            }
    decreases |a|
  {
    hide NextToken, Step;
    if NextToken(a).Done? {
      assert a == [] by { DoneIsEmpty(a); }
      assert a + b == b;
    } else {
      var t := NextToken(a);
      NextAppend(a, b);
      ExecToken(env, a, t, st);
      ExecToken(env, a + b, NextToken(a + b), st);
      if Step(env, t.op, t.data, st).Some? {
        ExecAppend(env, t.rest, b, Step(env, t.op, t.data, st).value);
      }
    }
  }

  lemma DoneIsEmpty(a: Bytes)
    requires NextToken(a).Done?
    ensures a == []
  {
  }
}
