/** The closures as the program runs them: objects that build, decode and reset themselves
    (internal/script/closure.go). Every method is tied to the functions of ClosureSpec. */
module Closures {
  import opened Basics
  import opened Opcodes
  import opened Tokenizer
  import opened Locktime
  import opened ClosureSpec
  import ScriptNum

  function Append(state: Result<Bytes>, piece: Bytes): Result<Bytes> {
    match state
    case Err => Err
    case Ok(script) => Limited(script + piece)
  }

  /** txscript.ScriptBuilder: once a piece does not fit, every later piece is ignored. */
  class ScriptBuilder {
    var script: Bytes
    var failed: bool

    function State(): Result<Bytes>
      reads this
    {
      if failed then Err else Ok(script)
    }

    constructor ()
      ensures State() == Ok([])
    {
      script, failed := [], false;
    }

    method AddOps(ops: Bytes)
      modifies this
      ensures State() == Append(old(State()), ops)
    {
      if failed {
        return;
      }
      if |script| + |ops| > MAX_SCRIPT_SIZE {
        failed := true;
      } else {
        script := script + ops;
      }
    }

    method AddOp(op: byte)
      modifies this
      ensures State() == Append(old(State()), [op])
    {
      AddOps([op]);
    }

    /** Data of two to 75 bytes; single bytes have opcodes of their own and are not used here. */
    method AddData(data: Bytes)
      requires 2 <= |data| <= 75
      modifies this
      ensures State() == Append(old(State()), Push(data))
    {
      AddOps(Push(data));
    }

    method AddInt64(n: nat)
      requires !failed ==> n < 0x1_0000_0000
      modifies this
      ensures old(failed) ==> State() == Err
      ensures !old(failed) ==> State() == Append(old(State()), PushInt(n))
    {
      if !failed {
        AddOps(PushInt(n));
      }
    }
  }

  // ------------------------------------------------------------ lemmas

  lemma AppendLimited(done: Bytes, piece: Bytes)
    ensures Append(Limited(done), piece) == Limited(done + piece)
  {
  }

  lemma {:induction false} ChainSnoc(keys: seq<PubKey>, op: byte, n: nat)
    requires n < |keys|
    ensures Chain(keys[..n + 1], op) == Chain(keys[..n], op) + KeyOp(keys[n], op)
  {
    if n == 0 {
      assert keys[..1] == [keys[0]] && keys[..1][1..] == [];
    } else {
      ChainSnoc(keys[1..], op, n - 1);
      assert keys[1..][..n] == keys[..n + 1][1..] && keys[1..][..n - 1] == keys[..n][1..];
    }
  }

  lemma {:induction false} ChainLength(keys: seq<PubKey>, op: byte)
    ensures |Chain(keys, op)| == 34 * |keys|
  {
    if keys != [] {
      ChainLength(keys[1..], op);
    }
  }

  /** The CHECKSIGADD script up to key `n`, before the count. */
  function AddPrefix(keys: seq<PubKey>, n: nat): Bytes
    requires n <= |keys|
  {
    if n == 0 then [] else KeyOp(keys[0], OP_CHECKSIG) + Chain(keys[1..n], OP_CHECKSIGADD)
  }

  lemma AddPrefixNone(keys: seq<PubKey>)
    ensures AddPrefix(keys, 0) == []
  {
  }

  lemma AddPrefixStep(keys: seq<PubKey>, n: nat)
    requires n < |keys|
    ensures AddPrefix(keys, n + 1)
         == AddPrefix(keys, n) + Push(keys[n].x) + [if n == 0 then OP_CHECKSIG else OP_CHECKSIGADD]
  {
    if n > 0 {
      ChainSnoc(keys[1..], OP_CHECKSIGADD, n - 1);
      assert keys[1..][..n] == keys[1..n + 1] && keys[1..][..n - 1] == keys[1..n];
      SnocKey(AddPrefix(keys, n), keys[n], OP_CHECKSIGADD);
    } else {
      SnocKey([], keys[0], OP_CHECKSIG);
    }
  }

  lemma AddPrefixWhole(keys: seq<PubKey>)
    ensures |keys| <= MAX_SCRIPT_SIZE ==>
              MultisigBytes(Multisig(keys, ChecksigAdd)) == AddPrefix(keys, |keys|) + PushInt(|keys|) + [OP_NUMEQUAL]
    ensures |AddPrefix(keys, |keys|)| == 34 * |keys|
  {
    if keys != [] {
      assert keys[1..|keys|] == keys[1..];
      ChainLength(keys[1..], OP_CHECKSIGADD);
    }
  }

  lemma AppendToken(done: Bytes, op: byte, data: Bytes, more: Bytes)
    ensures done + ([op] + data + more) == (if |data| > 0 then done + [op] + data else done + [op]) + more
  {
  }

  lemma SnocKey(done: Bytes, key: PubKey, op: byte)
    ensures done + Push(key.x) + [op] == done + KeyOp(key, op)
  {
  }

  // ------------------------------------------------------------ multisig

  /** The fields of a multisig closure after decodeChecksig or decodeChecksigAdd ran on it: a
      failed scan leaves them alone, a failed rebuild clears them. */
  function AfterScan(scan: Outcome<seq<PubKey>>, kind: MultisigType, script: Bytes, before: Multisig): Multisig {
    match scan
    case Valid(keys) =>
      if Rebuilt(Multisig(keys, kind), script).Valid? then Multisig(keys, kind) else Multisig([], Checksig)
    case _ => before
  }

  function AfterDecode(curve: Curve, script: Bytes, before: Multisig): Multisig {
    if script == [] then before
    else
      var first := AfterScan(ScanChecksig(curve, script, []), Checksig, script, before);
      if DecodeChecksig(curve, script) != Mismatch then first
      else AfterScan(ScanChecksigAdd(curve, script, []), ChecksigAdd, script, first)
  }

  lemma AfterDecodeValid(curve: Curve, script: Bytes, before: Multisig)
    ensures DecodeMultisig(curve, script).Valid? ==>
              AfterDecode(curve, script, before) == DecodeMultisig(curve, script).value
  {
    hide ScanChecksig, ScanChecksigAdd, MultisigScript;
  }

  /** A closure object never ends up with keys that do not compile to the script it was given: after a
      rejected script it is as it was or empty, and it is as it was if no scan got to the end. */
  lemma AfterDecodeRejected(curve: Curve, script: Bytes, before: Multisig)
    requires !DecodeMultisig(curve, script).Valid?
    ensures AfterDecode(curve, script, before) == before || AfterDecode(curve, script, before) == Multisig([], Checksig)
    ensures !ScanChecksig(curve, script, []).Valid? && !ScanChecksigAdd(curve, script, []).Valid? ==>
              AfterDecode(curve, script, before) == before
  {
    hide ScanChecksig, ScanChecksigAdd, MultisigScript;
  }

  /** The stack a multisig closure asks for: one signature per key, last key first. */
  function Signatures(keys: seq<PubKey>, sigs: map<Bytes, Bytes>): (stack: seq<Bytes>)
    requires forall key :: key in keys ==> key.x in sigs
    ensures |stack| == |keys|
    ensures forall i :: 0 <= i < |keys| ==> stack[i] == sigs[keys[|keys| - 1 - i].x]
  {
    seq(|keys|, i requires 0 <= i < |keys| => sigs[keys[|keys| - 1 - i].x])
  }

  function WitnessStack(keys: seq<PubKey>, script: Result<Bytes>, controlBlock: Bytes, sigs: map<Bytes, Bytes>)
    : Result<seq<Bytes>>
  {
    if script.Err? || exists key :: key in keys && key.x !in sigs then Err
    else Ok(Signatures(keys, sigs) + [script.value, controlBlock])
  }

  class MultisigClosure {
    var pubKeys: seq<PubKey>
    var kind: MultisigType

    ghost function Fields(): Multisig
      reads this
    {
      Multisig(pubKeys, kind)
    }

    constructor (pubKeys: seq<PubKey>, kind: MultisigType)
      ensures Fields() == Multisig(pubKeys, kind)
    {
      this.pubKeys, this.kind := pubKeys, kind;
    }

    method Script() returns (r: Result<Bytes>)
      ensures r == MultisigScript(Fields())
    {
      var b := new ScriptBuilder();
      match kind {
        case Checksig => ScriptChecksig(b);
        case ChecksigAdd => ScriptChecksigAdd(b);
      }
      r := b.State();
      ChainLength(pubKeys, OP_CHECKSIGADD);
      if pubKeys != [] {
        ChainLength(pubKeys[1..], OP_CHECKSIGADD);
        ChainLength(Front(pubKeys), OP_CHECKSIGVERIFY);
      }
    }

    /** The CHECKSIG case of Script. */
    method ScriptChecksig(b: ScriptBuilder)
      requires b.State() == Ok([])
      modifies b
      ensures b.State() == Limited(if pubKeys == [] then []
                                   else Chain(Front(pubKeys), OP_CHECKSIGVERIFY) + KeyOp(Last(pubKeys), OP_CHECKSIG))
    {
      var n := |pubKeys|;
      var i := 0;
      ghost var done: Bytes := [];
      while i < n
        invariant 0 <= i <= n
        invariant b.State() == Limited(done)
        invariant i < n ==> done == Chain(pubKeys[..i], OP_CHECKSIGVERIFY)
        invariant i == n ==> done == if n == 0 then []
                                     else Chain(Front(pubKeys), OP_CHECKSIGVERIFY) + KeyOp(Last(pubKeys), OP_CHECKSIG)
      {
        var op := if i == n - 1 then OP_CHECKSIG else OP_CHECKSIGVERIFY;
        b.AddData(pubKeys[i].x);
        b.AddOp(op);
        AppendLimited(done, Push(pubKeys[i].x));
        AppendLimited(done + Push(pubKeys[i].x), [op]);
        SnocKey(done, pubKeys[i], op);
        ChainSnoc(pubKeys, OP_CHECKSIGVERIFY, i);
        done := done + KeyOp(pubKeys[i], op);
        i := i + 1;
      }
    }

    /** The CHECKSIGADD case of Script. */
    method ScriptChecksigAdd(b: ScriptBuilder)
      requires b.State() == Ok([])
      modifies b
      ensures b.State() == if |pubKeys| > MAX_SCRIPT_SIZE then Err
                           else Limited(MultisigBytes(Multisig(pubKeys, ChecksigAdd)))
    {
      hide Push, AddPrefix;
      var n := |pubKeys|;
      var i := 0;
      AddPrefixWhole(pubKeys);
      assert AddPrefix(pubKeys, 0) == [] by { AddPrefixNone(pubKeys); }
      while i < n
        invariant 0 <= i <= n
        invariant b.State() == Limited(AddPrefix(pubKeys, i))
      {
        var op := if i == 0 then OP_CHECKSIG else OP_CHECKSIGADD;
        b.AddData(pubKeys[i].x);
        b.AddOp(op);
        AppendLimited(AddPrefix(pubKeys, i), Push(pubKeys[i].x));
        AppendLimited(AddPrefix(pubKeys, i) + Push(pubKeys[i].x), [op]);
        AddPrefixStep(pubKeys, i);
        i := i + 1;
      }
      b.AddInt64(n);
      b.AddOp(OP_NUMEQUAL);
      if n <= MAX_SCRIPT_SIZE {
        AppendLimited(AddPrefix(pubKeys, n), PushInt(n));
        AppendLimited(AddPrefix(pubKeys, n) + PushInt(n), [OP_NUMEQUAL]);
      }
    }

    method Decode(curve: Curve, script: Bytes) returns (valid: bool, err: bool)
      modifies this
      ensures valid == DecodeMultisig(curve, script).Valid?
      ensures err == DecodeMultisig(curve, script).Error?
      ensures Fields() == AfterDecode(curve, script, old(Fields()))
    {
      if |script| == 0 {
        return false, true;
      }
      valid, err := DecodeChecksig(curve, script);
      if err {
        return false, true;
      }
      if valid {
        return true, false;
      }
      valid, err := DecodeChecksigAdd(curve, script);
    }

    method DecodeChecksig(curve: Curve, script: Bytes) returns (valid: bool, err: bool)
      requires script != []
      modifies this
      ensures valid == ClosureSpec.DecodeChecksig(curve, script).Valid?
      ensures err == ClosureSpec.DecodeChecksig(curve, script).Error?
      ensures Fields() == AfterScan(ScanChecksig(curve, script, []), Checksig, script, old(Fields()))
    {
      var keys: seq<PubKey> := [];
      var t := NextToken(script);
      var op := OP_0;
      ghost var rest := script;
      while t.Tok?
        invariant t == NextToken(rest)
        invariant ScanChecksig(curve, script, []) == ScanChecksig(curve, rest, keys)
        invariant Fields() == old(Fields())
        invariant op != OP_CHECKSIG
        decreases |rest|
      {
        if t.op != OP_DATA_32 {
          return false, false;
        }
        if !curve(t.data) {
          return false, true;
        }
        keys := keys + [LiftKey(t.data)];
        t := NextToken(t.rest);
        if !t.Tok? {
          return false, false;
        }
        op := t.op;
        if op == OP_CHECKSIGVERIFY {
          rest := t.rest;
          t := NextToken(t.rest);
        } else {
          break;
        }
      }
      if t.Malformed? || op != OP_CHECKSIG {
        return false, false;
      }
      if |keys| == 0 {
        return false, false;
      }
      valid, err := Rebuild(keys, Checksig, script);
    }

    method DecodeChecksigAdd(curve: Curve, script: Bytes) returns (valid: bool, err: bool)
      requires script != []
      modifies this
      ensures valid == ClosureSpec.DecodeChecksigAdd(curve, script).Valid?
      ensures err == ClosureSpec.DecodeChecksigAdd(curve, script).Error?
      ensures Fields() == AfterScan(ScanChecksigAdd(curve, script, []), ChecksigAdd, script, old(Fields()))
    {
      var keys: seq<PubKey> := [];
      var t := NextToken(script);
      var op := OP_0;
      ghost var rest := script;
      while t.Tok?
        invariant t == NextToken(rest)
        invariant ScanChecksigAdd(curve, script, []) == ScanChecksigAdd(curve, rest, keys)
        invariant Fields() == old(Fields())
        decreases |rest|
      {
        op := t.op;
        if IsSmallInt(op) {
          break;
        }
        if op != OP_DATA_32 {
          return false, false;
        }
        if !curve(t.data) {
          return false, true;
        }
        keys := keys + [LiftKey(t.data)];
        t := NextToken(t.rest);
        if !t.Tok? {
          return false, false;
        }
        op := t.op;
        if op == OP_CHECKSIGADD || op == OP_CHECKSIG {
          rest := t.rest;
          t := NextToken(t.rest);
        } else {
          return false, false;
        }
      }
      // at the end of the script AsSmallInt is applied to whatever opcode came last
      if t.Malformed? || |keys| != AsSmallInt(op) {
        return false, false;
      }
      t := if t.Tok? then NextToken(t.rest) else Done;
      if !t.Tok? || t.op != OP_NUMEQUAL {
        return false, false;
      }
      valid, err := Rebuild(keys, ChecksigAdd, script);
    }

    /** The common end of both scans: set the fields, rebuild, compare, or clear the fields. */
    method Rebuild(keys: seq<PubKey>, kind: MultisigType, script: Bytes) returns (valid: bool, err: bool)
      modifies this
      ensures valid == Rebuilt(Multisig(keys, kind), script).Valid?
      ensures err == Rebuilt(Multisig(keys, kind), script).Error?
      ensures Fields() == AfterScan(Valid(keys), kind, script, old(Fields()))
    {
      this.pubKeys, this.kind := keys, kind;
      var rebuilt := Script();
      if rebuilt.Err? || rebuilt.value != script {
        this.pubKeys, this.kind := [], Checksig;
        return false, rebuilt.Err?;
      }
      return true, false;
    }

    /** The witness loop runs over the keys from last to first. */
    method Witness(controlBlock: Bytes, signatures: map<Bytes, Bytes>) returns (r: Result<seq<Bytes>>)
      ensures r == WitnessStack(pubKeys, MultisigScript(Fields()), controlBlock, signatures)
    {
      var stack: seq<Bytes> := [];
      var i := |pubKeys|;
      while i > 0
        invariant 0 <= i <= |pubKeys|
        invariant |stack| == |pubKeys| - i
        invariant forall k :: i <= k < |pubKeys| ==> pubKeys[k].x in signatures
        invariant forall k :: 0 <= k < |stack| ==> stack[k] == signatures[pubKeys[|pubKeys| - 1 - k].x]
      {
        i := i - 1;
        if pubKeys[i].x !in signatures {
          assert pubKeys[i] in pubKeys;
          return Err;
        }
        stack := stack + [signatures[pubKeys[i].x]];
      }
      var script := Script();
      if script.Err? {
        return Err;
      }
      assert forall key :: key in pubKeys ==> key.x in signatures;
      assert stack == Signatures(pubKeys, signatures);
      assert stack + [script.value] + [controlBlock] == stack + [script.value, controlBlock];
      return Ok(stack + [script.value] + [controlBlock]);
    }
  }

  // ------------------------------------------------------------ CSV

  class CSVMultisigClosure {
    const multisig: MultisigClosure
    var locktime: RelativeLocktime

    ghost function Fields(): Closure
      reads this, multisig
    {
      CSV(locktime, multisig.Fields())
    }

    constructor (locktime: RelativeLocktime, m: Multisig)
      ensures Fields() == CSV(locktime, m) && fresh(multisig)
    {
      multisig := new MultisigClosure(m.pubKeys, m.kind);
      this.locktime := locktime;
    }

    method Script() returns (r: Result<Bytes>)
      ensures r == ClosureSpec.Script(Fields())
    {
      var sequence := BIP68Sequence(locktime);
      if sequence.Err? {
        return Err;
      }
      var b := new ScriptBuilder();
      b.AddInt64(sequence.value);
      b.AddOps([OP_CHECKSEQUENCEVERIFY, OP_DROP]);
      var csvScript := b.State();
      PushIntShort(sequence.value);
      assert csvScript == Ok(CSVPrefix(sequence.value)) by {
        assert [] + PushInt(sequence.value) == PushInt(sequence.value);
      }
      var multisigScript := multisig.Script();
      if multisigScript.Err? {
        return Err;
      }
      return Ok(csvScript.value + multisigScript.value);
    }

    /** Decoding is all or nothing: a refused script leaves the closure as it was. */
    method Decode(curve: Curve, script: Bytes) returns (valid: bool, err: bool)
      modifies this, multisig
      ensures valid == DecodeCSV(curve, script).Valid?
      ensures err == DecodeCSV(curve, script).Error?
      ensures Fields() == if valid then DecodeCSV(curve, script).value else old(Fields())
    {
      if |script| == 0 {
        return false, true;
      }
      var t := NextToken(script);
      if !t.Tok? {
        return false, false;
      }
      var sequence := if IsSmallInt(t.op) then [t.op] else t.data;
      var i := 0;
      var ops := [OP_CHECKSEQUENCEVERIFY, OP_DROP];
      ghost var first := t;
      while i < 2
        invariant 0 <= i <= 2 && t.Tok?
        invariant i == 0 ==> t == first
        invariant i == 1 ==> t == NextToken(first.rest) && t.op == OP_CHECKSEQUENCEVERIFY
        invariant i == 2 ==>
                    && NextToken(first.rest).Tok? && NextToken(first.rest).op == OP_CHECKSEQUENCEVERIFY
                    && t == NextToken(NextToken(first.rest).rest) && t.op == OP_DROP
      {
        t := NextToken(t.rest);
        if !t.Tok? || t.op != ops[i] {
          return false, false;
        }
        i := i + 1;
      }
      var locktime := DecodeSequence(sequence);
      if locktime.Err? {
        return false, true;
      }
      var inner := new MultisigClosure([], Checksig);
      valid, err := inner.Decode(curve, t.rest);
      AfterDecodeValid(curve, t.rest, Multisig([], Checksig));
      if valid {
        this.locktime := locktime.value;
        multisig.pubKeys, multisig.kind := inner.pubKeys, inner.kind;
      }
    }

    /** The multisig witness with its script replaced by the whole CSV script. */
    method Witness(controlBlock: Bytes, signatures: map<Bytes, Bytes>) returns (r: Result<seq<Bytes>>)
      ensures r == WitnessStack(multisig.pubKeys, ClosureSpec.Script(Fields()), controlBlock, signatures)
    {
      var stack := multisig.Witness(controlBlock, signatures);
      if stack.Err? {
        return Err;
      }
      var script := Script();
      if script.Err? {
        return Err;
      }
      r := Ok(stack.value[|stack.value| - 2 := script.value]);
      assert r.value == Signatures(multisig.pubKeys, signatures) + [script.value, controlBlock];
    }
  }

  lemma PushIntShort(n: uint32)
    ensures |PushInt(n)| <= 6
  {
    ScriptNum.EncodeShort(n);
  }

  // ------------------------------------------------------------ condition

  class ConditionMultisigClosure {
    const multisig: MultisigClosure
    var condition: Bytes

    ghost function Fields(): Closure
      reads this, multisig
    {
      Condition(condition, multisig.Fields())
    }

    constructor (condition: Bytes, m: Multisig)
      ensures Fields() == Condition(condition, m) && fresh(multisig)
    {
      multisig := new MultisigClosure(m.pubKeys, m.kind);
      this.condition := condition;
    }

    method Script() returns (r: Result<Bytes>)
      ensures r == ClosureSpec.Script(Fields())
    {
      var b := new ScriptBuilder();
      b.AddOps(condition);
      b.AddOp(OP_VERIFY);
      var multisigScript := multisig.Script();
      if multisigScript.Err? {
        return Err;
      }
      b.AddOps(multisigScript.value);
      r := b.State();
      assert [] + condition == condition;
      AppendLimited(condition, [OP_VERIFY]);
      AppendLimited(condition + [OP_VERIFY], multisigScript.value);
    }

    /** The tokenizer loop of Decode: the condition read so far, up to and without OP_VERIFY. */
    static method ReadCondition(script: Bytes) returns (scanned: Bytes, rest: Bytes)
      ensures (scanned, rest) == ScanCondition(script)
    {
      scanned, rest := [], script;
      var t := NextToken(rest);
      while t.Tok?
        invariant t == NextToken(rest)
        invariant scanned + ScanCondition(rest).0 == ScanCondition(script).0
        invariant ScanCondition(rest).1 == ScanCondition(script).1
        decreases |rest|
      {
        if t.op == OP_VERIFY {
          rest := t.rest;
          assert scanned + [] == scanned;
          return;
        }
        AppendToken(scanned, t.op, t.data, ScanCondition(t.rest).0);
        scanned := scanned + [t.op];
        if |t.data| > 0 {
          scanned := scanned + t.data;
        }
        rest := t.rest;
        t := NextToken(rest);
      }
      assert scanned + [] == scanned;
    }

    /** The condition and the keys are overwritten even when the script is refused afterwards. */
    method Decode(curve: Curve, script: Bytes) returns (valid: bool, err: bool)
      modifies this, multisig
      ensures valid == DecodeCondition(curve, script).Valid?
      ensures err == DecodeCondition(curve, script).Error?
      ensures script == [] ==> Fields() == old(Fields())
      ensures script != [] ==>
                Fields() == Condition(ScanCondition(script).0,
                                      AfterDecode(curve, ScanCondition(script).1, old(multisig.Fields())))
    {
      if |script| == 0 {
        return false, true;
      }
      var scanned, rest := ReadCondition(script);
      condition := scanned;
      valid, err := multisig.Decode(curve, rest);
      if err || !valid {
        return false, err;
      }
      AfterDecodeValid(curve, rest, old(multisig.Fields()));
      var rebuilt := Script();
      if rebuilt.Err? {
        return false, true;
      }
      return rebuilt.value == script, false;
    }
  }

  // ------------------------------------------------------------ dispatch

  /** DecodeClosure: each candidate starts from an empty closure, an error only skips it. */
  method DecodeClosure(curve: Curve, script: Bytes) returns (r: Result<Closure>)
    ensures r == ClosureSpec.Decode(curve, script)
  {
    hide DecodeMultisig, ScanCondition;
    if |script| == 0 {
      return Err;
    }
    var none := Multisig([], Checksig);
    var csv := new CSVMultisigClosure(RelativeLocktime(Second, 0), none);
    var valid, err := csv.Decode(curve, script);
    if !err && valid {
      return Ok(CSV(csv.locktime, Multisig(csv.multisig.pubKeys, csv.multisig.kind)));
    }
    var plain := new MultisigClosure([], Checksig);
    valid, err := plain.Decode(curve, script);
    AfterDecodeValid(curve, script, none);
    if !err && valid {
      return Ok(Plain(Multisig(plain.pubKeys, plain.kind)));
    }
    var cond := new ConditionMultisigClosure([], none);
    valid, err := cond.Decode(curve, script);
    AfterDecodeValid(curve, ScanCondition(script).1, none);
    if !err && valid {
      return Ok(Condition(cond.condition, Multisig(cond.multisig.pubKeys, cond.multisig.kind)));
    }
    return Err;
  }
}
