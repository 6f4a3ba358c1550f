/** Compile correctness: which stacks the compiled closures accept, for any number of keys. */
module CompileProofs {
  import opened Basics
  import opened Opcodes
  import opened Tokenizer
  import opened Locktime
  import opened ClosureSpec
  import opened Interpreter
  import Closures
  import ScriptNum

  /** One valid signature per key, in reverse key order, and nothing else. */
  predicate Signed(env: Env, keys: seq<PubKey>, stack: Stack) {
    && |stack| == |keys|
    && forall i :: 0 <= i < |keys| ==> ValidSig(env, keys[i].x, stack[|keys| - 1 - i])
  }

  lemma SignedStep(env: Env, keys: seq<PubKey>, stack: Stack)
    requires keys != []
    ensures Signed(env, keys, stack) <==>
            stack != [] && ValidSig(env, keys[0].x, Last(stack)) && Signed(env, keys[1..], Front(stack))
  {
    if stack != [] && ValidSig(env, keys[0].x, Last(stack)) && Signed(env, keys[1..], Front(stack)) {
      forall i | 0 <= i < |keys| ensures ValidSig(env, keys[i].x, stack[|keys| - 1 - i]) {
        if i > 0 {
          assert keys[1..][i - 1] == keys[i] && Front(stack)[|keys| - 2 - (i - 1)] == stack[|keys| - 1 - i];
        }
      }
    }
    if Signed(env, keys, stack) {
      forall i | 0 <= i < |keys| - 1 ensures ValidSig(env, keys[1..][i].x, Front(stack)[|keys| - 2 - i]) {
        assert keys[1..][i] == keys[i + 1] && Front(stack)[|keys| - 2 - i] == stack[|keys| - 1 - (i + 1)];
      }
    }
  }

  // ------------------------------------------------------------ one token at a time

  lemma ExecOp(env: Env, op: byte, rest: Bytes, st: Stack)
    requires op > OP_16
    ensures Exec(env, [op] + rest, st) ==
            match StepOp(env, op, st) { case None => None case Some(st') => Exec(env, rest, st') }
  {
    NextOp(op, rest);
    ExecToken(env, [op] + rest, Tok(op, [], rest), st);
  }

  lemma ExecPush(env: Env, data: Bytes, rest: Bytes, st: Stack)
    requires 1 <= |data| <= 75
    ensures Exec(env, Push(data) + rest, st) ==
            if |st| >= MAX_STACK then None else Exec(env, rest, st + [data])
  {
    NextPush(data, rest);
    ExecToken(env, Push(data) + rest, Tok(|data|, data, rest), st);
  }

  /** However it is written, a number push puts its script-number encoding on the stack. */
  lemma ExecPushInt(env: Env, n: nat, rest: Bytes, st: Stack)
    requires n < 0x1_0000_0000
    ensures Exec(env, PushInt(n) + rest, st) ==
            if |st| >= MAX_STACK then None else Exec(env, rest, st + [ScriptNum.Encode(n)])
  {
    NextPushInt(n, rest);
    if n <= 16 {
      assert n > 0 ==> ScriptNum.Encode(n) == [n];
      ExecToken(env, PushInt(n) + rest, NextToken(PushInt(n) + rest), st);
    } else {
      ExecPush(env, ScriptNum.Encode(n), rest, st);
    }
  }

  lemma ExecKeyOp(env: Env, key: PubKey, op: byte, rest: Bytes, st: Stack)
    requires op > OP_16
    ensures Exec(env, KeyOp(key, op) + rest, st) ==
            if |st| >= MAX_STACK then None
            else match StepOp(env, op, st + [key.x]) { case None => None case Some(st') => Exec(env, rest, st') }
  {
    hide Exec, Push, StepOp;
    assert KeyOp(key, op) + rest == Push(key.x) + ([op] + rest);
    ExecPush(env, key.x, [op] + rest, st);
    ExecOp(env, op, rest, st + [key.x]);
  }

  lemma ExecDone(env: Env, st: Stack)
    ensures Exec(env, [], st) == Some(st)
  {
  }

  // ------------------------------------------------------------ CHECKSIG chains

  lemma StepVerify(env: Env, key: PubKey, st: Stack)
    ensures StepOp(env, OP_CHECKSIGVERIFY, st + [key.x]) ==
            if st != [] && ValidSig(env, key.x, Last(st)) then Some(Front(st)) else None
  {
    var all := st + [key.x];
    assert |st| > 0 ==> all[..|all| - 2] == Front(st) && all[|all| - 2] == Last(st);
  }

  lemma StepCheck(env: Env, key: PubKey, st: Stack)
    ensures StepOp(env, OP_CHECKSIG, st + [key.x]) ==
            if st == [] then None
            else if ValidSig(env, key.x, Last(st)) then Some(Front(st) + [[1]])
            else if Last(st) == [] then Some(Front(st) + [[]])
            else None
  {
    var all := st + [key.x];
    assert |st| > 0 ==> all[..|all| - 2] == Front(st) && all[|all| - 2] == Last(st);
  }

  lemma {:induction false} VerifyChain(env: Env, keys: seq<PubKey>, rest: Bytes, st: Stack)
    requires |st| < MAX_STACK
    ensures var k := |st| - |keys|;
            Exec(env, Chain(keys, OP_CHECKSIGVERIFY) + rest, st) ==
            if k >= 0 && Signed(env, keys, st[k..]) then Exec(env, rest, st[..k]) else None
  {
    hide Exec, StepOp, KeyOp, Signed;
    var k := |st| - |keys|;
    if keys == [] {
      assert Chain(keys, OP_CHECKSIGVERIFY) + rest == rest && st[..k] == st;
      assert Signed(env, keys, st[k..]) by { SignedNone(env, st[k..]); }
    } else {
      var more := Chain(keys[1..], OP_CHECKSIGVERIFY) + rest;
      assert Chain(keys, OP_CHECKSIGVERIFY) + rest == KeyOp(keys[0], OP_CHECKSIGVERIFY) + more;
      ExecKeyOp(env, keys[0], OP_CHECKSIGVERIFY, more, st);
      StepVerify(env, keys[0], st);
      if st != [] {
        VerifyChain(env, keys[1..], rest, Front(st));
        if k >= 0 {
          SignedStep(env, keys, st[k..]);
          assert Last(st[k..]) == Last(st) && Front(st[k..]) == Front(st)[k..] && Front(st)[..k] == st[..k];
        }
      }
    }
  }

  lemma SignedNone(env: Env, st: Stack)
    ensures Signed(env, [], st) <==> st == []
  {
  }

  lemma SignedOne(env: Env, key: PubKey, st: Stack)
    ensures Signed(env, [key], st) <==> |st| == 1 && ValidSig(env, key.x, st[0])
  {
    assert Signed(env, [key], st) && |st| == 1 ==> ValidSig(env, [key][0].x, st[1 - 1 - 0]);
  }

  lemma FinalCheck(env: Env, key: PubKey, st: Stack)
    requires |st| < MAX_STACK
    ensures Succeeds(Exec(env, KeyOp(key, OP_CHECKSIG), st)) <==> Signed(env, [key], st)
  {
    hide Exec, StepOp;
    assert KeyOp(key, OP_CHECKSIG) + [] == KeyOp(key, OP_CHECKSIG);
    ExecKeyOp(env, key, OP_CHECKSIG, [], st);
    StepCheck(env, key, st);
    SignedOne(env, key, st);
    assert [1 as byte][0] != 0 && !Truthy([]);
    if st != [] {
      ExecDone(env, Front(st) + [[1]]);
      ExecDone(env, Front(st) + [[]]);
    }
  }

  lemma SignedSplit(env: Env, keys: seq<PubKey>, st: Stack)
    requires keys != [] && |st| == |keys|
    ensures Signed(env, keys, st) <==> Signed(env, Front(keys), st[1..]) && Signed(env, [Last(keys)], st[..1])
  {
    var n := |keys|;
    SignedOne(env, Last(keys), st[..1]);
    if Signed(env, Front(keys), st[1..]) && Signed(env, [Last(keys)], st[..1]) {
      forall i | 0 <= i < n ensures ValidSig(env, keys[i].x, st[n - 1 - i]) {
        if i < n - 1 {
          assert Front(keys)[i] == keys[i] && st[1..][n - 2 - i] == st[n - 1 - i];
        }
      }
    }
    if Signed(env, keys, st) {
      assert ValidSig(env, keys[n - 1].x, st[n - 1 - (n - 1)]);
      forall i | 0 <= i < n - 1 ensures ValidSig(env, Front(keys)[i].x, st[1..][n - 2 - i]) {
        assert Front(keys)[i] == keys[i] && st[1..][n - 2 - i] == st[n - 1 - i];
      }
    }
  }

  lemma ChecksigRuns(env: Env, keys: seq<PubKey>, st: Stack)
    requires 0 < |keys| <= MAX_SCRIPT_SIZE && |st| < MAX_STACK
    ensures Succeeds(Exec(env, MultisigBytes(Multisig(keys, Checksig)), st)) <==> Signed(env, keys, st)
  {
    hide Exec, KeyOp, Signed, Chain;
    var last := KeyOp(Last(keys), OP_CHECKSIG);
    var k := |st| - |Front(keys)|;
    VerifyChain(env, Front(keys), last, st);
    if k >= 0 {
      FinalCheck(env, Last(keys), st[..k]);
      if |st| == |keys| {
        SignedSplit(env, keys, st);
      } else {
        assert !Signed(env, [Last(keys)], st[..k]) by { SignedOne(env, Last(keys), st[..k]); }
      }
    }
    SignedLength(env, keys, st);
  }

  lemma SignedLength(env: Env, keys: seq<PubKey>, st: Stack)
    ensures Signed(env, keys, st) ==> |st| == |keys|
  {
  }

  // ------------------------------------------------------------ CHECKSIGADD counts

  /** The running count of CHECKSIGADD: empty signatures do not count, invalid ones stop. */
  function Tally(env: Env, keys: seq<PubKey>, st: Stack, count: nat): Option<(Stack, nat)> {
    if keys == [] then Some((st, count))
    else if st == [] then None
    else if ValidSig(env, keys[0].x, Last(st)) then Tally(env, keys[1..], Front(st), count + 1)
    else if Last(st) == [] then Tally(env, keys[1..], Front(st), count)
    else None
  }

  /** The count is full exactly when every key has its valid signature. */
  lemma {:induction false} FullTally(env: Env, keys: seq<PubKey>, st: Stack, count: nat)
    ensures Tally(env, keys, st, count).Some? ==> Tally(env, keys, st, count).value.1 <= count + |keys|
    ensures Tally(env, keys, st, count) == Some(([], count + |keys|)) <==> Signed(env, keys, st)
  {
    hide Signed;
    if keys == [] {
      SignedNone(env, st);
    } else {
      SignedStep(env, keys, st);
      if st != [] {
        FullTally(env, keys[1..], Front(st), count + 1);
        FullTally(env, keys[1..], Front(st), count);
      }
    }
  }

  lemma StepAdd(env: Env, key: PubKey, st: Stack, count: nat)
    requires count < 0x7fff
    ensures StepOp(env, OP_CHECKSIGADD, st + [ScriptNum.Encode(count)] + [key.x]) ==
            match Tally(env, [key], st, count) {
              case None => None
              case Some((st', count')) => Some(st' + [ScriptNum.Encode(count')])
            }
  {
    var all := st + [ScriptNum.Encode(count)] + [key.x];
    assert |st| > 0 ==> all[..|all| - 3] == Front(st) && all[|all| - 3] == Last(st);
    assert all[|all| - 2] == ScriptNum.Encode(count);
    ScriptNum.EncodeDecode(count);
    ScriptNum.EncodeShort(count);
    assert [key][1..] == [];
  }

  lemma TallyStep(env: Env, keys: seq<PubKey>, st: Stack, count: nat)
    requires keys != []
    ensures Tally(env, keys, st, count) ==
            match Tally(env, [keys[0]], st, count) {
              case None => None
              case Some((st', count')) => Tally(env, keys[1..], st', count')
            }
    ensures Tally(env, [keys[0]], st, count).Some? ==>
              |Tally(env, [keys[0]], st, count).value.0| < |st| &&
              Tally(env, [keys[0]], st, count).value.1 <= count + 1
  {
    assert [keys[0]][1..] == [];
  }

  lemma {:induction false} AddChain(env: Env, keys: seq<PubKey>, rest: Bytes, st: Stack, count: nat)
    requires |st| + 1 < MAX_STACK && count + |keys| < 0x7fff
    ensures Exec(env, Chain(keys, OP_CHECKSIGADD) + rest, st + [ScriptNum.Encode(count)]) ==
            match Tally(env, keys, st, count) {
              case None => None
              case Some((st', count')) => Exec(env, rest, st' + [ScriptNum.Encode(count')])
            }
  {
    hide Exec, StepOp, KeyOp;
    if keys == [] {
      assert Chain(keys, OP_CHECKSIGADD) + rest == rest;
    } else {
      var more := Chain(keys[1..], OP_CHECKSIGADD) + rest;
      assert Chain(keys, OP_CHECKSIGADD) + rest == KeyOp(keys[0], OP_CHECKSIGADD) + more;
      ExecKeyOp(env, keys[0], OP_CHECKSIGADD, more, st + [ScriptNum.Encode(count)]);
      StepAdd(env, keys[0], st, count);
      TallyStep(env, keys, st, count);
      var first := Tally(env, [keys[0]], st, count);
      if first.Some? {
        AddChain(env, keys[1..], rest, first.value.0, first.value.1);
      }
    }
  }

  lemma FinalCount(env: Env, n: nat, st: Stack, count: nat)
    requires |st| + 1 < MAX_STACK && count < 0x7fff && n < 0x7fff
    ensures Succeeds(Exec(env, PushInt(n) + [OP_NUMEQUAL], st + [ScriptNum.Encode(count)])) <==>
            st == [] && count == n
  {
    hide Exec, StepOp;
    var top := st + [ScriptNum.Encode(count)];
    ExecPushInt(env, n, [OP_NUMEQUAL], top);
    assert [OP_NUMEQUAL] + [] == [OP_NUMEQUAL];
    ExecOp(env, OP_NUMEQUAL, [], top + [ScriptNum.Encode(n)]);
    StepNumEqual(env, st, count, n);
    ExecDone(env, st + [Bool(count == n)]);
    assert Truthy(Bool(count == n)) == (count == n) by {
      assert [1 as byte][0] != 0;
    }
  }

  lemma StepNumEqual(env: Env, st: Stack, a: nat, b: nat)
    requires a < 0x7fff && b < 0x7fff
    ensures StepOp(env, OP_NUMEQUAL, st + [ScriptNum.Encode(a)] + [ScriptNum.Encode(b)]) == Some(st + [Bool(a == b)])
  {
    var all := st + [ScriptNum.Encode(a)] + [ScriptNum.Encode(b)];
    assert all[..|all| - 2] == st && all[|all| - 2] == ScriptNum.Encode(a) && all[|all| - 1] == ScriptNum.Encode(b);
    ScriptNum.EncodeDecode(a);
    ScriptNum.EncodeDecode(b);
    ScriptNum.EncodeShort(a);
    ScriptNum.EncodeShort(b);
  }

  /** The leading CHECKSIG leaves the count of the first key. */
  lemma FirstCheck(env: Env, key: PubKey, rest: Bytes, st: Stack)
    requires |st| < MAX_STACK
    ensures Exec(env, KeyOp(key, OP_CHECKSIG) + rest, st) ==
            match Tally(env, [key], st, 0) {
              case None => None
              case Some((st', count)) => Exec(env, rest, st' + [ScriptNum.Encode(count)])
            }
  {
    hide Exec, StepOp;
    ExecKeyOp(env, key, OP_CHECKSIG, rest, st);
    StepCheck(env, key, st);
    assert ScriptNum.Encode(0) == [] && ScriptNum.Encode(1) == [1];
    assert [key][1..] == [];
  }

  lemma ChecksigAddRuns(env: Env, keys: seq<PubKey>, st: Stack)
    requires 0 < |keys| <= MAX_SCRIPT_SIZE && |st| < MAX_STACK
    ensures Succeeds(Exec(env, MultisigBytes(Multisig(keys, ChecksigAdd)), st)) <==> Signed(env, keys, st)
  {
    hide Exec, KeyOp, Signed, Chain, Tally, PushInt, ScriptNum.Encode, Truthy;
    var end := PushInt(|keys|) + [OP_NUMEQUAL];
    var more := Chain(keys[1..], OP_CHECKSIGADD) + end;
    assert MultisigBytes(Multisig(keys, ChecksigAdd)) == KeyOp(keys[0], OP_CHECKSIG) + more;
    hide MultisigBytes;
    FirstCheck(env, keys[0], more, st);
    TallyStep(env, keys, st, 0);
    FullTally(env, keys, st, 0);
    var first := Tally(env, [keys[0]], st, 0);
    if first.Some? {
      AddChain(env, keys[1..], end, first.value.0, first.value.1);
      var all := Tally(env, keys, st, 0);
      if all.Some? {
        TallyShrinks(env, keys, st, 0);
        FinalCount(env, |keys|, all.value.0, all.value.1);
      }
    }
  }

  lemma {:induction false} TallyShrinks(env: Env, keys: seq<PubKey>, st: Stack, count: nat)
    requires Tally(env, keys, st, count).Some?
    ensures |Tally(env, keys, st, count).value.0| == |st| - |keys|
  {
    if keys != [] {
      TallyShrinks(env, keys[1..], Front(st), if ValidSig(env, keys[0].x, Last(st)) then count + 1 else count);
    }
  }

  // ------------------------------------------------------------ closures

  /** The builder's limit of 10000 bytes leaves room for 294 keys, in either kind. */
  lemma ScriptBoundsKeys(m: Multisig)
    ensures MultisigScript(m).Ok? <==> |m.pubKeys| <= 294
  {
    hide Chain, ScriptNum.Encode;
    var keys := m.pubKeys;
    if keys != [] {
      Closures.ChainLength(keys[1..], OP_CHECKSIGADD);
      Closures.ChainLength(Front(keys), OP_CHECKSIGVERIFY);
    }
    if |keys| <= MAX_SCRIPT_SIZE {
      ScriptNum.EncodeShort(|keys|);
      NextPushInt(|keys|, []);
    }
  }

  lemma MultisigRuns(env: Env, m: Multisig, st: Stack)
    requires MultisigScript(m).Ok? && m.pubKeys != [] && |st| < MAX_STACK
    ensures Succeeds(Exec(env, MultisigScript(m).value, st)) <==> Signed(env, m.pubKeys, st)
  {
    match m.kind
    case Checksig => ChecksigRuns(env, m.pubKeys, st);
    case ChecksigAdd => ChecksigAddRuns(env, m.pubKeys, st);
  }

  lemma SignedIsSmall(env: Env, keys: seq<PubKey>, st: Stack)
    requires Signed(env, keys, st)
    ensures forall item :: item in st ==> |item| <= 65
  {
    forall item | item in st ensures |item| <= 65 {
      var j :| 0 <= j < |st| && st[j] == item;
      assert ValidSig(env, keys[|keys| - 1 - j].x, st[|keys| - 1 - (|keys| - 1 - j)]);
    }
  }

  /** A stack of exactly 1000 elements leaves no room for the first key. */
  lemma FullStackFails(env: Env, m: Multisig, st: Stack)
    requires m.pubKeys != [] && MultisigScript(m).Ok? && |st| == MAX_STACK
    ensures Exec(env, MultisigScript(m).value, st) == None
  {
    hide Exec, StepOp, KeyOp;
    var keys := m.pubKeys;
    match m.kind
    case Checksig =>
      if |keys| == 1 {
        assert MultisigBytes(m) == KeyOp(keys[0], OP_CHECKSIG) + [];
        ExecKeyOp(env, keys[0], OP_CHECKSIG, [], st);
      } else {
        var more := Chain(Front(keys)[1..], OP_CHECKSIGVERIFY) + KeyOp(Last(keys), OP_CHECKSIG);
        assert MultisigBytes(m) == KeyOp(keys[0], OP_CHECKSIGVERIFY) + more;
        ExecKeyOp(env, keys[0], OP_CHECKSIGVERIFY, more, st);
      }
    case ChecksigAdd =>
      var more := Chain(keys[1..], OP_CHECKSIGADD) + (PushInt(|keys|) + [OP_NUMEQUAL]);
      assert MultisigBytes(m) == KeyOp(keys[0], OP_CHECKSIG) + more;
      ExecKeyOp(env, keys[0], OP_CHECKSIG, more, st);
  }

  /** Both compilations of the same keys accept exactly the same stacks: a valid signature for each
      key, in reverse key order, and nothing else. */
  lemma MultisigAccepts(env: Env, m: Multisig, stack: Stack)
    requires MultisigScript(m).Ok? && m.pubKeys != []
    ensures Accepts(env, MultisigScript(m).value, stack) <==> Signed(env, m.pubKeys, stack)
  {
    hide Exec, MultisigScript, Signed;
    ScriptBoundsKeys(m);
    SignedLength(env, m.pubKeys, stack);
    if Signed(env, m.pubKeys, stack) {
      SignedIsSmall(env, m.pubKeys, stack);
    }
    if |stack| < MAX_STACK {
      MultisigRuns(env, m, stack);
    } else if |stack| == MAX_STACK {
      FullStackFails(env, m, stack);
    }
  }

  /** With no keys at all the CHECKSIGADD script still compiles, and then any stack of one element
      that reads as the number zero opens it. */
  lemma EmptyChecksigAddAccepts(env: Env, stack: Stack)
    ensures var script := MultisigScript(Multisig([], ChecksigAdd));
            && script.Ok?
            && (Accepts(env, script.value, stack) <==>
                |stack| == 1 && |stack[0]| <= 4 && ScriptNum.Value(stack[0]) == 0)
  {
    hide Exec, StepOp;
    var script := PushInt(0) + [OP_NUMEQUAL];
    assert MultisigBytes(Multisig([], ChecksigAdd)) == [] + PushInt(0) + [OP_NUMEQUAL] == script;
    ExecPushInt(env, 0, [OP_NUMEQUAL], stack);
    assert [OP_NUMEQUAL] + [] == [OP_NUMEQUAL];
    ExecOp(env, OP_NUMEQUAL, [], stack + [[]]);
    StepNumEqualZero(env, stack);
    if stack != [] {
      ExecDone(env, Front(stack) + [Bool(ScriptNum.Value(Last(stack)) == 0)]);
      assert [1 as byte][0] != 0;
    }
  }

  /** The CHECKSIGADD script of two keys byte by byte. */
  lemma TwoKeyAddBytes(first: PubKey, second: PubKey)
    ensures MultisigScript(Multisig([first, second], ChecksigAdd))
         == Ok([0x20] + first.x + [0xac, 0x20] + second.x + [0xba, 0x52, 0x9c])
  {
    assert [first, second][1..] == [second];
    assert [second][1..] == [];
    assert Chain([second], OP_CHECKSIGADD) == KeyOp(second, OP_CHECKSIGADD) + [];
    assert MultisigBytes(Multisig([first, second], ChecksigAdd))
        == [0x20] + first.x + [0xac, 0x20] + second.x + [0xba, 0x52, 0x9c];
  }

  /** The CHECKSIG script of no keys is empty: any stack of one true element opens it. */
  lemma EmptyChecksigAccepts(env: Env, stack: Stack)
    ensures var script := MultisigScript(Multisig([], Checksig));
            && script == Ok([])
            && (Accepts(env, script.value, stack) <==> |stack| == 1 && |stack[0]| <= MAX_ELEMENT && Truthy(stack[0]))
  {
  }

  lemma StepNumEqualZero(env: Env, stack: Stack)
    ensures StepOp(env, OP_NUMEQUAL, stack + [[]]) ==
            if stack != [] && |Last(stack)| <= 4
            then Some(Front(stack) + [Bool(ScriptNum.Value(Last(stack)) == 0)])
            else None
  {
    var all := stack + [[]];
    assert stack != [] ==> all[..|all| - 2] == Front(stack) && all[|all| - 2] == Last(stack);
  }

  /** The stack that Witness builds is accepted whenever the map holds a valid signature per key. */
  lemma WitnessAccepted(env: Env, m: Multisig, controlBlock: Bytes, sigs: map<Bytes, Bytes>)
    requires MultisigScript(m).Ok? && m.pubKeys != []
    requires forall key :: key in m.pubKeys ==> key.x in sigs && ValidSig(env, key.x, sigs[key.x])
    ensures var w := Closures.WitnessStack(m.pubKeys, MultisigScript(m), controlBlock, sigs);
            && w.Ok? && |w.value| == |m.pubKeys| + 2
            && Accepts(env, MultisigScript(m).value, w.value[..|m.pubKeys|])
            && w.value[|m.pubKeys|..] == [MultisigScript(m).value, controlBlock]
  {
    hide Exec, MultisigScript, Accepts;
    var stack := Closures.Signatures(m.pubKeys, sigs);
    var w := stack + [MultisigScript(m).value, controlBlock];
    assert w[..|stack|] == stack;
    forall i | 0 <= i < |m.pubKeys| ensures ValidSig(env, m.pubKeys[i].x, stack[|m.pubKeys| - 1 - i]) {
      assert m.pubKeys[i] in m.pubKeys;
    }
    MultisigAccepts(env, m, stack);
  }

  /** And so is the stack of a CSV closure, when the input's nSequence reaches the locktime. */
  lemma CSVWitnessAccepted(env: Env, locktime: RelativeLocktime, m: Multisig, controlBlock: Bytes,
                           sigs: map<Bytes, Bytes>)
    requires CSVScript(locktime, m).Ok? && m.pubKeys != []
    requires SequenceReached(BIP68Sequence(locktime).value, env.sequence)
    requires forall key :: key in m.pubKeys ==> key.x in sigs && ValidSig(env, key.x, sigs[key.x])
    ensures var script := CSVScript(locktime, m);
            var w := Closures.WitnessStack(m.pubKeys, script, controlBlock, sigs);
            && w.Ok? && |w.value| == |m.pubKeys| + 2 && w.value[|m.pubKeys|..] == [script.value, controlBlock]
            && Accepts(env, script.value, w.value[..|m.pubKeys|])
  {
    hide Exec, MultisigScript, CSVScript, Accepts, SequenceReached;
    var stack := Closures.Signatures(m.pubKeys, sigs);
    var w := stack + [CSVScript(locktime, m).value, controlBlock];
    assert w[..|stack|] == stack;
    forall i | 0 <= i < |m.pubKeys| ensures ValidSig(env, m.pubKeys[i].x, stack[|m.pubKeys| - 1 - i]) {
      assert m.pubKeys[i] in m.pubKeys;
    }
    CSVAccepts(env, locktime, m, stack);
  }

  lemma StepCSV(env: Env, n: uint32, st: Stack)
    ensures StepOp(env, OP_CHECKSEQUENCEVERIFY, st + [ScriptNum.Encode(n)]) ==
            if SequenceReached(n, env.sequence) then Some(st + [ScriptNum.Encode(n)]) else None
    ensures StepOp(env, OP_DROP, st + [ScriptNum.Encode(n)]) == Some(st)
  {
    ScriptNum.EncodeDecode(n);
    ScriptNum.EncodeShort(n);
    assert Front(st + [ScriptNum.Encode(n)]) == st;
  }

  lemma ExecCSVPrefix(env: Env, n: uint32, rest: Bytes, st: Stack)
    ensures Exec(env, CSVPrefix(n) + rest, st) ==
            if |st| < MAX_STACK && SequenceReached(n, env.sequence) then Exec(env, rest, st) else None
  {
    hide Exec, StepOp, PushInt;
    var ops := [OP_CHECKSEQUENCEVERIFY] + ([OP_DROP] + rest);
    assert CSVPrefix(n) + rest == PushInt(n) + ops;
    ExecPushInt(env, n, ops, st);
    ExecOp(env, OP_CHECKSEQUENCEVERIFY, [OP_DROP] + rest, st + [ScriptNum.Encode(n)]);
    ExecOp(env, OP_DROP, rest, st + [ScriptNum.Encode(n)]);
    StepCSV(env, n, st);
  }

  /** A CSV closure adds nothing but the sequence test to its keys. */
  lemma CSVAccepts(env: Env, locktime: RelativeLocktime, m: Multisig, stack: Stack)
    requires CSVScript(locktime, m).Ok? && m.pubKeys != []
    ensures Accepts(env, CSVScript(locktime, m).value, stack) <==>
            SequenceReached(BIP68Sequence(locktime).value, env.sequence) && Signed(env, m.pubKeys, stack)
  {
    hide Exec, MultisigScript, Signed, SequenceReached, BIP68Sequence;
    ScriptBoundsKeys(m);
    ExecCSVPrefix(env, BIP68Sequence(locktime).value, MultisigScript(m).value, stack);
    MultisigAccepts(env, m, stack);
    SignedLength(env, m.pubKeys, stack);
  }

  lemma StepBound(env: Env, op: byte, data: Bytes, st: Stack)
    requires |st| <= MAX_STACK
    ensures Step(env, op, data, st).Some? ==> |Step(env, op, data, st).value| <= MAX_STACK
  {
  }

  lemma {:induction false} ExecBound(env: Env, script: Bytes, st: Stack)
    requires |st| <= MAX_STACK
    ensures Exec(env, script, st).Some? ==> |Exec(env, script, st).value| <= MAX_STACK
    decreases |script|
  {
    hide NextToken, Step;
    var t := NextToken(script);
    if t.Tok? {
      StepBound(env, t.op, t.data, st);
      if Step(env, t.op, t.data, st).Some? {
        ExecBound(env, t.rest, Step(env, t.op, t.data, st).value);
      }
    }
  }

  /** A condition of whole tokens runs first, has to leave a true top element, and whatever it
      leaves below has to sign for the keys. */
  lemma {:induction false} ConditionAccepts(env: Env, condition: Bytes, m: Multisig, stack: Stack)
    requires ConditionScript(condition, m).Ok? && m.pubKeys != [] && Tokens(condition, AnyOp)
    ensures Accepts(env, ConditionScript(condition, m).value, stack) <==>
            && |stack| <= MAX_STACK && (forall item :: item in stack ==> |item| <= MAX_ELEMENT)
            && var left := Exec(env, condition, stack);
            && left.Some? && left.value != [] && Truthy(Last(left.value))
            && Signed(env, m.pubKeys, Front(left.value))
  {
    hide Exec, MultisigScript, Signed, StepOp, Truthy;
    var script := MultisigScript(m).value;
    assert condition + [OP_VERIFY] + script == condition + ([OP_VERIFY] + script);
    ExecAppend(env, condition, [OP_VERIFY] + script, stack);
    var left := Exec(env, condition, stack);
    if left.Some? {
      ExecOp(env, OP_VERIFY, script, left.value);
      StepVerifyOp(env, left.value);
      if |stack| <= MAX_STACK && left.value != [] {
        ExecBound(env, condition, stack);
        MultisigRuns(env, m, Front(left.value));
      }
    }
  }

  lemma StepVerifyOp(env: Env, st: Stack)
    ensures StepOp(env, OP_VERIFY, st) == if st != [] && Truthy(Last(st)) then Some(Front(st)) else None
  {
  }
}
