/** Parser/printer theorems about the closure decoders. */
module ClosureProofs {
  import opened Basics
  import opened Opcodes
  import opened Tokenizer
  import opened Locktime
  import opened ClosureSpec
  import ScriptNum

  predicate OnCurve(curve: Curve, keys: seq<PubKey>) {
    forall i :: 0 <= i < |keys| ==> curve(keys[i].x)
  }

  /** Scripts carry x coordinates only, so decoding returns each key with even y. */
  function LiftKeys(keys: seq<PubKey>): (lifted: seq<PubKey>)
    ensures |lifted| == |keys|
    ensures forall i :: 0 <= i < |keys| ==> lifted[i] == LiftKey(keys[i].x)
  {
    seq(|keys|, i requires 0 <= i < |keys| => LiftKey(keys[i].x))
  }

  function LiftMultisig(m: Multisig): Multisig {
    m.(pubKeys := LiftKeys(m.pubKeys))
  }

  function Lift(c: Closure): Closure {
    match c
    case Plain(m) => Plain(LiftMultisig(m))
    case CSV(locktime, m) => CSV(locktime, LiftMultisig(m))
    case Condition(condition, m) => Condition(condition, LiftMultisig(m))
  }

  predicate DecodableMultisig(curve: Curve, m: Multisig) {
    && OnCurve(curve, m.pubKeys)
    && (m.kind == Checksig ==> |m.pubKeys| >= 1)
    && (m.kind == ChecksigAdd ==> |m.pubKeys| <= 16)
  }

  /** Opcodes that the condition decoder reassembles byte for byte without stopping. */
  predicate ConditionOp(op: byte) {
    op != OP_VERIFY && !(OP_PUSHDATA1 <= op <= OP_PUSHDATA4)
  }

  predicate Decodable(curve: Curve, c: Closure) {
    match c
    case Plain(m) => DecodableMultisig(curve, m)
    case CSV(locktime, m) => SurvivesCSV(locktime) && DecodableMultisig(curve, m)
    case Condition(condition, m) => Tokens(condition, ConditionOp) && DecodableMultisig(curve, m)
  }

  // ------------------------------------------------------- multisig scripts

  lemma NextKeyOp(key: PubKey, op: byte, rest: Bytes)
    requires op > OP_PUSHDATA4
    ensures NextToken(KeyOp(key, op) + rest) == Tok(OP_DATA_32, key.x, [op] + rest)
    ensures NextToken([op] + rest) == Tok(op, [], rest)
  {
    assert KeyOp(key, op) + rest == Push(key.x) + ([op] + rest);
    NextPush(key.x, [op] + rest);
    NextOp(op, rest);
  }

  lemma {:induction false} ChainLift(keys: seq<PubKey>, op: byte)
    ensures Chain(LiftKeys(keys), op) == Chain(keys, op)
  {
    if keys != [] {
      assert LiftKeys(keys)[1..] == LiftKeys(keys[1..]);
      ChainLift(keys[1..], op);
    }
  }

  lemma MultisigLift(m: Multisig)
    ensures MultisigScript(LiftMultisig(m)) == MultisigScript(m)
  {
    var keys := m.pubKeys;
    if 0 < |keys| <= MAX_SCRIPT_SIZE {
      assert LiftKeys(keys)[1..] == LiftKeys(keys[1..]);
      assert Front(LiftKeys(keys)) == LiftKeys(Front(keys));
      ChainLift(keys[1..], OP_CHECKSIGADD);
      ChainLift(Front(keys), OP_CHECKSIGVERIFY);
    }
  }

  lemma ScanVerifyStep(curve: Curve, key: PubKey, rest: Bytes, read: seq<PubKey>)
    requires curve(key.x)
    ensures ScanChecksig(curve, KeyOp(key, OP_CHECKSIGVERIFY) + rest, read)
         == ScanChecksig(curve, rest, read + [LiftKey(key.x)])
  {
    NextKeyOp(key, OP_CHECKSIGVERIFY, rest);
  }

  lemma ScanAddStep(curve: Curve, key: PubKey, op: byte, rest: Bytes, read: seq<PubKey>)
    requires curve(key.x) && (op == OP_CHECKSIGADD || op == OP_CHECKSIG)
    ensures ScanChecksigAdd(curve, KeyOp(key, op) + rest, read)
         == ScanChecksigAdd(curve, rest, read + [LiftKey(key.x)])
  {
    NextKeyOp(key, op, rest);
  }

  lemma ChainStep(keys: seq<PubKey>, op: byte, rest: Bytes)
    requires keys != []
    ensures Chain(keys, op) + rest == KeyOp(keys[0], op) + (Chain(keys[1..], op) + rest)
  {
  }

  lemma LiftStep(keys: seq<PubKey>, read: seq<PubKey>)
    requires keys != []
    ensures read + [LiftKey(keys[0].x)] + LiftKeys(keys[1..]) == read + LiftKeys(keys)
  {
  }

  lemma {:induction false} ScanVerifyChain(curve: Curve, keys: seq<PubKey>, rest: Bytes, read: seq<PubKey>)
    requires OnCurve(curve, keys)
    ensures ScanChecksig(curve, Chain(keys, OP_CHECKSIGVERIFY) + rest, read)
         == ScanChecksig(curve, rest, read + LiftKeys(keys))
  {
    if keys == [] {
      assert Chain(keys, OP_CHECKSIGVERIFY) + rest == rest && read + LiftKeys(keys) == read;
    } else {
      ChainStep(keys, OP_CHECKSIGVERIFY, rest);
      ScanVerifyStep(curve, keys[0], Chain(keys[1..], OP_CHECKSIGVERIFY) + rest, read);
      ScanVerifyChain(curve, keys[1..], rest, read + [LiftKey(keys[0].x)]);
      LiftStep(keys, read);
    }
  }

  lemma {:induction false} ScanAddChain(curve: Curve, keys: seq<PubKey>, rest: Bytes, read: seq<PubKey>)
    requires OnCurve(curve, keys)
    ensures ScanChecksigAdd(curve, Chain(keys, OP_CHECKSIGADD) + rest, read)
         == ScanChecksigAdd(curve, rest, read + LiftKeys(keys))
  {
    if keys == [] {
      assert Chain(keys, OP_CHECKSIGADD) + rest == rest && read + LiftKeys(keys) == read;
    } else {
      ChainStep(keys, OP_CHECKSIGADD, rest);
      ScanAddStep(curve, keys[0], OP_CHECKSIGADD, Chain(keys[1..], OP_CHECKSIGADD) + rest, read);
      ScanAddChain(curve, keys[1..], rest, read + [LiftKey(keys[0].x)]);
      LiftStep(keys, read);
    }
  }

  /** What the two scans return besides their keys. */
  lemma {:induction false} ScanChecksigKeys(curve: Curve, script: Bytes, read: seq<PubKey>)
    requires ScanChecksig(curve, script, read).Valid?
    requires OnCurve(curve, read) && LiftKeys(read) == read
    ensures var keys := ScanChecksig(curve, script, read).value;
            OnCurve(curve, keys) && LiftKeys(keys) == keys && |keys| > |read|
    decreases |script|
  {
    var first := NextToken(script);
    var second := NextToken(first.rest);
    var read' := read + [LiftKey(first.data)];
    assert LiftKeys(read') == LiftKeys(read) + [LiftKey(first.data)];
    if second.op == OP_CHECKSIGVERIFY {
      ScanChecksigKeys(curve, second.rest, read');
    }
  }

  lemma {:induction false} ScanChecksigAddKeys(curve: Curve, script: Bytes, read: seq<PubKey>)
    requires ScanChecksigAdd(curve, script, read).Valid?
    requires OnCurve(curve, read) && LiftKeys(read) == read
    ensures var keys := ScanChecksigAdd(curve, script, read).value;
            OnCurve(curve, keys) && LiftKeys(keys) == keys && |keys| <= 16
    decreases |script|
  {
    var first := NextToken(script);
    if !IsSmallInt(first.op) {
      var second := NextToken(first.rest);
      var read' := read + [LiftKey(first.data)];
      assert LiftKeys(read') == LiftKeys(read) + [LiftKey(first.data)];
      ScanChecksigAddKeys(curve, second.rest, read');
    }
  }

  lemma ScanLastKey(curve: Curve, key: PubKey, read: seq<PubKey>)
    requires curve(key.x)
    ensures ScanChecksig(curve, KeyOp(key, OP_CHECKSIG), read) == Valid(read + [LiftKey(key.x)])
  {
    NextKeyOp(key, OP_CHECKSIG, []);
    assert KeyOp(key, OP_CHECKSIG) + [] == KeyOp(key, OP_CHECKSIG);
  }

  lemma ScanChecksigScript(curve: Curve, keys: seq<PubKey>)
    requires keys != [] && OnCurve(curve, keys) && |keys| <= MAX_SCRIPT_SIZE
    ensures ScanChecksig(curve, MultisigBytes(Multisig(keys, Checksig)), []) == Valid(LiftKeys(keys))
  {
    hide NextToken, Chain, Push;
    var last := KeyOp(Last(keys), OP_CHECKSIG);
    ScanVerifyChain(curve, Front(keys), last, []);
    ScanLastKey(curve, Last(keys), [] + LiftKeys(Front(keys)));
    assert [] + LiftKeys(Front(keys)) + [LiftKey(Last(keys).x)] == LiftKeys(keys);
  }

  lemma ScanChecksigAddTail(curve: Curve, n: nat, keys: seq<PubKey>)
    requires n <= 16 && |keys| == n
    ensures ScanChecksigAdd(curve, PushInt(n) + [OP_NUMEQUAL], keys) == Valid(keys)
  {
    NextPushInt(n, [OP_NUMEQUAL]);
    NextOp(OP_NUMEQUAL, []);
    assert [OP_NUMEQUAL] + [] == [OP_NUMEQUAL];
  }

  lemma ScanChecksigAddScript(curve: Curve, keys: seq<PubKey>)
    requires OnCurve(curve, keys) && |keys| <= 16
    ensures ScanChecksigAdd(curve, MultisigBytes(Multisig(keys, ChecksigAdd)), []) == Valid(LiftKeys(keys))
  {
    var end := PushInt(|keys|) + [OP_NUMEQUAL];
    var script := MultisigBytes(Multisig(keys, ChecksigAdd));
    ScanChecksigAddTail(curve, |keys|, LiftKeys(keys));
    if keys == [] {
      assert script == end && LiftKeys(keys) == [];
    } else {
      var tail := Chain(keys[1..], OP_CHECKSIGADD) + end;
      assert script == KeyOp(keys[0], OP_CHECKSIG) + tail;
      ScanAddStep(curve, keys[0], OP_CHECKSIG, tail, []);
      ScanAddChain(curve, keys[1..], end, [] + [LiftKey(keys[0].x)]);
      LiftStep(keys, []);
      assert [] + LiftKeys(keys) == LiftKeys(keys);
    }
  }

  /** The first scan never claims, and never chokes on, a CHECKSIGADD script. */
  lemma AddScriptIsNotChecksig(curve: Curve, keys: seq<PubKey>)
    requires OnCurve(curve, keys) && |keys| <= 16
    ensures DecodeChecksig(curve, MultisigBytes(Multisig(keys, ChecksigAdd))) == Mismatch
  {
    hide NextToken, Push;
    var end := PushInt(|keys|) + [OP_NUMEQUAL];
    var script := MultisigBytes(Multisig(keys, ChecksigAdd));
    if keys == [] {
      assert script == end;
      NextPushInt(0, [OP_NUMEQUAL]);
    } else {
      var tail := Chain(keys[1..], OP_CHECKSIGADD) + end;
      assert script == KeyOp(keys[0], OP_CHECKSIG) + tail;
      OneKeyScan(curve, keys[0], tail);
    }
  }

  /** After the first CHECKSIG the scan has one key, which alone does not compile to a longer script. */
  lemma OneKeyScan(curve: Curve, key: PubKey, tail: Bytes)
    requires curve(key.x) && tail != []
    ensures DecodeChecksig(curve, KeyOp(key, OP_CHECKSIG) + tail) == Mismatch
  {
    hide NextToken, KeyOp, MultisigScript;
    NextKeyOp(key, OP_CHECKSIG, tail);
    var one := [LiftKey(key.x)];
    assert [] + one == one;
    assert ScanChecksig(curve, KeyOp(key, OP_CHECKSIG) + tail, []) == Valid(one);
    OneKeyRebuilt(key);
    assert |KeyOp(key, OP_CHECKSIG) + tail| != |KeyOp(key, OP_CHECKSIG)|;
  }

  lemma OneKeyRebuilt(key: PubKey)
    ensures MultisigScript(Multisig([LiftKey(key.x)], Checksig)) == Ok(KeyOp(key, OP_CHECKSIG))
  {
    var one := [LiftKey(key.x)];
    assert Front(one) == [];
    assert [] + KeyOp(one[0], OP_CHECKSIG) == KeyOp(one[0], OP_CHECKSIG);
  }

  lemma DecodesMultisig(curve: Curve, m: Multisig)
    requires MultisigScript(m).Ok? && DecodableMultisig(curve, m)
    ensures DecodeMultisig(curve, MultisigScript(m).value) == Valid(LiftMultisig(m))
  {
    MultisigLift(m);
    match m.kind
    case Checksig => ScanChecksigScript(curve, m.pubKeys);
    case ChecksigAdd =>
      ScanChecksigAddScript(curve, m.pubKeys);
      AddScriptIsNotChecksig(curve, m.pubKeys);
  }

  /** Whatever the multisig decoder accepts is the script of what it returns. */
  lemma MultisigSound(curve: Curve, script: Bytes)
    requires DecodeMultisig(curve, script).Valid?
    ensures var m := DecodeMultisig(curve, script).value;
            MultisigScript(m) == Ok(script) && LiftMultisig(m) == m && DecodableMultisig(curve, m)
  {
    if DecodeChecksig(curve, script).Valid? {
      ScanChecksigKeys(curve, script, []);
    } else {
      ScanChecksigAddKeys(curve, script, []);
    }
  }

  /** The multisig decoder inverts the multisig compiler on exactly the decodable closures. */
  lemma MultisigRoundTrip(curve: Curve, m: Multisig)
    requires MultisigScript(m).Ok?
    ensures DecodeMultisig(curve, MultisigScript(m).value) == Valid(LiftMultisig(m)) <==> DecodableMultisig(curve, m)
  {
    if DecodableMultisig(curve, m) {
      DecodesMultisig(curve, m);
    }
    if DecodeMultisig(curve, MultisigScript(m).value) == Valid(LiftMultisig(m)) {
      MultisigSound(curve, MultisigScript(m).value);
      forall i | 0 <= i < |m.pubKeys| ensures curve(m.pubKeys[i].x) {
        assert LiftKeys(m.pubKeys)[i].x == m.pubKeys[i].x;
      }
    }
  }

  // ------------------------------------------------------- decoder agreement

  /** The only opcodes at token positions of an accepted multisig script. */
  predicate MultisigOp(op: byte) {
    op == OP_DATA_32 || IsSmallInt(op)
    || op == OP_CHECKSIG || op == OP_CHECKSIGVERIFY || op == OP_CHECKSIGADD || op == OP_NUMEQUAL
  }

  predicate NotVerify(op: byte) {
    op != OP_VERIFY
  }

  lemma {:induction false} TokensWeaken(script: Bytes, p: byte -> bool, q: byte -> bool)
    requires Tokens(script, p) && forall op :: p(op) ==> q(op)
    ensures Tokens(script, q)
    decreases |script|
  {
    if NextToken(script).Tok? {
      TokensWeaken(NextToken(script).rest, p, q);
    }
  }

  lemma KeyOpTokens(key: PubKey, op: byte, rest: Bytes)
    requires op > OP_PUSHDATA4 && MultisigOp(op)
    ensures Tokens(KeyOp(key, op) + rest, MultisigOp) == Tokens(rest, MultisigOp)
  {
    NextKeyOp(key, op, rest);
  }

  lemma {:induction false} ChainTokens(keys: seq<PubKey>, op: byte, rest: Bytes)
    requires op > OP_PUSHDATA4 && MultisigOp(op)
    ensures Tokens(Chain(keys, op) + rest, MultisigOp) == Tokens(rest, MultisigOp)
  {
    if keys == [] {
      assert Chain(keys, op) + rest == rest;
    } else {
      assert Chain(keys, op) + rest == KeyOp(keys[0], op) + (Chain(keys[1..], op) + rest);
      KeyOpTokens(keys[0], op, Chain(keys[1..], op) + rest);
      ChainTokens(keys[1..], op, rest);
    }
  }

  lemma MultisigTokens(m: Multisig)
    requires |m.pubKeys| <= MAX_SCRIPT_SIZE && (m.kind == ChecksigAdd ==> |m.pubKeys| <= 16)
    ensures Tokens(MultisigBytes(m), MultisigOp)
  {
    var keys := m.pubKeys;
    match m.kind
    case Checksig =>
      if keys != [] {
        var last := KeyOp(Last(keys), OP_CHECKSIG);
        ChainTokens(Front(keys), OP_CHECKSIGVERIFY, last);
        KeyOpTokens(Last(keys), OP_CHECKSIG, []);
        assert last + [] == last;
      }
    case ChecksigAdd =>
      var end := PushInt(|keys|) + [OP_NUMEQUAL];
      NextPushInt(|keys|, [OP_NUMEQUAL]);
      NextOp(OP_NUMEQUAL, []);
      assert [OP_NUMEQUAL] + [] == [OP_NUMEQUAL];
      assert Tokens(end, MultisigOp);
      if keys == [] {
        assert MultisigBytes(m) == end;
      } else {
        assert MultisigBytes(m) == KeyOp(keys[0], OP_CHECKSIG) + (Chain(keys[1..], OP_CHECKSIGADD) + end);
        KeyOpTokens(keys[0], OP_CHECKSIG, Chain(keys[1..], OP_CHECKSIGADD) + end);
        ChainTokens(keys[1..], OP_CHECKSIGADD, end);
      }
  }

  lemma AcceptedMultisigTokens(curve: Curve, script: Bytes)
    requires DecodeMultisig(curve, script).Valid?
    ensures Tokens(script, MultisigOp) && Tokens(script, NotVerify)
  {
    MultisigSound(curve, script);
    MultisigTokens(DecodeMultisig(curve, script).value);
    TokensWeaken(script, MultisigOp, NotVerify);
  }

  lemma {:induction false} NoVerifyNoTail(script: Bytes)
    requires Tokens(script, NotVerify)
    ensures ScanCondition(script).1 == []
    decreases |script|
  {
    if NextToken(script).Tok? {
      NoVerifyNoTail(NextToken(script).rest);
    }
  }

  lemma CSVAccepted(curve: Curve, script: Bytes)
    requires DecodeCSV(curve, script).Valid?
    ensures var first := NextToken(script);
            && first.Tok?
            && var csv := NextToken(first.rest);
            && csv.Tok? && csv.op == OP_CHECKSEQUENCEVERIFY
            && var drop := NextToken(csv.rest);
            && drop.Tok? && drop.op == OP_DROP && DecodeMultisig(curve, drop.rest).Valid?
  {
    hide NextToken, DecodeMultisig;
  }

  /** The tokens of an accepted CSV script: one free token, two fixed ones, then a multisig. */
  lemma CSVTokenKinds(curve: Curve, script: Bytes)
    requires DecodeCSV(curve, script).Valid?
    ensures NextToken(script).Tok?
    ensures !Tokens(script, MultisigOp) && !Tokens(NextToken(script).rest, MultisigOp)
    ensures NextToken(script).op != OP_VERIFY ==> Tokens(script, NotVerify)
  {
    hide NextToken, DecodeMultisig, DecodeCSV;
    CSVAccepted(curve, script);
    var first := NextToken(script);
    var csv := NextToken(first.rest);
    var drop := NextToken(csv.rest);
    AcceptedMultisigTokens(curve, drop.rest);
    assert Tokens(csv.rest, NotVerify) && Tokens(first.rest, NotVerify);
  }

  lemma CSVExcludesOthers(curve: Curve, script: Bytes)
    requires DecodeCSV(curve, script).Valid?
    ensures !DecodeMultisig(curve, script).Valid? && !DecodeCondition(curve, script).Valid?
  {
    assert DecodeMultisig(curve, []) == Error;
    hide NextToken, DecodeMultisig, DecodeCSV;
    CSVTokenKinds(curve, script);
    var first := NextToken(script);
    if DecodeMultisig(curve, script).Valid? {
      AcceptedMultisigTokens(curve, script);
    }
    if first.op == OP_VERIFY {
      if DecodeMultisig(curve, first.rest).Valid? {
        AcceptedMultisigTokens(curve, first.rest);
      }
    } else {
      NoVerifyNoTail(script);
    }
  }

  /** No byte string is accepted by two of the three decoders, so the order in which
      DecodeClosure tries them cannot change its result. */
  lemma DecodersDisjoint(curve: Curve, script: Bytes)
    ensures DecodeCSV(curve, script).Valid? ==>
              !DecodePlain(curve, script).Valid? && !DecodeCondition(curve, script).Valid?
    ensures DecodePlain(curve, script).Valid? ==>
              !DecodeCSV(curve, script).Valid? && !DecodeCondition(curve, script).Valid?
    ensures DecodeCondition(curve, script).Valid? ==>
              !DecodeCSV(curve, script).Valid? && !DecodePlain(curve, script).Valid?
  {
    if DecodeCSV(curve, script).Valid? {
      CSVExcludesOthers(curve, script);
    }
    if DecodeMultisig(curve, script).Valid? {
      AcceptedMultisigTokens(curve, script);
      NoVerifyNoTail(script);
    }
  }

  // ------------------------------------------------------- condition scripts

  lemma ScanConditionStep(script: Bytes, more: Bytes)
    requires NextToken(script).Tok? && ConditionOp(NextToken(script).op)
    ensures var t := NextToken(script);
            var (condition, tail) := ScanCondition(t.rest + more);
            ScanCondition(script + more) == ([t.op] + t.data + condition, tail)
  {
    NextAppend(script, more);
  }

  lemma TokenBytes(script: Bytes)
    requires NextToken(script).Tok? && ConditionOp(NextToken(script).op)
    ensures var t := NextToken(script);
            script == [t.op] + t.data + t.rest
  {
  }

  lemma {:induction false} ScanWellFormedCondition(condition: Bytes, rest: Bytes)
    requires Tokens(condition, ConditionOp)
    ensures ScanCondition(condition + ([OP_VERIFY] + rest)) == (condition, rest)
    decreases |condition|
  {
    var more := [OP_VERIFY] + rest;
    if condition == [] {
      assert condition + more == more;
      NextOp(OP_VERIFY, rest);
    } else {
      ScanConditionStep(condition, more);
      ScanWellFormedCondition(NextToken(condition).rest, rest);
      TokenBytes(condition);
    }
  }

  /** Only direct pushes are copied without loss, so a rebuilt condition that fits has no other. */
  lemma {:induction false} ScanConditionExact(script: Bytes)
    ensures var (condition, tail) := ScanCondition(script);
            NextToken(tail).Tok? ==>
              && |condition| + 1 + |tail| <= |script|
              && (|condition| + 1 + |tail| == |script| ==> Tokens(condition, ConditionOp))
    decreases |script|
  {
    hide LittleEndian;
    var t := NextToken(script);
    if t.Tok? && t.op != OP_VERIFY {
      var (condition, tail) := ScanCondition(script);
      var (condition', tail') := ScanCondition(t.rest);
      ScanConditionExact(t.rest);
      assert 1 + |t.data| + |t.rest| <= |script|;
      if NextToken(tail).Tok? && |condition| + 1 + |tail| == |script| {
        assert ConditionOp(t.op);
        TokenHead(t.op, t.data, condition');
      }
    }
  }

  lemma TokenHead(op: byte, data: Bytes, rest: Bytes)
    requires IsDirectPush(op) ==> |data| == op
    requires !IsDirectPush(op) ==> data == []
    requires ConditionOp(op)
    ensures NextToken([op] + data + rest) == Tok(op, data, rest)
  {
    var s := [op] + data + rest;
    assert s[1..1 + |data|] == data && s[1 + |data|..] == rest;
  }

  lemma AcceptedStartsWithToken(curve: Curve, script: Bytes)
    requires DecodeMultisig(curve, script).Valid?
    ensures NextToken(script).Tok?
  {
    hide NextToken;
  }

  lemma ConditionDecodes(curve: Curve, condition: Bytes, m: Multisig)
    requires ConditionScript(condition, m).Ok?
    requires Tokens(condition, ConditionOp) && DecodableMultisig(curve, m)
    ensures DecodeCondition(curve, ConditionScript(condition, m).value) == Valid(Condition(condition, LiftMultisig(m)))
  {
    hide DecodeMultisig, NextToken, ScanCondition, Tokens, MultisigScript, Chain;
    var tail := MultisigScript(m).value;
    assert condition + [OP_VERIFY] + tail == condition + ([OP_VERIFY] + tail);
    ScanWellFormedCondition(condition, tail);
    MultisigLift(m);
    DecodesMultisig(curve, m);
  }

  lemma DecodesOnlyConditions(curve: Curve, condition: Bytes, m: Multisig)
    requires ConditionScript(condition, m).Ok?
    requires DecodeCondition(curve, ConditionScript(condition, m).value) == Valid(Condition(condition, LiftMultisig(m)))
    ensures Tokens(condition, ConditionOp) && DecodableMultisig(curve, m)
  {
    hide DecodeMultisig, NextToken, ScanCondition, Tokens, MultisigScript, Chain, LiftMultisig;
    var script := ConditionScript(condition, m).value;
    var tail := ScanCondition(script).1;
    AcceptedStartsWithToken(curve, tail);
    MultisigSound(curve, tail);
    MultisigLift(m);
    MultisigRoundTrip(curve, m);
    ScanConditionExact(script);
  }

  /** A condition closure survives decoding exactly when its condition consists of whole tokens,
      none of them OP_VERIFY or a PUSHDATA push: pushed data may contain any byte. */
  lemma ConditionRoundTrip(curve: Curve, condition: Bytes, m: Multisig)
    requires ConditionScript(condition, m).Ok?
    ensures DecodeCondition(curve, ConditionScript(condition, m).value) == Valid(Condition(condition, LiftMultisig(m)))
       <==> Tokens(condition, ConditionOp) && DecodableMultisig(curve, m)
  {
    hide DecodeCondition, Tokens;
    if Tokens(condition, ConditionOp) && DecodableMultisig(curve, m) {
      ConditionDecodes(curve, condition, m);
    }
    if DecodeCondition(curve, ConditionScript(condition, m).value) == Valid(Condition(condition, LiftMultisig(m))) {
      DecodesOnlyConditions(curve, condition, m);
    }
  }

  // ------------------------------------------------------- CSV scripts

  lemma CSVTokens(first: Bytes, t: Next, script: Bytes)
    requires t.Tok? && t.rest == [] && NextToken(first) == t
    ensures var rest := [OP_CHECKSEQUENCEVERIFY] + ([OP_DROP] + script);
            && NextToken(first + [OP_CHECKSEQUENCEVERIFY, OP_DROP] + script) == t.(rest := rest)
            && NextToken(rest) == Tok(OP_CHECKSEQUENCEVERIFY, [], [OP_DROP] + script)
            && NextToken([OP_DROP] + script) == Tok(OP_DROP, [], script)
  {
    var rest := [OP_CHECKSEQUENCEVERIFY] + ([OP_DROP] + script);
    assert first + [OP_CHECKSEQUENCEVERIFY, OP_DROP] + script == first + rest;
    NextAppend(first, rest);
    assert [] + rest == rest;
    NextOp(OP_CHECKSEQUENCEVERIFY, [OP_DROP] + script);
    NextOp(OP_DROP, script);
  }

  /** The CSV decoder on any first token followed by the two opcodes. */
  lemma DecodeCSVParts(curve: Curve, first: Bytes, t: Next, script: Bytes)
    requires t.Tok? && t.rest == [] && NextToken(first) == t
    ensures DecodeCSV(curve, first + [OP_CHECKSEQUENCEVERIFY, OP_DROP] + script) ==
            match DecodeSequence(if IsSmallInt(t.op) then [t.op] else t.data) {
              case Err => Error
              case Ok(locktime) =>
                match DecodeMultisig(curve, script)
                case Valid(m) => Valid(CSV(locktime, m))
                case Mismatch => Mismatch
                case Error => Error
            }
  {
    CSVTokens(first, t, script);
  }

  lemma CSVRoundTrip(curve: Curve, locktime: RelativeLocktime, m: Multisig)
    requires CSVScript(locktime, m).Ok?
    ensures DecodeCSV(curve, CSVScript(locktime, m).value) == Valid(CSV(locktime, LiftMultisig(m)))
       <==> SurvivesCSV(locktime) && DecodableMultisig(curve, m)
  {
    var n := BIP68Sequence(locktime).value;
    NextPushInt(n, []);
    assert PushInt(n) + [] == PushInt(n);
    DecodeCSVParts(curve, PushInt(n), NextToken(PushInt(n)), MultisigScript(m).value);
    LocktimeRoundTrip(locktime);
    MultisigRoundTrip(curve, m);
  }

  // ------------------------------------------------------- all closures

  /** With the decoders disjoint, DecodeClosure is the decoder of the closure's own kind. */
  lemma DecodeByKind(curve: Curve, script: Bytes, c: Closure)
    ensures Decode(curve, script) == Ok(c) <==>
            match c {
              case Plain(_) => DecodePlain(curve, script) == Valid(c)
              case CSV(_, _) => DecodeCSV(curve, script) == Valid(c)
              case Condition(_, _) => DecodeCondition(curve, script) == Valid(c)
            }
  {
    DecodersDisjoint(curve, script);
    DecodedKinds(curve, script);
  }

  lemma DecodedKinds(curve: Curve, script: Bytes)
    ensures DecodeCSV(curve, script).Valid? ==> DecodeCSV(curve, script).value.CSV? && script != []
    ensures DecodePlain(curve, script).Valid? ==> DecodePlain(curve, script).value.Plain? && script != []
    ensures DecodeCondition(curve, script).Valid? ==> DecodeCondition(curve, script).value.Condition? && script != []
  {
  }

  /** `DecodeClosure(c.Script())` gives the closure back, up to the key parity that scripts do not
      carry, exactly when the closure is decodable. */
  lemma ClosureRoundTrip(curve: Curve, c: Closure)
    requires Script(c).Ok?
    ensures Decode(curve, Script(c).value) == Ok(Lift(c)) <==> Decodable(curve, c)
  {
    var script := Script(c).value;
    DecodeByKind(curve, script, Lift(c));
    match c
    case Plain(m) => MultisigRoundTrip(curve, m);
    case CSV(locktime, m) => CSVRoundTrip(curve, locktime, m);
    case Condition(condition, m) => ConditionRoundTrip(curve, condition, m);
  }

  /** DecodeClosure returns a multisig or condition closure for a script exactly when that closure
      compiles to the script, holds even keys only, and is decodable. */
  lemma DecodeIsFaithful(curve: Curve, script: Bytes, c: Closure)
    requires !c.CSV?
    ensures Decode(curve, script) == Ok(c) <==> Script(c) == Ok(script) && Lift(c) == c && Decodable(curve, c)
  {
    hide Decode, DecodeMultisig, ScanCondition, MultisigScript, LiftMultisig, DecodableMultisig, Tokens;
    DecodeByKind(curve, script, c);
    if Decode(curve, script) == Ok(c) {
      match c
      case Plain(m) => MultisigSound(curve, script);
      case Condition(condition, m) =>
        MultisigSound(curve, ScanCondition(script).1);
        DecodesOnlyConditions(curve, condition, m);
    }
    if Script(c) == Ok(script) && Lift(c) == c && Decodable(curve, c) {
      ClosureRoundTrip(curve, c);
    }
  }

  // ------------------------------------------------------- CSV scripts that come back

  /** The first tokens that the compiler writes for the locktime they are read as: a small integer from
      1, or a direct push of a shortest number that is no opcode of a small integer and has no bit that
      reading drops. */
  predicate CanonicalLocktime(t: Next) {
    t.Tok? &&
    (OP_1 <= t.op <= OP_16 ||
     (&& IsDirectPush(t.op) && ScriptNum.Minimal(t.data)
      && var n := ScriptNum.Value(t.data);
      && 16 < n < DISABLE_FLAG && !(OP_1 <= n <= OP_16)
      && (HasBit(n, TYPE_FLAG) ==> n < TYPE_FLAG + SEQUENCE_MASK)))
  }

  /** The bytes of a script's first token. */
  function Head(script: Bytes): Bytes
    requires NextToken(script).Tok?
  {
    script[..|script| - |NextToken(script).rest|]
  }

  lemma OneByteToken(script: Bytes)
    requires NextToken(script).Tok? && NextToken(script).op > OP_PUSHDATA4
    ensures script == [NextToken(script).op] + NextToken(script).rest
  {
  }

  lemma HeadJoins(script: Bytes)
    requires NextToken(script).Tok?
    ensures script == Head(script) + NextToken(script).rest
  {
    hide NextToken;
  }

  lemma CSVTokensJoin(script: Bytes)
    requires NextToken(script).Tok?
    requires var csv := NextToken(NextToken(script).rest);
             && csv.Tok? && csv.op == OP_CHECKSEQUENCEVERIFY
             && NextToken(csv.rest).Tok? && NextToken(csv.rest).op == OP_DROP
    ensures var tail := NextToken(NextToken(NextToken(script).rest).rest).rest;
            script == Head(script) + [OP_CHECKSEQUENCEVERIFY, OP_DROP] + tail
  {
    hide NextToken, Head;
    var rest := NextToken(script).rest;
    HeadJoins(script);
    OneByteToken(rest);
    OneByteToken(NextToken(rest).rest);
    assert rest == [OP_CHECKSEQUENCEVERIFY, OP_DROP] + NextToken(NextToken(rest).rest).rest;
  }

  /** An accepted CSV script is its first token, the two opcodes and a multisig script. */
  lemma CSVParts(curve: Curve, script: Bytes)
    requires DecodeCSV(curve, script).Valid?
    ensures var t, c := NextToken(script), DecodeCSV(curve, script).value;
            && t.Tok? && c.CSV? && MultisigScript(c.multisig).Ok?
            && DecodeSequence(if IsSmallInt(t.op) then [t.op] else t.data) == Ok(c.locktime)
            && script == Head(script) + [OP_CHECKSEQUENCEVERIFY, OP_DROP] + MultisigScript(c.multisig).value
  {
    hide DecodeMultisig, DecodeSequence, MultisigScript, NextToken, Head;
    CSVAccepted(curve, script);
    CSVTokensJoin(script);
    MultisigSound(curve, NextToken(NextToken(NextToken(script).rest).rest).rest);
  }

  lemma HeadBytes(script: Bytes)
    requires NextToken(script).Tok?
    ensures var t := NextToken(script);
            && (IsDirectPush(t.op) ==> |t.data| == t.op && Head(script) == Push(t.data))
            && (OP_PUSHDATA1 <= t.op <= OP_PUSHDATA4 ==> Head(script) != [] && Head(script)[0] == t.op)
            && (t.op == OP_0 || t.op > OP_PUSHDATA4 ==> t.data == [] && Head(script) == [t.op])
  {
    hide LittleEndian;
    var t := NextToken(script);
    assert script == Head(script) + t.rest;
  }

  lemma PushIsInt(data: Bytes, n: uint32)
    requires 1 <= |data| <= 75
    ensures PushInt(n) == Push(data) <==> n > 16 && ScriptNum.Encode(n) == data
  {
    hide ScriptNum.Encode;
    NextPushInt(n, []);
    if n > 16 {
      assert Push(data)[1..] == data && Push(ScriptNum.Encode(n))[1..] == ScriptNum.Encode(n);
    }
  }

  /** What a direct push of a shortest number is read as, and written back as. */
  lemma PushReencodes(data: Bytes, locktime: RelativeLocktime)
    requires 1 <= |data| <= 75 && DecodeSequence(data) == Ok(locktime)
    ensures BIP68Sequence(locktime).Ok?
    ensures PushInt(BIP68Sequence(locktime).value) == Push(data) <==> CanonicalLocktime(Tok(|data|, data, []))
  {
    hide HasBit, ScriptNum.Encode, ScriptNum.Value, ScriptNum.Minimal, PushInt, Push;
    var raw, n := ScriptNum.Value(data), BIP68Sequence(locktime).value;
    PushIsInt(data, n);
    ScriptNum.EncodeDecode(n);
    ScriptNum.DecodeEncode(data);
    NumberReencodes(raw, n, locktime);
  }

  /** The number read is the number written exactly when nothing was remapped or dropped. */
  lemma NumberReencodes(raw: int, n: uint32, locktime: RelativeLocktime)
    requires var seen := if OP_1 <= raw <= OP_16 then raw - (OP_1 - 1) else raw;
             !HasBit(seen, DISABLE_FLAG) &&
             locktime == if HasBit(seen, TYPE_FLAG) then RelativeLocktime(Second, (seen % SEQUENCE_MASK) * GRANULARITY)
                         else RelativeLocktime(Block, seen % 0x1_0000_0000)
    requires BIP68Sequence(locktime) == Ok(n)
    ensures n > 16 && n == raw <==>
            && 16 < raw < DISABLE_FLAG && !(OP_1 <= raw <= OP_16)
            && (HasBit(raw, TYPE_FLAG) ==> raw < TYPE_FLAG + SEQUENCE_MASK)
  {
  }

  lemma SmallIntReencodes(op: byte, locktime: RelativeLocktime)
    requires IsSmallInt(op) && DecodeSequence([op]) == Ok(locktime)
    ensures op != OP_0 && locktime == RelativeLocktime(Block, op - (OP_1 - 1))
  {
    assert ScriptNum.Value([op]) == op % 128;
  }

  lemma NoNumber(locktime: RelativeLocktime)
    requires DecodeSequence([]) == Ok(locktime)
    ensures locktime == RelativeLocktime(Block, 0)
  {
  }

  lemma DecodedLocktimeIsValid(sequence: Bytes)
    requires DecodeSequence(sequence).Ok?
    ensures BIP68Sequence(DecodeSequence(sequence).value).Ok?
  {
    hide HasBit, ScriptNum.Value, ScriptNum.Minimal;
  }

  lemma PushIntFront(n: uint32)
    ensures PushInt(n) != [] && (PushInt(n)[0] <= OP_DATA_75 || OP_1 <= PushInt(n)[0] <= OP_16)
    ensures n == 0 ==> PushInt(n) == [OP_0]
  {
    hide ScriptNum.Encode;
    NextPushInt(n, []);
  }

  /** The locktime read from a token is written back as that token exactly for the canonical ones. */
  lemma LocktimeReencodes(script: Bytes, locktime: RelativeLocktime)
    requires var t := NextToken(script);
             t.Tok? && DecodeSequence(if IsSmallInt(t.op) then [t.op] else t.data) == Ok(locktime)
    ensures BIP68Sequence(locktime).Ok?
    ensures PushInt(BIP68Sequence(locktime).value) == Head(script) <==> CanonicalLocktime(NextToken(script))
  {
    hide NextToken, Head, DecodeSequence, HasBit, ScriptNum.Value, ScriptNum.Minimal, ScriptNum.Encode;
    var t := NextToken(script);
    HeadBytes(script);
    DecodedLocktimeIsValid(if IsSmallInt(t.op) then [t.op] else t.data);
    if IsDirectPush(t.op) {
      PushReencodes(t.data, locktime);
    } else if IsSmallInt(t.op) {
      SmallIntReencodes(t.op, locktime);
    } else {
      hide PushInt;
      PushIntFront(BIP68Sequence(locktime).value);
      if t.data == [] {
        NoNumber(locktime);
      }
    }
  }

  /** A CSV script that decodes is compiled back to itself exactly when its first token is canonical. */
  lemma CSVReencodes(curve: Curve, script: Bytes)
    requires DecodeCSV(curve, script).Valid?
    ensures Script(DecodeCSV(curve, script).value) == Ok(script) <==> CanonicalLocktime(NextToken(script))
  {
    hide DecodeCSV, DecodeSequence, MultisigScript, NextToken, CanonicalLocktime, BIP68Sequence, PushInt, Head;
    CSVParts(curve, script);
    var c := DecodeCSV(curve, script).value;
    LocktimeReencodes(script, c.locktime);
    var push, tail := PushInt(BIP68Sequence(c.locktime).value), MultisigScript(c.multisig).value;
    assert Script(c) == Ok(push + [OP_CHECKSEQUENCEVERIFY, OP_DROP] + tail);
    if push + [OP_CHECKSEQUENCEVERIFY, OP_DROP] + tail == Head(script) + [OP_CHECKSEQUENCEVERIFY, OP_DROP] + tail {
      SameFront(push, Head(script), [OP_CHECKSEQUENCEVERIFY, OP_DROP], tail);
    }
  }

  /** So what DecodeClosure returns compiles back to the script, unless it is a CSV closure read from
      a first token that is not canonical. */
  lemma DecodedReencodes(curve: Curve, script: Bytes)
    requires Decode(curve, script).Ok?
    ensures var c := Decode(curve, script).value;
            Script(c) == Ok(script) <==> (c.CSV? ==> CanonicalLocktime(NextToken(script)))
  {
    hide Decode, DecodeCSV, DecodePlain, DecodeCondition, CanonicalLocktime, NextToken, Script;
    var c := Decode(curve, script).value;
    DecodeByKind(curve, script, c);
    if c.CSV? {
      CSVReencodes(curve, script);
    } else {
      DecodeIsFaithful(curve, script, c);
    }
  }

  lemma SameFront(a: Bytes, b: Bytes, middle: Bytes, tail: Bytes)
    requires a + middle + tail == b + middle + tail
    ensures a == b
  {
    assert a == (a + middle + tail)[..|a|] && b == (b + middle + tail)[..|b|];
  }

  /** For example, any token without data stands for locktime zero, which the compiler writes as OP_0. */
  lemma CSVDecoderIsNotCanonical(curve: Curve, m: Multisig)
    requires MultisigScript(m).Ok? && DecodableMultisig(curve, m)
    ensures var script := [OP_VERIFY, OP_CHECKSEQUENCEVERIFY, OP_DROP] + MultisigScript(m).value;
            && Decode(curve, script) == Ok(CSV(RelativeLocktime(Block, 0), LiftMultisig(m)))
            && Script(Decode(curve, script).value) != Ok(script)
  {
    hide DecodeCSV, Decode, DecodeMultisig, DecodableMultisig, MultisigScript, DecodePlain, DecodeCondition;
    var tail := MultisigScript(m).value;
    var c := CSV(RelativeLocktime(Block, 0), LiftMultisig(m));
    var script := [OP_VERIFY, OP_CHECKSEQUENCEVERIFY, OP_DROP] + tail;
    assert DecodeCSV(curve, script) == Valid(c) by {
      DecodesMultisig(curve, m);
      DecodeWithoutNumber(curve, tail, LiftMultisig(m));
    }
    DecodeByKind(curve, script, c);
    assert Script(c) == Ok(CSVPrefix(0) + tail) by { MultisigLift(m); }
    assert (CSVPrefix(0) + tail)[0] == OP_0;
  }

  lemma DecodeWithoutNumber(curve: Curve, tail: Bytes, m: Multisig)
    requires DecodeMultisig(curve, tail) == Valid(m)
    ensures DecodeCSV(curve, [OP_VERIFY, OP_CHECKSEQUENCEVERIFY, OP_DROP] + tail)
         == Valid(CSV(RelativeLocktime(Block, 0), m))
  {
    hide DecodeCSV, DecodeMultisig, LittleEndian;
    var script := [OP_VERIFY, OP_CHECKSEQUENCEVERIFY, OP_DROP] + tail;
    assert script == [OP_VERIFY] + [OP_CHECKSEQUENCEVERIFY, OP_DROP] + tail;
    assert NextToken([OP_VERIFY]) == Tok(OP_VERIFY, [], []);
    DecodeCSVParts(curve, [OP_VERIFY], NextToken([OP_VERIFY]), tail);
    assert DecodeSequence([]) == Ok(RelativeLocktime(Block, 0));
  }
}
