/** Relative lock times as the chain enforces them ('Specification' of BIP 68). */
module RelativeLocks {
  import opened Basics
  import opened Locktime
  import opened Interpreter

  /** How long ago the spent output was confirmed, in blocks and in seconds of median time. */
  datatype Age = Age(blocks: nat, seconds: nat)

  /** Whether an input with this nSequence may spend an output of this age. */
  predicate SequenceLock(sequence: uint32, age: Age) {
    || HasBit(sequence, DISABLE_FLAG)
    || if HasBit(sequence, TYPE_FLAG) then age.seconds >= GRANULARITY * (sequence % SEQUENCE_MASK)
       else age.blocks >= sequence % SEQUENCE_MASK
  }

  /** Some nSequence passes both the script's test and the chain's exactly when the operand of the
      script, read as an nSequence itself, passes the chain's. */
  lemma OperandIsLock(operand: uint32, age: Age)
    ensures (exists sequence: uint32 :: SequenceReached(operand, sequence) && SequenceLock(sequence, age))
       <==> SequenceLock(operand, age)
  {
    if SequenceLock(operand, age) {
      assert SequenceReached(operand, operand);
    }
  }

  /** A seconds timeout that is accepted, which is up to 65535 units of 512 seconds, makes the spender wait
      for just that time. */
  lemma EnforcesSeconds(value: uint32, age: Age)
    ensures BIP68Sequence(RelativeLocktime(Second, value)).Ok? <==> value <= 33553920 && value % 512 == 0
    ensures BIP68Sequence(RelativeLocktime(Second, value)).Ok? ==>
              (SequenceLock(BIP68Sequence(RelativeLocktime(Second, value)).value, age) <==> age.seconds >= value)
  {
    if value <= 33553920 && value % 512 == 0 {
      var units := value / 512;
      assert units <= 0xffff && 512 * units == value;
      assert (TYPE_FLAG + units) % SEQUENCE_MASK == units;
      assert !HasBit(TYPE_FLAG + units, DISABLE_FLAG) && HasBit(TYPE_FLAG + units, TYPE_FLAG);
    }
  }

  /** A block timeout makes the spender wait for its number of blocks exactly when it fits the
      16 bits that BIP 68 compares. */
  lemma EnforcesBlocks(timeout: uint32)
    ensures (forall age: Age :: SequenceLock(timeout, age) <==> age.blocks >= timeout) <==> timeout <= 0xffff
  {
    if timeout > 0xffff {
      var early := if HasBit(timeout, DISABLE_FLAG) then Age(0, 0)
                   else if HasBit(timeout, TYPE_FLAG) then Age(0, GRANULARITY * 0xffff)
                   else Age(timeout % SEQUENCE_MASK, 0);
      assert SequenceLock(timeout, early) && early.blocks < timeout;
    }
  }
}

/** The four-leaf escrow and who can open it (pkg/escrow/escrow.go). */
module Escrow {
  import opened Basics
  import opened Opcodes
  import opened Tokenizer
  import opened Locktime
  import opened ClosureSpec
  import opened Interpreter
  import opened CompileProofs
  import opened RelativeLocks
  import ClosureProofs
  import ScriptNum

  /** A nil public key is `None`. */
  datatype EscrowParams = EscrowParams(
    seller: Option<PubKey>, buyer: Option<PubKey>, oracle: Option<PubKey>,
    secretHash: Bytes32, timeout: RelativeLocktime)

  datatype EscrowScript = EscrowScript(params: EscrowParams, closures: seq<Closure>)

  const RELEASE := 0
  const TIMEOUT := 1
  const DISPUTE_SELLER := 2
  const DISPUTE_BUYER := 3

  /** OP_SHA256 <hash> OP_EQUAL */
  function HashCondition(hash: Bytes32): Bytes {
    [OP_SHA256] + Push(hash) + [OP_EQUAL]
  }

  function NewEscrowScript(params: EscrowParams): Result<EscrowScript> {
    if params.seller.None? || params.buyer.None? || params.oracle.None? then Err
    else
      var seller, buyer, oracle := params.seller.value, params.buyer.value, params.oracle.value;
      Ok(EscrowScript(params, [
        Condition(HashCondition(params.secretHash), Multisig([seller], Checksig)),
        CSV(params.timeout, Multisig([buyer], Checksig)),
        Plain(Multisig([oracle, seller], Checksig)),
        Plain(Multisig([oracle, buyer], Checksig))
      ]))
  }

  /** ElementsLeafScript without its control block: every leaf of the tree has to compile. */
  function LeafScript(closures: seq<Closure>, leaf: int): Result<Bytes> {
    if leaf < 0 || leaf >= |closures| then Err
    else if exists c :: c in closures && Script(c).Err? then Err
    else Script(closures[leaf])
  }

  // ------------------------------------------------------------ leaf scripts

  lemma OneKeyScript(key: PubKey)
    ensures MultisigScript(Multisig([key], Checksig)) == Ok(KeyOp(key, OP_CHECKSIG))
  {
    assert Front([key]) == [] && [] + KeyOp(key, OP_CHECKSIG) == KeyOp(key, OP_CHECKSIG);
  }

  lemma OneKeyChain(key: PubKey, op: byte)
    ensures Chain([key], op) == KeyOp(key, op)
  {
    hide KeyOp;
    assert Chain([key][1..], op) == [];
    assert Chain([key], op) == KeyOp([key][0], op) + Chain([key][1..], op);
  }

  lemma TwoKeyScript(first: PubKey, second: PubKey)
    ensures MultisigScript(Multisig([first, second], Checksig))
         == Ok(KeyOp(first, OP_CHECKSIGVERIFY) + KeyOp(second, OP_CHECKSIG))
  {
    hide KeyOp;
    assert Front([first, second]) == [first];
    OneKeyChain(first, OP_CHECKSIGVERIFY);
    KeyOpLength(first, OP_CHECKSIGVERIFY);
    KeyOpLength(second, OP_CHECKSIG);
  }

  lemma ReleaseBytes(hash: Bytes32, key: PubKey)
    ensures ConditionScript(HashCondition(hash), Multisig([key], Checksig))
         == Ok([0xa8, 0x20] + hash + [0x87, 0x69, 0x20] + key.x + [0xac])
  {
    hide MultisigScript;
    OneKeyScript(key);
    assert HashCondition(hash) + [OP_VERIFY] + KeyOp(key, OP_CHECKSIG)
        == [0xa8, 0x20] + hash + [0x87, 0x69, 0x20] + key.x + [0xac];
  }

  lemma TimeoutBytes(key: PubKey)
    ensures CSVScript(RelativeLocktime(Block, 144), Multisig([key], Checksig))
         == Ok([0x02, 0x90, 0x00, 0xb2, 0x75, 0x20] + key.x + [0xac])
  {
    hide MultisigScript;
    OneKeyScript(key);
    assert ScriptNum.Encode(144) == [0x90, 0x00];
    assert PushInt(144) == [0x02, 0x90, 0x00];
    assert CSVPrefix(144) + KeyOp(key, OP_CHECKSIG) == [0x02, 0x90, 0x00, 0xb2, 0x75, 0x20] + key.x + [0xac];
  }

  lemma DisputeBytes(oracle: PubKey, winner: PubKey)
    ensures MultisigScript(Multisig([oracle, winner], Checksig))
         == Ok([0x20] + oracle.x + [0xad, 0x20] + winner.x + [0xac])
  {
    hide MultisigScript;
    TwoKeyScript(oracle, winner);
    assert KeyOp(oracle, OP_CHECKSIGVERIFY) + KeyOp(winner, OP_CHECKSIG)
        == [0x20] + oracle.x + [0xad, 0x20] + winner.x + [0xac];
  }

  /** The four leaves byte by byte, for the default timeout of 144 blocks. */
  lemma LeafBytes(params: EscrowParams)
    requires NewEscrowScript(params).Ok? && params.timeout == RelativeLocktime(Block, 144)
    ensures var c := NewEscrowScript(params).value.closures;
            var seller, buyer, oracle := params.seller.value.x, params.buyer.value.x, params.oracle.value.x;
            && Script(c[0]) == Ok([0xa8, 0x20] + params.secretHash + [0x87, 0x69, 0x20] + seller + [0xac])
            && Script(c[1]) == Ok([0x02, 0x90, 0x00, 0xb2, 0x75, 0x20] + buyer + [0xac])
            && Script(c[2]) == Ok([0x20] + oracle + [0xad, 0x20] + seller + [0xac])
            && Script(c[3]) == Ok([0x20] + oracle + [0xad, 0x20] + buyer + [0xac])
  {
    hide MultisigScript, CSVScript, ConditionScript;
    ReleaseBytes(params.secretHash, params.seller.value);
    TimeoutBytes(params.buyer.value);
    DisputeBytes(params.oracle.value, params.seller.value);
    DisputeBytes(params.oracle.value, params.buyer.value);
  }

  /** The scripts all compile exactly when the timeout has a BIP 68 form. */
  lemma LeavesCompile(params: EscrowParams, leaf: nat)
    requires NewEscrowScript(params).Ok? && leaf < 4
    ensures var closures := NewEscrowScript(params).value.closures;
            && LeafScript(closures, leaf).Ok? == BIP68Sequence(params.timeout).Ok?
            && (LeafScript(closures, leaf).Ok? ==>
                  forall c :: c in closures ==> Script(c).Ok?)
            && (LeafScript(closures, leaf).Ok? ==> LeafScript(closures, leaf) == Script(closures[leaf]))
  {
    hide BIP68Sequence, MultisigScript, KeyOp;
    var closures := NewEscrowScript(params).value.closures;
    OneKeyScript(params.seller.value);
    OneKeyScript(params.buyer.value);
    TwoKeyScript(params.oracle.value, params.seller.value);
    TwoKeyScript(params.oracle.value, params.buyer.value);
    KeyOpLength(params.seller.value, OP_CHECKSIG);
    assert closures[1] in closures;
    assert Script(closures[1]).Ok? == BIP68Sequence(params.timeout).Ok?;
    assert Script(closures[0]).Ok? && Script(closures[2]).Ok? && Script(closures[3]).Ok?;
  }

  lemma KeyOpLength(key: PubKey, op: byte)
    ensures |KeyOp(key, op)| == 34
  {
  }

  // ------------------------------------------------------------ exact witnesses

  /** [signature, preimage] and nothing else opens a hash lock. */
  lemma HashLockAccepts(env: Env, hash: Bytes32, key: PubKey, stack: Stack)
    requires forall b :: |env.sha256(b)| == 32
    ensures var script := ConditionScript(HashCondition(hash), Multisig([key], Checksig));
            && script.Ok?
            && (Accepts(env, script.value, stack) <==>
                && |stack| == 2 && ValidSig(env, key.x, stack[0])
                && env.sha256(stack[1]) == hash && |stack[1]| <= MAX_ELEMENT)
  {
    hide Exec, Accepts, MultisigScript, Tokens, Truthy;
    var m := Multisig([key], Checksig);
    OneKeyScript(key);
    HashConditionTokens(hash);
    ConditionAccepts(env, HashCondition(hash), m, stack);
    ExecHashCondition(env, hash, stack);
    TruthyBool();
    if stack != [] {
      SignedOne(env, key, Front(stack));
      var left := Front(stack) + [Bool(env.sha256(Last(stack)) == hash)];
      assert Front(left) == Front(stack);
      if |stack| == 2 {
        assert stack == [stack[0], stack[1]];
      }
    }
  }

  lemma TruthyBool()
    ensures Truthy(Bool(true)) && !Truthy(Bool(false))
  {
    assert [1 as byte][0] != 0;
  }

  lemma HashConditionTokens(hash: Bytes32)
    ensures Tokens(HashCondition(hash), AnyOp)
    ensures Tokens(HashCondition(hash), ClosureProofs.ConditionOp)
  {
    assert HashCondition(hash) == [OP_SHA256] + (Push(hash) + [OP_EQUAL]);
    NextOp(OP_SHA256, Push(hash) + [OP_EQUAL]);
    NextPush(hash, [OP_EQUAL]);
    NextOp(OP_EQUAL, []);
    assert [OP_EQUAL] + [] == [OP_EQUAL];
    assert Tokens([OP_EQUAL], AnyOp) && Tokens([OP_EQUAL], ClosureProofs.ConditionOp);
  }

  lemma ExecHashCondition(env: Env, hash: Bytes32, st: Stack)
    requires forall b :: |env.sha256(b)| == 32
    ensures st == [] || |st| > MAX_STACK ==> Exec(env, HashCondition(hash), st) == None
    ensures 0 < |st| < MAX_STACK ==>
              Exec(env, HashCondition(hash), st) == Some(Front(st) + [Bool(env.sha256(Last(st)) == hash)])
    ensures |st| == MAX_STACK ==> Exec(env, HashCondition(hash), st) == None
  {
    hide Exec, StepOp;
    assert HashCondition(hash) == [OP_SHA256] + (Push(hash) + [OP_EQUAL]);
    ExecOp(env, OP_SHA256, Push(hash) + [OP_EQUAL], st);
    StepHash(env, st);
    if st != [] {
      var hashed := Front(st) + [env.sha256(Last(st))];
      ExecPush(env, hash, [OP_EQUAL], hashed);
      ExecOp(env, OP_EQUAL, [], hashed + [hash]);
      assert [OP_EQUAL] + [] == [OP_EQUAL];
      StepEqual(env, Front(st), env.sha256(Last(st)), hash);
      ExecDone(env, Front(st) + [Bool(env.sha256(Last(st)) == hash)]);
    }
  }

  lemma StepHash(env: Env, st: Stack)
    requires forall b :: |env.sha256(b)| == 32
    ensures StepOp(env, OP_SHA256, st) ==
            if st == [] || |st| > MAX_STACK then None else Some(Front(st) + [env.sha256(Last(st))])
  {
  }

  lemma StepEqual(env: Env, st: Stack, a: Bytes, b: Bytes)
    ensures StepOp(env, OP_EQUAL, st + [a] + [b]) == Some(st + [Bool(a == b)])
  {
    var all := st + [a] + [b];
    assert all[..|all| - 2] == st && all[|all| - 2] == a && all[|all| - 1] == b;
  }

  /** [signature] and nothing else opens a timeout, once nSequence reaches the operand. */
  lemma TimeoutAccepts(env: Env, timeout: RelativeLocktime, key: PubKey, stack: Stack)
    requires BIP68Sequence(timeout).Ok?
    ensures var script := CSVScript(timeout, Multisig([key], Checksig));
            && script.Ok?
            && (Accepts(env, script.value, stack) <==>
                && |stack| == 1 && ValidSig(env, key.x, stack[0])
                && SequenceReached(BIP68Sequence(timeout).value, env.sequence))
  {
    hide Accepts, MultisigScript, SequenceReached;
    OneKeyScript(key);
    CSVAccepts(env, timeout, Multisig([key], Checksig), stack);
    SignedOne(env, key, stack);
  }

  /** [winner's signature, oracle's signature] and nothing else opens a dispute leaf. */
  lemma DisputeAccepts(env: Env, oracle: PubKey, winner: PubKey, stack: Stack)
    ensures var script := MultisigScript(Multisig([oracle, winner], Checksig));
            && script.Ok?
            && (Accepts(env, script.value, stack) <==>
                |stack| == 2 && ValidSig(env, winner.x, stack[0]) && ValidSig(env, oracle.x, stack[1]))
  {
    hide Accepts, MultisigScript;
    TwoKeyScript(oracle, winner);
    MultisigAccepts(env, Multisig([oracle, winner], Checksig), stack);
    SignedStep(env, [oracle, winner], stack);
    if stack != [] {
      assert [oracle, winner][1..] == [winner];
      SignedOne(env, winner, Front(stack));
    }
  }

  // ------------------------------------------------------------ access structure

  /** Hash and signature scheme: a signature is for a key and a message, and the message commits to
      the leaf and to the chosen nSequence. */
  datatype Scheme = Scheme(
    sha256: Bytes -> Bytes,
    verify: (Bytes, Bytes, Bytes) -> bool,
    message: (Bytes, uint32) -> Bytes)

  /** A script sees the signatures of one message. */
  function MessageEnv(sha256: Bytes -> Bytes, verify: (Bytes, Bytes, Bytes) -> bool, message: Bytes,
                      sequence: uint32): Env {
    Env(sha256, (key, sig) => verify(key, message, sig), sequence)
  }

  function LeafEnv(scheme: Scheme, script: Bytes, sequence: uint32): Env {
    MessageEnv(scheme.sha256, scheme.verify, scheme.message(script, sequence), sequence)
  }

  predicate ValidFor(verify: (Bytes, Bytes, Bytes) -> bool, key: Bytes, message: Bytes, sig: Bytes) {
    (|sig| == 64 || |sig| == 65) && verify(key, message, sig)
  }

  ghost predicate CanSign(verify: (Bytes, Bytes, Bytes) -> bool, produces: Bytes -> bool, key: Bytes, message: Bytes) {
    exists sig :: produces(sig) && ValidFor(verify, key, message, sig)
  }

  /** The spender puts on the stack what it can produce; it can produce a valid signature of any
      message for the keys it holds, and for no others. */
  ghost predicate HoldsKeys(verify: (Bytes, Bytes, Bytes) -> bool, produces: Bytes -> bool, keys: set<Bytes>) {
    forall key, message :: CanSign(verify, produces, key, message) <==> key in keys
  }

  /** For any x-only keys there is a scheme in which a spender holds just those. */
  lemma HoldersExist(keys: set<Bytes>)
    requires forall key :: key in keys ==> |key| == 32
    ensures exists scheme: Scheme, produces ::
              HoldsKeys(scheme.verify, produces, keys) && forall b :: |scheme.sha256(b)| == 32
  {
    var zeros: Bytes := seq(32, _ => 0);
    var scheme := Scheme((b: Bytes) => zeros, (key: Bytes, message: Bytes, sig: Bytes) => sig == key + key,
                         (script, sequence) => script);
    var produces := (sig: Bytes) => exists key :: key in keys && sig == key + key;
    forall key, message ensures CanSign(scheme.verify, produces, key, message) <==> key in keys {
      if key in keys {
        assert produces(key + key) && ValidFor(scheme.verify, key, message, key + key);
      }
      if CanSign(scheme.verify, produces, key, message) {
        var sig :| produces(sig) && ValidFor(scheme.verify, key, message, sig);
        var holder :| holder in keys && sig == holder + holder;
        assert key == sig[..|key|] == holder;
      }
    }
    assert HoldsKeys(scheme.verify, produces, keys);
  }

  ghost predicate Spends(scheme: Scheme, produces: Bytes -> bool, age: Age, script: Bytes, sequence: uint32,
                         stack: Stack) {
    && (forall item :: item in stack ==> produces(item))
    && SequenceLock(sequence, age)
    && Accepts(LeafEnv(scheme, script, sequence), script, stack)
  }

  ghost predicate KnowsPreimage(scheme: Scheme, produces: Bytes -> bool, hash: Bytes32) {
    exists p :: produces(p) && |p| <= MAX_ELEMENT && scheme.sha256(p) == hash
  }

  ghost predicate CanOpen(scheme: Scheme, produces: Bytes -> bool, age: Age, script: Bytes) {
    exists sequence, stack :: Spends(scheme, produces, age, script, sequence, stack)
  }

  /** A held key is one with a producible signature that is valid in the leaf's environment. */
  lemma SignatureFor(scheme: Scheme, produces: Bytes -> bool, keys: set<Bytes>, script: Bytes, sequence: uint32,
                     key: Bytes)
    requires HoldsKeys(scheme.verify, produces, keys)
    ensures key in keys <==> exists sig :: produces(sig) && ValidSig(LeafEnv(scheme, script, sequence), key, sig)
  {
    var env, message := LeafEnv(scheme, script, sequence), scheme.message(script, sequence);
    assert CanSign(scheme.verify, produces, key, message) <==> key in keys;
    forall sig ensures ValidFor(scheme.verify, key, message, sig) <==> ValidSig(env, key, sig) {
    }
  }

  const FINAL_SEQUENCE: uint32 := 0xffff_ffff

  lemma FinalSequenceIsUnlocked(age: Age)
    ensures SequenceLock(FINAL_SEQUENCE, age)
  {
    assert HasBit(FINAL_SEQUENCE, DISABLE_FLAG);
  }

  lemma ReleaseOpens(scheme: Scheme, produces: Bytes -> bool, keys: set<Bytes>, age: Age, hash: Bytes32, key: PubKey)
    requires HoldsKeys(scheme.verify, produces, keys) && forall b :: |scheme.sha256(b)| == 32
    requires ConditionScript(HashCondition(hash), Multisig([key], Checksig)).Ok?
    ensures CanOpen(scheme, produces, age, ConditionScript(HashCondition(hash), Multisig([key], Checksig)).value)
       <==> key.x in keys && KnowsPreimage(scheme, produces, hash)
  {
    hide HoldsKeys, ConditionScript, Accepts, ValidSig, SequenceLock;
    var script := ConditionScript(HashCondition(hash), Multisig([key], Checksig)).value;
    if sequence, stack :| Spends(scheme, produces, age, script, sequence, stack) {
      var env := LeafEnv(scheme, script, sequence);
      HashLockAccepts(env, hash, key, stack);
      SignatureFor(scheme, produces, keys, script, sequence, key.x);
      assert stack[0] in stack && stack[1] in stack;
    }
    if key.x in keys && KnowsPreimage(scheme, produces, hash) {
      var env := LeafEnv(scheme, script, FINAL_SEQUENCE);
      SignatureFor(scheme, produces, keys, script, FINAL_SEQUENCE, key.x);
      var sig :| produces(sig) && ValidSig(env, key.x, sig);
      var p :| produces(p) && |p| <= MAX_ELEMENT && scheme.sha256(p) == hash;
      HashLockAccepts(env, hash, key, [sig, p]);
      FinalSequenceIsUnlocked(age);
      assert Spends(scheme, produces, age, script, FINAL_SEQUENCE, [sig, p]);
    }
  }

  lemma TimeoutOpens(scheme: Scheme, produces: Bytes -> bool, keys: set<Bytes>, age: Age, timeout: RelativeLocktime,
                     key: PubKey)
    requires HoldsKeys(scheme.verify, produces, keys) && BIP68Sequence(timeout).Ok?
    requires CSVScript(timeout, Multisig([key], Checksig)).Ok?
    ensures CanOpen(scheme, produces, age, CSVScript(timeout, Multisig([key], Checksig)).value)
       <==> key.x in keys && SequenceLock(BIP68Sequence(timeout).value, age)
  {
    hide HoldsKeys, CSVScript, Accepts, ValidSig, SequenceLock, SequenceReached, BIP68Sequence;
    var script := CSVScript(timeout, Multisig([key], Checksig)).value;
    var operand := BIP68Sequence(timeout).value;
    OperandIsLock(operand, age);
    if sequence, stack :| Spends(scheme, produces, age, script, sequence, stack) {
      var env := LeafEnv(scheme, script, sequence);
      TimeoutAccepts(env, timeout, key, stack);
      SignatureFor(scheme, produces, keys, script, sequence, key.x);
      assert stack[0] in stack;
    }
    if key.x in keys && SequenceLock(operand, age) {
      var sequence: uint32 :| SequenceReached(operand, sequence) && SequenceLock(sequence, age);
      var env := LeafEnv(scheme, script, sequence);
      SignatureFor(scheme, produces, keys, script, sequence, key.x);
      var sig :| produces(sig) && ValidSig(env, key.x, sig);
      TimeoutAccepts(env, timeout, key, [sig]);
      assert Spends(scheme, produces, age, script, sequence, [sig]);
    }
  }

  lemma DisputeOpens(scheme: Scheme, produces: Bytes -> bool, keys: set<Bytes>, age: Age, oracle: PubKey,
                     winner: PubKey)
    requires HoldsKeys(scheme.verify, produces, keys)
    requires MultisigScript(Multisig([oracle, winner], Checksig)).Ok?
    ensures CanOpen(scheme, produces, age, MultisigScript(Multisig([oracle, winner], Checksig)).value)
       <==> oracle.x in keys && winner.x in keys
  {
    hide HoldsKeys, LeafEnv, MultisigScript, Accepts, ValidSig, SequenceLock;
    var script := MultisigScript(Multisig([oracle, winner], Checksig)).value;
    if sequence, stack :| Spends(scheme, produces, age, script, sequence, stack) {
      var env := LeafEnv(scheme, script, sequence);
      DisputeAccepts(env, oracle, winner, stack);
      SignatureFor(scheme, produces, keys, script, sequence, oracle.x);
      SignatureFor(scheme, produces, keys, script, sequence, winner.x);
      assert stack[0] in stack && stack[1] in stack;
    }
    if oracle.x in keys && winner.x in keys {
      var env := LeafEnv(scheme, script, FINAL_SEQUENCE);
      SignatureFor(scheme, produces, keys, script, FINAL_SEQUENCE, oracle.x);
      SignatureFor(scheme, produces, keys, script, FINAL_SEQUENCE, winner.x);
      var oracleSig :| produces(oracleSig) && ValidSig(env, oracle.x, oracleSig);
      var winnerSig :| produces(winnerSig) && ValidSig(env, winner.x, winnerSig);
      DisputeAccepts(env, oracle, winner, [winnerSig, oracleSig]);
      FinalSequenceIsUnlocked(age);
      assert Spends(scheme, produces, age, script, FINAL_SEQUENCE, [winnerSig, oracleSig]);
    }
  }

  ghost predicate OpensSomeLeaf(scheme: Scheme, produces: Bytes -> bool, age: Age, closures: seq<Closure>) {
    exists leaf: nat :: leaf < |closures| && LeafScript(closures, leaf).Ok?
                        && CanOpen(scheme, produces, age, LeafScript(closures, leaf).value)
  }

  /** The access structure of the escrow, for any spender, any age and any choice of leaf, nSequence
      and witness: the seller with a preimage, the buyer once the timeout is over, or the oracle
      together with either of them, and nobody else. */
  lemma EscrowAccess(scheme: Scheme, produces: Bytes -> bool, keys: set<Bytes>, age: Age, params: EscrowParams)
    requires HoldsKeys(scheme.verify, produces, keys) && forall b :: |scheme.sha256(b)| == 32
    requires NewEscrowScript(params).Ok? && BIP68Sequence(params.timeout).Ok?
    ensures OpensSomeLeaf(scheme, produces, age, NewEscrowScript(params).value.closures)
       <==> var seller, buyer, oracle := params.seller.value.x, params.buyer.value.x, params.oracle.value.x;
            || (seller in keys && KnowsPreimage(scheme, produces, params.secretHash))
            || (buyer in keys && SequenceLock(BIP68Sequence(params.timeout).value, age))
            || (oracle in keys && seller in keys)
            || (oracle in keys && buyer in keys)
  {
    hide ConditionScript, CSVScript, MultisigScript, SequenceLock, BIP68Sequence, HoldsKeys, KnowsPreimage, CanOpen,
         LeafScript;
    var closures := NewEscrowScript(params).value.closures;
    forall leaf: nat | leaf < 4
      ensures LeafScript(closures, leaf).Ok? && LeafScript(closures, leaf) == Script(closures[leaf])
    {
      LeavesCompile(params, leaf);
    }
    assert LeafScript(closures, 0) == Script(closures[0]) && LeafScript(closures, 1) == Script(closures[1]);
    assert LeafScript(closures, 2) == Script(closures[2]) && LeafScript(closures, 3) == Script(closures[3]);
    ReleaseOpens(scheme, produces, keys, age, params.secretHash, params.seller.value);
    TimeoutOpens(scheme, produces, keys, age, params.timeout, params.buyer.value);
    DisputeOpens(scheme, produces, keys, age, params.oracle.value, params.seller.value);
    DisputeOpens(scheme, produces, keys, age, params.oracle.value, params.buyer.value);
    if leaf: nat :| leaf < |closures| && LeafScript(closures, leaf).Ok?
                    && CanOpen(scheme, produces, age, LeafScript(closures, leaf).value) {
      assert leaf == 0 || leaf == 1 || leaf == 2 || leaf == 3;
    }
  }

  /** With a block timeout in the 16-bit range the buyer's branch of the access structure is a wait
      of exactly that many blocks. */
  lemma BuyerWaitsForTimeout(params: EscrowParams, age: Age)
    requires params.timeout.kind == Block && params.timeout.value <= 0xffff
    ensures SequenceLock(BIP68Sequence(params.timeout).value, age) <==> age.blocks >= params.timeout.value
  {
    EnforcesBlocks(params.timeout.value);
  }

  // ------------------------------------------------------------ the leaves as scripts

  /** The four leaf scripts are different exactly when seller and buyer have different keys. */
  lemma LeavesDistinct(params: EscrowParams)
    requires NewEscrowScript(params).Ok? && BIP68Sequence(params.timeout).Ok?
    ensures (forall i, j :: 0 <= i < j < 4 ==>
               Script(NewEscrowScript(params).value.closures[i]) != Script(NewEscrowScript(params).value.closures[j]))
       <==> params.seller.value.x != params.buyer.value.x
  {
    hide BIP68Sequence, MultisigScript, PushInt;
    var closures := NewEscrowScript(params).value.closures;
    var seller, buyer, oracle := params.seller.value, params.buyer.value, params.oracle.value;
    OneKeyScript(seller);
    OneKeyScript(buyer);
    TwoKeyScript(oracle, seller);
    TwoKeyScript(oracle, buyer);
    PushIntHead(BIP68Sequence(params.timeout).value);
    var s0, s1, s2, s3 := Script(closures[0]), Script(closures[1]), Script(closures[2]), Script(closures[3]);
    assert s0.value[0] == OP_SHA256 && s2.value[0] == OP_DATA_32 && s3.value[0] == OP_DATA_32;
    assert s1.value[0] == PushInt(BIP68Sequence(params.timeout).value)[0];
    assert s2.value[35..67] == seller.x && s3.value[35..67] == buyer.x;
    if seller.x == buyer.x {
      assert s2 == s3;
      assert Script(closures[2]) == Script(closures[3]);
    }
  }

  lemma PushIntHead(n: uint32)
    ensures PushInt(n) != [] && PushInt(n)[0] != OP_SHA256 && PushInt(n)[0] != OP_DATA_32
  {
    NextPushInt(n, []);
    assert PushInt(n) + [] == PushInt(n);
  }

  /** DecodeClosure reads every leaf back, except a timeout outside the CSV decoder's domain. */
  lemma LeavesDecode(curve: Curve, params: EscrowParams, leaf: nat)
    requires NewEscrowScript(params).Ok? && BIP68Sequence(params.timeout).Ok? && leaf < 4
    requires curve(params.seller.value.x) && curve(params.buyer.value.x) && curve(params.oracle.value.x)
    ensures var c := NewEscrowScript(params).value.closures[leaf];
            && Script(c).Ok?
            && (Decode(curve, Script(c).value) == Ok(ClosureProofs.Lift(c)) <==>
                (leaf == TIMEOUT ==> SurvivesCSV(params.timeout)))
  {
    hide BIP68Sequence, Script, Decode, Tokens;
    LeavesCompile(params, leaf);
    var closures := NewEscrowScript(params).value.closures;
    assert closures[leaf] in closures;
    HashConditionTokens(params.secretHash);
    ClosureProofs.ClosureRoundTrip(curve, closures[leaf]);
  }
}
