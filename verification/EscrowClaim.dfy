/** Claiming the escrow output (pkg/escrow/swap/escrow_claim.go): the hand-built witness of each leaf,
    and the ordered steps of ClaimEscrow. */
module EscrowClaim {
  import opened Basics
  import opened Locktime
  import opened ClosureSpec
  import opened Interpreter
  import opened CompileProofs
  import opened RelativeLocks
  import opened Escrow
  import opened WitnessWire
  import opened Spend
  import Bech32
  import Closures

  // ------------------------------------------------------------ witness stacks

  /** Which signing keys a leaf's branch dereferences; a nil key there crashes the program. */
  predicate KeysPresent(leaf: int, keys: seq<Option<Bytes>>) {
    && (leaf == RELEASE || leaf == TIMEOUT ==> |keys| > 0 && keys[0].Some?)
    && (leaf == DISPUTE_SELLER || leaf == DISPUTE_BUYER ==> |keys| >= 2 ==> keys[0].Some? && keys[1].Some?)
  }

  /** The stack below leaf script and control block, from signatures found by public key. */
  function LeafStack(crypto: Crypto, sigs: map<Bytes, Bytes>, leaf: int, keys: seq<Option<Bytes>>,
                     preimage: Option<Bytes>)
    : Result<seq<Bytes>>
    requires KeysPresent(leaf, keys)
  {
    if leaf == RELEASE then
      if preimage.None? || crypto.publicKey(keys[0].value) !in sigs then Err
      else Ok([sigs[crypto.publicKey(keys[0].value)], preimage.value])
    else if leaf == TIMEOUT then
      if crypto.publicKey(keys[0].value) !in sigs then Err
      else Ok([sigs[crypto.publicKey(keys[0].value)]])
    else if leaf == DISPUTE_SELLER || leaf == DISPUTE_BUYER then
      if |keys| < 2 then Err
      else
        var oracle, winner := crypto.publicKey(keys[0].value), crypto.publicKey(keys[1].value);
        if oracle !in sigs || winner !in sigs then Err else Ok([sigs[winner], sigs[oracle]])
    else Err
  }

  predicate Writable(items: seq<Bytes>) {
    forall item :: item in items ==> |item| < 0x1_0000_0000_0000_0000
  }

  /** finalizeEscrowWitness: on an error the PSET keeps the witness it had. */
  method FinalizeEscrowWitness(crypto: Crypto, p: Pset, leaf: int, keys: seq<Option<Bytes>>,
                               preimage: Option<Bytes>, leafScript: Item, controlBlock: ControlBlock)
    returns (ok: bool)
    requires KeysPresent(leaf, keys)
    requires forall sig :: sig in p.tapScriptSigs ==> |sig.1| <= 65
    requires preimage.Some? ==> |preimage.value| < 0x1_0000_0000_0000_0000
    modifies p`finalScriptWitness
    ensures var stack := LeafStack(crypto, SigMap(p.tapScriptSigs), leaf, keys, preimage);
            && ok == stack.Ok?
            && (ok ==> Writable(stack.value)
                       && p.finalScriptWitness == Serialize(stack.value + [leafScript, controlBlock]))
            && (!ok ==> p.finalScriptWitness == old(p.finalScriptWitness))
  {
    var sigs: map<Bytes, Bytes> := map[];
    assert p.tapScriptSigs[..0] == [];
    for i := 0 to |p.tapScriptSigs|
      invariant sigs == SigMap(p.tapScriptSigs[..i])
      invariant forall key :: key in sigs ==> |sigs[key]| <= 65
    {
      assert Front(p.tapScriptSigs[..i + 1]) == p.tapScriptSigs[..i];
      assert p.tapScriptSigs[i] in p.tapScriptSigs;
      sigs := sigs[p.tapScriptSigs[i].0 := p.tapScriptSigs[i].1];
    }
    assert p.tapScriptSigs[..|p.tapScriptSigs|] == p.tapScriptSigs;

    if leaf == RELEASE {
      if preimage.None? {
        return false;
      }
      var pub := crypto.publicKey(keys[0].value);
      if pub !in sigs {
        return false;
      }
      p.finalScriptWitness := SerializeWitness([sigs[pub], preimage.value, leafScript, controlBlock]);
      assert [sigs[pub], preimage.value, leafScript, controlBlock]
             == [sigs[pub], preimage.value] + [leafScript, controlBlock];
    } else if leaf == TIMEOUT {
      var pub := crypto.publicKey(keys[0].value);
      if pub !in sigs {
        return false;
      }
      p.finalScriptWitness := SerializeWitness([sigs[pub], leafScript, controlBlock]);
      assert [sigs[pub], leafScript, controlBlock] == [sigs[pub]] + [leafScript, controlBlock];
    } else if leaf == DISPUTE_SELLER || leaf == DISPUTE_BUYER {
      if |keys| < 2 {
        return false;
      }
      var oracle, winner := crypto.publicKey(keys[0].value), crypto.publicKey(keys[1].value);
      if oracle !in sigs {
        return false;
      }
      if winner !in sigs {
        return false;
      }
      p.finalScriptWitness := SerializeWitness([sigs[winner], sigs[oracle], leafScript, controlBlock]);
      assert [sigs[winner], sigs[oracle], leafScript, controlBlock]
             == [sigs[winner], sigs[oracle]] + [leafScript, controlBlock];
    } else {
      return false;
    }
    return true;
  }

  /** For the timeout leaf the hand-built witness is the closure's own. */
  lemma TimeoutStackIsWitness(crypto: Crypto, sigs: map<Bytes, Bytes>, keys: seq<Option<Bytes>>, buyer: PubKey,
                              script: Bytes, controlBlock: Bytes)
    requires |keys| > 0 && keys[0].Some? && crypto.publicKey(keys[0].value) == buyer.x
    ensures var stack := LeafStack(crypto, sigs, TIMEOUT, keys, None);
            Closures.WitnessStack([buyer], Ok(script), controlBlock, sigs) ==
            if stack.Err? then Err else Ok(stack.value + [script, controlBlock])
  {
    assert buyer in [buyer];
    if buyer.x in sigs {
      assert Closures.Signatures([buyer], sigs) == [sigs[buyer.x]];
    }
  }

  /** For a dispute leaf, with the oracle's key first, the hand-built witness is the closure's own:
      signatures looked up by key land in reverse script order. */
  lemma DisputeStackIsWitness(crypto: Crypto, sigs: map<Bytes, Bytes>, leaf: int, keys: seq<Option<Bytes>>,
                              oracle: PubKey, winner: PubKey, script: Bytes, controlBlock: Bytes)
    requires leaf == DISPUTE_SELLER || leaf == DISPUTE_BUYER
    requires |keys| >= 2 && keys[0].Some? && keys[1].Some?
    requires crypto.publicKey(keys[0].value) == oracle.x && crypto.publicKey(keys[1].value) == winner.x
    ensures var stack := LeafStack(crypto, sigs, leaf, keys, None);
            Closures.WitnessStack([oracle, winner], Ok(script), controlBlock, sigs) ==
            if stack.Err? then Err else Ok(stack.value + [script, controlBlock])
  {
    assert oracle in [oracle, winner] && winner in [oracle, winner];
    if oracle.x in sigs && winner.x in sigs {
      assert Closures.Signatures([oracle, winner], sigs) == [sigs[winner.x], sigs[oracle.x]];
    }
  }

  // ------------------------------------------------------------ ClaimEscrow

  datatype ClaimConfig = ClaimConfig(
    escrow: Option<EscrowScript>, fundTxid: string, fundVout: uint32, amount: uint64, leaf: int,
    signingKeys: seq<Option<Bytes>>, preimage: Option<Bytes>, destAddress: string, fee: uint64)

  predicate ValidConfig(cfg: ClaimConfig) {
    && (cfg.escrow.Some? ==> NewEscrowScript(cfg.escrow.value.params) == Ok(cfg.escrow.value))
    && (cfg.signingKeys != [] ==> KeysPresent(cfg.leaf, cfg.signingKeys))
    && Bech32.Ascii(cfg.destAddress)
    && (cfg.preimage.Some? ==> |cfg.preimage.value| < 0x1_0000_0000_0000_0000)
  }

  function Fee(cfg: ClaimConfig): uint64 {
    if cfg.fee == 0 then ESTIMATED_FEE else cfg.fee
  }

  function LeafScripts(closures: seq<Closure>): seq<Bytes>
    requires forall c :: c in closures ==> Script(c).Ok?
  {
    seq(|closures|, i requires 0 <= i < |closures| => Script(closures[i]).value)
  }

  /** ElementsAddress: the printed address of the taproot output over the leaves. */
  function Address(crypto: Crypto, closures: seq<Closure>, hrp: string): string
    requires Bech32.Ascii(hrp) && forall c :: c in closures ==> Script(c).Ok?
  {
    Bech32.EncodeBech32m(hrp, crypto.outputKey(LeafScripts(closures)))
  }

  /** nSequence of a claim: the encoded timeout on the timeout leaf, final on every other. */
  function ClaimSequence(cfg: ClaimConfig): Result<uint32>
    requires cfg.escrow.Some?
  {
    if cfg.leaf == TIMEOUT then BIP68Sequence(cfg.escrow.value.params.timeout) else Ok(FINAL_SEQUENCE)
  }

  /** The checks and the transaction of ClaimEscrow before any signature. */
  function ClaimCore(crypto: Crypto, cfg: ClaimConfig): Result<Core>
    requires ValidConfig(cfg)
  {
    if cfg.escrow.None? || cfg.signingKeys == [] || cfg.destAddress == "" then Err
    else
      var closures, fee := cfg.escrow.value.closures, Fee(cfg);
      if cfg.leaf < 0 || cfg.leaf >= |closures| then Err
      else if cfg.amount <= fee || cfg.amount - fee <= DUST_LIMIT then Err
      else
        var script := LeafScript(closures, cfg.leaf);
        var dest := Bech32.AddressToOutputScript(cfg.destAddress);
        var sequence := ClaimSequence(cfg);
        if script.Err? || dest.Err? || sequence.Err? then Err
        else
          var scripts := LeafScripts(closures);
          Ok(Core(cfg.fundTxid, cfg.fundVout, sequence.value, cfg.amount, cfg.amount - fee, fee,
                  Bech32.P2TRScript(crypto.outputKey(scripts)), dest.value, script.value))
  }

  /** What ClaimEscrow hands to the node, if it gets that far. */
  function ClaimTx(crypto: Crypto, cfg: ClaimConfig): Result<Sent>
    requires ValidConfig(cfg)
  {
    match ClaimCore(crypto, cfg)
    case Err => Err
    case Ok(core) =>
      var (sigs, signed) := SignAll(crypto, crypto.sighash(core), cfg.signingKeys);
      var stack := LeafStack(crypto, SigMap(sigs), cfg.leaf, cfg.signingKeys, cfg.preimage);
      var controlBlock := crypto.controlBlock(LeafScripts(cfg.escrow.value.closures), cfg.leaf);
      if !signed || stack.Err? then Err
      else if !Writable(stack.value + [core.leafScript]) then Err  // no such slice exists
      else Ok(Sent(core, Serialize(stack.value + [core.leafScript, controlBlock])))
  }

  lemma LeafScriptIsShort(closures: seq<Closure>, leaf: int)
    requires LeafScript(closures, leaf).Ok?
    ensures |LeafScript(closures, leaf).value| < 0x1_0000_0000
  {
    hide MultisigScript, BIP68Sequence;
    match closures[leaf]
    case Plain(m) => MultisigIsShort(m);
    case CSV(locktime, m) =>
      MultisigIsShort(m);
      Closures.PushIntShort(BIP68Sequence(locktime).value);
    case Condition(condition, m) =>
  }

  lemma MultisigIsShort(m: Multisig)
    ensures MultisigScript(m).Ok? ==> |MultisigScript(m).value| <= 10000
  {
  }

  /** Signatures as the library makes them. */
  ghost predicate ShortSignatures(crypto: Crypto) {
    forall key, message :: crypto.sign(key, message).Some? ==> |crypto.sign(key, message).value| <= 65
  }

  lemma {:induction false} SignAllIsShort(crypto: Crypto, message: Bytes, keys: seq<Option<Bytes>>)
    requires ShortSignatures(crypto)
    ensures forall sig :: sig in SignAll(crypto, message, keys).0 ==> |sig.1| <= 65
  {
    if keys != [] {
      SignAllIsShort(crypto, message, Front(keys));
    }
  }

  /** ClaimEscrow: nothing is sent unless every step before it succeeded, and then exactly one
      transaction. The node's answer decides the result. */
  method ClaimEscrow(crypto: Crypto, elementsd: ElementsdClient, cfg: ClaimConfig, answer: Option<string>)
    returns (r: Result<string>)
    requires ValidConfig(cfg) && ShortSignatures(crypto)
    modifies elementsd
    ensures var tx := ClaimTx(crypto, cfg);
            && elementsd.sent == old(elementsd.sent) + (if tx.Ok? then [tx.value] else [])
            && r == if tx.Err? || answer.None? then Err else Ok(answer.value)
  {
    hide LeafScript, NewEscrowScript, SignAll, LeafStack, SigMap, Serialize, BIP68Sequence,
         Bech32.AddressToOutputScript, Bech32.P2TRScript, LeafScripts, Script;
    if cfg.escrow.None? {
      return Err;
    }
    if |cfg.signingKeys| == 0 {
      return Err;
    }
    if cfg.destAddress == "" {
      return Err;
    }
    var fee := if cfg.fee == 0 then ESTIMATED_FEE else cfg.fee;
    var closures := cfg.escrow.value.closures;
    if cfg.leaf < 0 || cfg.leaf >= |closures| {
      return Err;
    }
    if cfg.amount <= fee || cfg.amount - fee <= DUST_LIMIT {
      return Err;
    }
    var leafScript := LeafScript(closures, cfg.leaf);
    if leafScript.Err? {
      return Err;
    }
    LeafScriptIsShort(closures, cfg.leaf);
    LeafScriptCompiles(closures, cfg.leaf);
    var scripts := LeafScripts(closures);
    var controlBlock := crypto.controlBlock(scripts, cfg.leaf);
    var p2trScript := Bech32.P2TRScript(crypto.outputKey(scripts));
    var destScript := Bech32.AddressToOutputScript(cfg.destAddress);
    if destScript.Err? {
      return Err;
    }
    var sequence := FINAL_SEQUENCE;
    if cfg.leaf == TIMEOUT {
      var encoded := BIP68Sequence(cfg.escrow.value.params.timeout);
      if encoded.Err? {
        return Err;
      }
      sequence := encoded.value;
    }
    var core := Core(cfg.fundTxid, cfg.fundVout, sequence, cfg.amount, cfg.amount - fee, fee,
                     p2trScript, destScript.value, leafScript.value);
    assert ClaimCore(crypto, cfg) == Ok(core);
    var p := new Pset(core);
    var ok := p.SignTapscriptInput(crypto, cfg.signingKeys);
    if !ok {
      return Err;
    }
    SignAllIsShort(crypto, crypto.sighash(core), cfg.signingKeys);
    ghost var added := SignAll(crypto, crypto.sighash(core), cfg.signingKeys).0;
    assert [] + added == added;
    ok := FinalizeEscrowWitness(crypto, p, cfg.leaf, cfg.signingKeys, cfg.preimage, leafScript.value, controlBlock);
    if !ok {
      return Err;
    }
    var txid := elementsd.SendRawTransaction(Sent(core, p.finalScriptWitness), answer);
    return if txid.None? then Err else Ok(txid.value);
  }

  lemma LeafScriptCompiles(closures: seq<Closure>, leaf: int)
    requires LeafScript(closures, leaf).Ok?
    ensures 0 <= leaf < |closures| && LeafScript(closures, leaf) == Script(closures[leaf])
    ensures forall c :: c in closures ==> Script(c).Ok?
  {
  }

  // ------------------------------------------------------------ acceptance

  /** The output that an escrow pays to. */
  predicate EscrowOutput(crypto: Crypto, escrow: EscrowScript, utxo: Utxo) {
    && (forall c :: c in escrow.closures ==> Script(c).Ok?)
    && utxo.script == Bech32.P2TRScript(crypto.outputKey(LeafScripts(escrow.closures)))
  }

  /** What each leaf asks for besides a well-formed claim. */
  predicate RightClaim(crypto: Crypto, params: EscrowParams, leaf: int, keys: seq<Option<Bytes>>,
                       preimage: Option<Bytes>, age: Age)
    requires params.seller.Some? && params.buyer.Some? && params.oracle.Some?
  {
    KeysPresent(leaf, keys) &&
    if leaf == RELEASE then
      crypto.publicKey(keys[0].value) == params.seller.value.x &&
      preimage.Some? && |preimage.value| <= MAX_ELEMENT && crypto.sha256(preimage.value) == params.secretHash
    else if leaf == TIMEOUT then
      crypto.publicKey(keys[0].value) == params.buyer.value.x &&
      BIP68Sequence(params.timeout).Ok? && SequenceLock(BIP68Sequence(params.timeout).value, age)
    else
      (leaf == DISPUTE_SELLER || leaf == DISPUTE_BUYER) && |keys| >= 2 &&
      crypto.publicKey(keys[0].value) == params.oracle.value.x &&
      crypto.publicKey(keys[1].value) == (if leaf == DISPUTE_SELLER then params.seller else params.buyer).value.x
  }

  /** The stack that ClaimEscrow builds opens its leaf. */
  lemma StackOpensLeaf(crypto: Crypto, params: EscrowParams, leaf: int, keys: seq<Option<Bytes>>,
                       preimage: Option<Bytes>, age: Age, core: Core)
    requires SignsCorrectly(crypto) && NewEscrowScript(params).Ok? && 0 <= leaf < 4
    requires Script(NewEscrowScript(params).value.closures[leaf]).Ok?
    requires RightClaim(crypto, params, leaf, keys, preimage, age)
    requires core.sequence == if leaf == TIMEOUT then BIP68Sequence(params.timeout).value else FINAL_SEQUENCE
    requires SignAll(crypto, crypto.sighash(core), keys).1
    ensures var stack := LeafStack(crypto, SigMap(SignAll(crypto, crypto.sighash(core), keys).0), leaf, keys, preimage);
            && stack.Ok? && |stack.value| <= 2 && (forall item :: item in stack.value ==> |item| <= MAX_ELEMENT)
            && Accepts(InputEnv(crypto, core), Script(NewEscrowScript(params).value.closures[leaf]).value, stack.value)
            && SequenceLock(core.sequence, age)
  {
    hide ConditionScript, CSVScript, MultisigScript, Accepts, SignAll, SigMap, SequenceLock, SequenceReached;
    var env, message := InputEnv(crypto, core), crypto.sighash(core);
    SigMapSigns(crypto, message, keys);
    var sigs := SigMap(SignAll(crypto, message, keys).0);
    FinalSequenceIsUnlocked(age);
    assert forall key :: key in sigs ==> ValidSig(env, key, sigs[key]);
    var stack := LeafStack(crypto, sigs, leaf, keys, preimage);
    if leaf == RELEASE {
      HashLockAccepts(env, params.secretHash, params.seller.value, stack.value);
    } else if leaf == TIMEOUT {
      TimeoutAccepts(env, params.timeout, params.buyer.value, stack.value);
      ReachesItself(core.sequence);
    } else if leaf == DISPUTE_SELLER {
      DisputeAccepts(env, params.oracle.value, params.seller.value, stack.value);
    } else {
      DisputeAccepts(env, params.oracle.value, params.buyer.value, stack.value);
    }
  }

  lemma ReachesItself(sequence: uint32)
    ensures SequenceReached(sequence, sequence)
  {
  }

  /** What a claim that gets sent consists of. */
  lemma ClaimParts(crypto: Crypto, cfg: ClaimConfig)
    requires ValidConfig(cfg) && ClaimTx(crypto, cfg).Ok?
    ensures ClaimCore(crypto, cfg).Ok? && cfg.escrow.Some? && cfg.signingKeys != []
            && KeysPresent(cfg.leaf, cfg.signingKeys)
    ensures var core := ClaimCore(crypto, cfg).value;
            var (sigs, signed) := SignAll(crypto, crypto.sighash(core), cfg.signingKeys);
            var stack := LeafStack(crypto, SigMap(sigs), cfg.leaf, cfg.signingKeys, cfg.preimage);
            && signed && stack.Ok? && Writable(stack.value + [core.leafScript])
            && (forall c :: c in cfg.escrow.value.closures ==> Script(c).Ok?)
            && ClaimTx(crypto, cfg).value == Sent(core, Serialize(stack.value +
                 [core.leafScript, crypto.controlBlock(LeafScripts(cfg.escrow.value.closures), cfg.leaf)]))
  {
    hide LeafScript, NewEscrowScript, SignAll, LeafStack, SigMap, Serialize, BIP68Sequence,
         Bech32.AddressToOutputScript;
    LeafScriptCompiles(cfg.escrow.value.closures, cfg.leaf);
  }

  lemma CoreParts(crypto: Crypto, cfg: ClaimConfig)
    requires ValidConfig(cfg) && ClaimCore(crypto, cfg).Ok?
    ensures var core, closures := ClaimCore(crypto, cfg).value, cfg.escrow.value.closures;
            && |closures| == 4 && 0 <= cfg.leaf < 4 && (forall c :: c in closures ==> Script(c).Ok?)
            && core.leafScript == LeafScripts(closures)[cfg.leaf] == Script(closures[cfg.leaf]).value
            && core.prevoutScript == Bech32.P2TRScript(crypto.outputKey(LeafScripts(closures)))
            && core.inputAmount == cfg.amount == core.outputAmount + core.fee && core.outputAmount > DUST_LIMIT
            && ClaimSequence(cfg) == Ok(core.sequence)
            && core.txid == cfg.fundTxid && core.vout == cfg.fundVout && core.fee == Fee(cfg)
  {
    hide LeafScript, NewEscrowScript, BIP68Sequence, Bech32.AddressToOutputScript, Script;
    LeafScriptCompiles(cfg.escrow.value.closures, cfg.leaf);
    ClaimLeafIsOneOfFour(cfg);
  }

  /** A claim with the right keys, which sign, to an address that parses, with a timeout that encodes. */
  ghost predicate ReadyToClaim(crypto: Crypto, cfg: ClaimConfig, age: Age) {
    && ValidConfig(cfg) && cfg.escrow.Some? && BIP68Sequence(cfg.escrow.value.params.timeout).Ok?
    && RightClaim(crypto, cfg.escrow.value.params, cfg.leaf, cfg.signingKeys, cfg.preimage, age)
    && (forall key :: key in cfg.signingKeys && key.Some? ==> CanSignWith(crypto, key.value))
    && cfg.destAddress != "" && Bech32.AddressToOutputScript(cfg.destAddress).Ok?
  }

  lemma ReadyCore(crypto: Crypto, cfg: ClaimConfig, age: Age)
    requires ReadyToClaim(crypto, cfg, age)
    ensures ClaimCore(crypto, cfg).Ok? <==> cfg.amount > Fee(cfg) + DUST_LIMIT
    ensures 0 <= cfg.leaf < 4 && LeafScript(cfg.escrow.value.closures, cfg.leaf).Ok? && cfg.signingKeys != []
  {
    hide LeafScript, SignAll, BIP68Sequence, Bech32.AddressToOutputScript, SequenceLock;
    LeavesCompile(cfg.escrow.value.params, cfg.leaf);
  }

  /** On every leaf, such a claim is sent exactly when what is left of the amount is more than dust. */
  lemma ClaimIsSent(crypto: Crypto, cfg: ClaimConfig, age: Age)
    requires SignsCorrectly(crypto) && ReadyToClaim(crypto, cfg, age)
    ensures ClaimTx(crypto, cfg).Ok? <==> cfg.amount > Fee(cfg) + DUST_LIMIT
  {
    hide ClaimCore, LeafScript, SignAll, SigMap, LeafStack, Serialize, SequenceLock, RightClaim, Accepts,
         NewEscrowScript, Bech32.AddressToOutputScript, BIP68Sequence, Script;
    ReadyCore(crypto, cfg, age);
    if cfg.amount > Fee(cfg) + DUST_LIMIT {
      var core := ClaimCore(crypto, cfg).value;
      AllKeysSign(crypto, crypto.sighash(core), cfg.signingKeys);
      CoreParts(crypto, cfg);
      LeafScriptIsShort(cfg.escrow.value.closures, cfg.leaf);
      LeafScriptCompiles(cfg.escrow.value.closures, cfg.leaf);
      StackOpensLeaf(crypto, cfg.escrow.value.params, cfg.leaf, cfg.signingKeys, cfg.preimage, age, core);
    }
  }

  /** What a claim does with the money: it spends the configured outpoint and pays the amount less the
      fee to the script of the destination address. */
  predicate PaysAsTold(cfg: ClaimConfig, core: Core)
    requires Bech32.Ascii(cfg.destAddress)
  {
    && core.txid == cfg.fundTxid && core.vout == cfg.fundVout
    && core.outputAmount + Fee(cfg) == cfg.amount && core.fee == Fee(cfg)
    && Bech32.AddressToOutputScript(cfg.destAddress) == Ok(core.destScript)
  }

  lemma CorePaysAsTold(crypto: Crypto, cfg: ClaimConfig)
    requires ValidConfig(cfg) && ClaimCore(crypto, cfg).Ok?
    ensures PaysAsTold(cfg, ClaimCore(crypto, cfg).value)
  {
    hide LeafScript, LeafScripts, NewEscrowScript, BIP68Sequence, Bech32.AddressToOutputScript, Bech32.P2TRScript;
  }

  lemma ClaimPaysDestination(crypto: Crypto, cfg: ClaimConfig)
    requires ValidConfig(cfg) && ClaimTx(crypto, cfg).Ok?
    ensures PaysAsTold(cfg, ClaimTx(crypto, cfg).value.core)
  {
    hide ClaimCore, PaysAsTold, NewEscrowScript, SignAll, LeafStack, SigMap, Serialize;
    CorePaysAsTold(crypto, cfg);
  }

  /** In particular a claim to the printed address of a taproot key pays to that key. */
  lemma ClaimPaysKey(crypto: Crypto, cfg: ClaimConfig, hrp: string, key: Bytes32)
    requires ValidConfig(cfg) && ClaimTx(crypto, cfg).Ok?
    requires Bech32.Ascii(hrp) && cfg.destAddress == Bech32.EncodeBech32m(hrp, key)
    ensures ClaimTx(crypto, cfg).value.core.destScript == Bech32.P2TRScript(key)
  {
    hide ClaimTx, Bech32.AddressToOutputScript, Bech32.EncodeBech32m, Bech32.P2TRScript;
    ClaimPaysDestination(crypto, cfg);
    Bech32.AddressPaysToKey(hrp, key);
  }

  /** A claim that gets sent with the right keys, the right preimage and after the timeout is taken by
      the chain exactly when the configured amount is the real value of the output. */
  lemma ClaimIsAccepted(crypto: Crypto, cfg: ClaimConfig, utxo: Utxo)
    requires SignsCorrectly(crypto) && ValidConfig(cfg) && ClaimTx(crypto, cfg).Ok?
    requires EscrowOutput(crypto, cfg.escrow.value, utxo)
    requires RightClaim(crypto, cfg.escrow.value.params, cfg.leaf, cfg.signingKeys, cfg.preimage, utxo.age)
    ensures var sent := ClaimTx(crypto, cfg).value;
            && (ChainAccepts(crypto, LeafScripts(cfg.escrow.value.closures), utxo, sent) <==> cfg.amount == utxo.value)
            && sent.core.outputAmount > DUST_LIMIT && PaysAsTold(cfg, sent.core)
  {
    hide Accepts, LeafStack, SignAll, SigMap, Serialize, SequenceLock, NewEscrowScript, RightClaim, ChainAccepts,
         ClaimTx, ClaimCore, Bech32.AddressToOutputScript;
    ClaimParts(crypto, cfg);
    CoreParts(crypto, cfg);
    ClaimPaysDestination(crypto, cfg);
    var core, closures := ClaimCore(crypto, cfg).value, cfg.escrow.value.closures;
    var stack := LeafStack(crypto, SigMap(SignAll(crypto, crypto.sighash(core), cfg.signingKeys).0), cfg.leaf,
                           cfg.signingKeys, cfg.preimage);
    StackIsWritable(stack.value, core.leafScript);
    StackOpensLeaf(crypto, cfg.escrow.value.params, cfg.leaf, cfg.signingKeys, cfg.preimage, utxo.age, core);
    HandBuiltSpend(crypto, LeafScripts(closures), cfg.leaf, utxo, core, stack.value, core.leafScript);
    if cfg.amount == utxo.value {
      assert SignedCore(core, utxo, core.leafScript) == core;
    }
  }

  lemma StackIsWritable(stack: seq<Bytes>, leafScript: Bytes)
    requires Writable(stack + [leafScript])
    ensures |leafScript| < 0x1_0000_0000_0000_0000
    ensures forall i :: 0 <= i < |stack| ==> |stack[i]| < 0x1_0000_0000_0000_0000
  {
    assert leafScript in stack + [leafScript];
    forall i | 0 <= i < |stack| ensures |stack[i]| < 0x1_0000_0000_0000_0000 {
      assert stack[i] in stack + [leafScript];
    }
  }

  lemma ClaimLeafIsOneOfFour(cfg: ClaimConfig)
    requires ValidConfig(cfg) && cfg.escrow.Some?
    ensures |cfg.escrow.value.closures| == 4
  {
  }
}
