/** The two-leaf Liquid HTLC of the swap (pkg/escrow/swap/liquid_htlc.go). */
module Htlc {
  import opened Basics
  import opened Locktime
  import opened ClosureSpec
  import opened Interpreter
  import opened CompileProofs
  import opened RelativeLocks
  import opened Escrow
  import opened WitnessWire
  import opened Spend
  import opened EscrowClaim
  import Bech32
  import Opcodes

  const CLAIM := 0
  const REFUND := 1

  datatype HTLCScript = HTLCScript(
    receiver: PubKey, sender: PubKey, paymentHash: Bytes32, timeout: RelativeLocktime, closures: seq<Closure>)

  function NewHTLCScript(receiver: Option<PubKey>, sender: Option<PubKey>, paymentHash: Bytes32,
                         timeoutBlocks: uint32): Result<HTLCScript> {
    if receiver.None? || sender.None? then Err
    else
      var timeout := RelativeLocktime(Block, timeoutBlocks);
      Ok(HTLCScript(receiver.value, sender.value, paymentHash, timeout, [
        Condition(HashCondition(paymentHash), Multisig([receiver.value], Checksig)),
        CSV(timeout, Multisig([sender.value], Checksig))
      ]))
  }

  lemma HtlcLeavesCompile(htlc: HTLCScript)
    requires NewHTLCScript(Some(htlc.receiver), Some(htlc.sender), htlc.paymentHash, htlc.timeout.value) == Ok(htlc)
    ensures |htlc.closures| == 2 && forall c :: c in htlc.closures ==> Script(c).Ok?
    ensures htlc.closures[0] == Condition(HashCondition(htlc.paymentHash), Multisig([htlc.receiver], Checksig))
    ensures htlc.closures[1] == CSV(htlc.timeout, Multisig([htlc.sender], Checksig))
    ensures BIP68Sequence(htlc.timeout) == Ok(htlc.timeout.value)
  {
    hide MultisigScript, KeyOp;
    OneKeyScript(htlc.receiver);
    OneKeyScript(htlc.sender);
    KeyOpLength(htlc.receiver, Opcodes.OP_CHECKSIG);
  }


  /** The access structure of the HTLC: the receiver with a preimage of the payment hash, or the sender
      once the timeout is over, and nobody else. */
  lemma HtlcAccess(scheme: Scheme, produces: Bytes -> bool, keys: set<Bytes>, age: Age, htlc: HTLCScript)
    requires HoldsKeys(scheme.verify, produces, keys) && forall b :: |scheme.sha256(b)| == 32
    requires NewHTLCScript(Some(htlc.receiver), Some(htlc.sender), htlc.paymentHash, htlc.timeout.value) == Ok(htlc)
    ensures OpensSomeLeaf(scheme, produces, age, htlc.closures)
       <==> || (htlc.receiver.x in keys && KnowsPreimage(scheme, produces, htlc.paymentHash))
            || (htlc.sender.x in keys && SequenceLock(htlc.timeout.value, age))
  {
    hide ConditionScript, CSVScript, SequenceLock, BIP68Sequence, HoldsKeys, KnowsPreimage, CanOpen, LeafScript,
         NewHTLCScript;
    HtlcLeavesCompile(htlc);
    var closures := htlc.closures;
    assert closures[0] in closures && closures[1] in closures;
    forall leaf: nat | leaf < 2 ensures LeafScript(closures, leaf) == Script(closures[leaf]) {
      AllCompile(closures, leaf);
    }
    assert LeafScript(closures, 0) == Script(closures[0]) && LeafScript(closures, 1) == Script(closures[1]);
    ReleaseOpens(scheme, produces, keys, age, htlc.paymentHash, htlc.receiver);
    TimeoutOpens(scheme, produces, keys, age, htlc.timeout, htlc.sender);
    if leaf: nat :| leaf < |closures| && LeafScript(closures, leaf).Ok?
                    && CanOpen(scheme, produces, age, LeafScript(closures, leaf).value) {
      assert leaf == 0 || leaf == 1;
    }
  }

  lemma AllCompile(closures: seq<Closure>, leaf: nat)
    requires leaf < |closures| && forall c :: c in closures ==> Script(c).Ok?
    ensures LeafScript(closures, leaf) == Script(closures[leaf])
  {
  }

  // ------------------------------------------------------------ SpendHTLC

  datatype SpendConfig = SpendConfig(
    htlc: Option<HTLCScript>, fundTxid: string, fundVout: uint32, amount: uint64, leafIndex: int,
    signingKey: Option<Bytes>, destAddress: string, preimage: Option<Bytes>, fee: uint64)

  predicate ValidSpend(cfg: SpendConfig) {
    && (cfg.htlc.Some? ==> var h := cfg.htlc.value;
          NewHTLCScript(Some(h.receiver), Some(h.sender), h.paymentHash, h.timeout.value) == Ok(h))
    && Bech32.Ascii(cfg.destAddress)
    && (cfg.preimage.Some? ==> |cfg.preimage.value| < 0x1_0000_0000_0000_0000)
  }

  function SpendFee(cfg: SpendConfig): uint64 {
    if cfg.fee == 0 then ESTIMATED_FEE else cfg.fee
  }

  /** uint64 subtraction: there is no test for an amount below the fee. */
  function OutputAmount(cfg: SpendConfig): uint64 {
    (cfg.amount - SpendFee(cfg)) % 0x1_0000_0000_0000_0000
  }

  function SpendSequence(cfg: SpendConfig): Result<uint32>
    requires cfg.htlc.Some?
  {
    if cfg.leafIndex == REFUND then BIP68Sequence(cfg.htlc.value.timeout) else Ok(FINAL_SEQUENCE)
  }

  function SpendCore(crypto: Crypto, cfg: SpendConfig): Result<Core>
    requires ValidSpend(cfg)
  {
    if cfg.htlc.None? || cfg.signingKey.None? then Err
    else
      var closures := cfg.htlc.value.closures;
      var script := LeafScript(closures, cfg.leafIndex);
      var dest := Bech32.AddressToOutputScript(cfg.destAddress);
      var sequence := SpendSequence(cfg);
      if script.Err? || dest.Err? || OutputAmount(cfg) <= DUST_LIMIT || sequence.Err? then Err
      else
        Ok(Core(cfg.fundTxid, cfg.fundVout, sequence.value, cfg.amount, OutputAmount(cfg), SpendFee(cfg),
                Bech32.P2TRScript(crypto.outputKey(LeafScripts(closures))), dest.value, script.value))
  }

  function SpendStack(cfg: SpendConfig, sig: Bytes): seq<Bytes> {
    if cfg.leafIndex == CLAIM && cfg.preimage.Some? then [sig, cfg.preimage.value] else [sig]
  }

  function SpendTx(crypto: Crypto, cfg: SpendConfig): Result<Sent>
    requires ValidSpend(cfg)
  {
    match SpendCore(crypto, cfg)
    case Err => Err
    case Ok(core) =>
      match crypto.sign(cfg.signingKey.value, crypto.sighash(core))
      case None => Err
      case Some(sig) =>
        var controlBlock := crypto.controlBlock(LeafScripts(cfg.htlc.value.closures), cfg.leafIndex);
        if !Writable(SpendStack(cfg, sig) + [core.leafScript]) then Err  // no such slice exists
        else Ok(Sent(core, Serialize(SpendStack(cfg, sig) + [core.leafScript, controlBlock])))
  }

  /** The two witness forms: the preimage is used on the claim leaf only, and only if there is one. */
  method WriteWitness(p: Pset, cfg: SpendConfig, leafScript: Item, controlBlock: ControlBlock)
    requires p.tapScriptSigs != [] && |p.tapScriptSigs[0].1| <= 65
    requires cfg.preimage.Some? ==> |cfg.preimage.value| < 0x1_0000_0000_0000_0000
    modifies p`finalScriptWitness
    ensures Writable(SpendStack(cfg, p.tapScriptSigs[0].1) + [leafScript])
    ensures p.finalScriptWitness == Serialize(SpendStack(cfg, p.tapScriptSigs[0].1) + [leafScript, controlBlock])
  {
    hide Serialize;
    var sig := p.tapScriptSigs[0].1;
    if cfg.leafIndex == CLAIM && cfg.preimage.Some? {
      p.finalScriptWitness := SerializeWitness([sig, cfg.preimage.value, leafScript, controlBlock]);
      assert [sig, cfg.preimage.value, leafScript, controlBlock]
             == [sig, cfg.preimage.value] + [leafScript, controlBlock];
    } else {
      p.finalScriptWitness := SerializeWitness([sig, leafScript, controlBlock]);
      assert [sig, leafScript, controlBlock] == [sig] + [leafScript, controlBlock];
    }
  }

  /** The checks of SpendHTLC up to the unsigned transaction, in their order. */
  method BuildCore(crypto: Crypto, cfg: SpendConfig) returns (r: Result<Core>)
    requires ValidSpend(cfg)
    ensures r == SpendCore(crypto, cfg)
  {
    hide LeafScript, NewHTLCScript, BIP68Sequence, Bech32.AddressToOutputScript, Bech32.P2TRScript, Script, LeafScripts;
    if cfg.htlc.None? || cfg.signingKey.None? {
      return Err;
    }
    var fee := if cfg.fee == 0 then ESTIMATED_FEE else cfg.fee;
    var closures := cfg.htlc.value.closures;
    var leafScript := LeafScript(closures, cfg.leafIndex);
    if leafScript.Err? {
      return Err;
    }
    LeafScriptCompiles(closures, cfg.leafIndex);
    var p2trScript := Bech32.P2TRScript(crypto.outputKey(LeafScripts(closures)));
    var destScript := Bech32.AddressToOutputScript(cfg.destAddress);
    if destScript.Err? {
      return Err;
    }
    var outputAmount := (cfg.amount - fee) % 0x1_0000_0000_0000_0000;
    if outputAmount <= DUST_LIMIT {
      return Err;
    }
    var sequence := FINAL_SEQUENCE;
    if cfg.leafIndex == REFUND {
      var encoded := BIP68Sequence(cfg.htlc.value.timeout);
      if encoded.Err? {
        return Err;
      }
      sequence := encoded.value;
    }
    return Ok(Core(cfg.fundTxid, cfg.fundVout, sequence, cfg.amount, outputAmount, fee,
                   p2trScript, destScript.value, leafScript.value));
  }

  lemma BuiltCore(crypto: Crypto, cfg: SpendConfig)
    requires ValidSpend(cfg) && SpendCore(crypto, cfg).Ok?
    ensures cfg.htlc.Some? && cfg.signingKey.Some? && (forall c :: c in cfg.htlc.value.closures ==> Script(c).Ok?)
    ensures |cfg.htlc.value.closures| == 2 && 0 <= cfg.leafIndex < 2
    ensures |SpendCore(crypto, cfg).value.leafScript| < 0x1_0000_0000
  {
    hide LeafScript, BIP68Sequence, Bech32.AddressToOutputScript, NewHTLCScript;
    LeafScriptIsShort(cfg.htlc.value.closures, cfg.leafIndex);
    LeafScriptCompiles(cfg.htlc.value.closures, cfg.leafIndex);
    TwoLeaves(cfg);
  }

  /** SpendHTLC: one transaction is sent if every step before it succeeded, none otherwise. */
  method SpendHTLC(crypto: Crypto, elementsd: ElementsdClient, cfg: SpendConfig, answer: Option<string>)
    returns (r: Result<string>)
    requires ValidSpend(cfg) && ShortSignatures(crypto)
    modifies elementsd
    ensures var tx := SpendTx(crypto, cfg);
            && elementsd.sent == old(elementsd.sent) + (if tx.Ok? then [tx.value] else [])
            && r == if tx.Err? || answer.None? then Err else Ok(answer.value)
  {
    hide SpendCore, NewHTLCScript, Serialize, SignAll, SpendStack, Script;
    var built := BuildCore(crypto, cfg);
    if built.Err? {
      return Err;
    }
    BuiltCore(crypto, cfg);
    var core := built.value;
    var controlBlock := crypto.controlBlock(LeafScripts(cfg.htlc.value.closures), cfg.leafIndex);
    var p := new Pset(core);
    var ok := p.SignTapscriptInput(crypto, [cfg.signingKey]);
    OneKeyLoop(crypto, crypto.sighash(core), cfg.signingKey.value);
    if !ok {
      return Err;
    }
    WriteWitness(p, cfg, core.leafScript, controlBlock);
    var txid := elementsd.SendRawTransaction(Sent(core, p.finalScriptWitness), answer);
    return if txid.None? then Err else Ok(txid.value);
  }

  lemma OneKeyLoop(crypto: Crypto, message: Bytes, key: Bytes)
    ensures var sig := crypto.sign(key, message);
            SignAll(crypto, message, [Some(key)]) ==
            if sig.None? then ([], false) else ([(crypto.publicKey(key), sig.value)], true)
  {
    assert Front([Some(key)]) == [] && Last([Some(key)]) == Some(key);
    assert SignAll(crypto, message, []) == ([], true);
    assert crypto.sign(key, message).Some? ==>
             [] + [(crypto.publicKey(key), crypto.sign(key, message).value)]
                 == [(crypto.publicKey(key), crypto.sign(key, message).value)];
  }

  // ------------------------------------------------------------ acceptance and amounts

  predicate HtlcOutput(crypto: Crypto, htlc: HTLCScript, utxo: Utxo) {
    && (forall c :: c in htlc.closures ==> Script(c).Ok?)
    && utxo.script == Bech32.P2TRScript(crypto.outputKey(LeafScripts(htlc.closures)))
  }

  /** The dust test of SpendHTLC passes for every amount below the fee but the last few, because the
      subtraction wraps around. */
  lemma DustTestWraps(cfg: SpendConfig)
    ensures OutputAmount(cfg) > DUST_LIMIT <==>
            || cfg.amount > SpendFee(cfg) + DUST_LIMIT
            || (cfg.amount < SpendFee(cfg) && SpendFee(cfg) - cfg.amount < 0x1_0000_0000_0000_0000 - DUST_LIMIT)
  {
  }

  /** What a spend is built from. */
  ghost predicate BuiltFrom(crypto: Crypto, cfg: SpendConfig, core: Core) {
    && cfg.htlc.Some? && cfg.signingKey.Some?
    && var closures := cfg.htlc.value.closures;
    && (forall c :: c in closures ==> Script(c).Ok?)
    && |closures| == 2 && 0 <= cfg.leafIndex < 2
    && core.leafScript == LeafScripts(closures)[cfg.leafIndex] == Script(closures[cfg.leafIndex]).value
    && core.prevoutScript == Bech32.P2TRScript(crypto.outputKey(LeafScripts(closures)))
    && core.inputAmount == cfg.amount && core.fee == SpendFee(cfg)
    && core.outputAmount == OutputAmount(cfg) > DUST_LIMIT
    && SpendSequence(cfg) == Ok(core.sequence)
    && core.txid == cfg.fundTxid && core.vout == cfg.fundVout
  }

  lemma SpendCoreParts(crypto: Crypto, cfg: SpendConfig)
    requires ValidSpend(cfg) && SpendCore(crypto, cfg).Ok?
    ensures BuiltFrom(crypto, cfg, SpendCore(crypto, cfg).value)
  {
    hide LeafScript, NewHTLCScript, BIP68Sequence, Bech32.AddressToOutputScript, OutputAmount, SpendFee, Script;
    LeafScriptCompiles(cfg.htlc.value.closures, cfg.leafIndex);
    TwoLeaves(cfg);
  }

  lemma SpendParts(crypto: Crypto, cfg: SpendConfig)
    requires ValidSpend(cfg) && SpendTx(crypto, cfg).Ok?
    ensures SpendCore(crypto, cfg).Ok? && BuiltFrom(crypto, cfg, SpendCore(crypto, cfg).value)
    ensures var core := SpendCore(crypto, cfg).value;
            var sig := crypto.sign(cfg.signingKey.value, crypto.sighash(core));
            && sig.Some? && Writable(SpendStack(cfg, sig.value) + [core.leafScript])
            && SpendTx(crypto, cfg).value == Sent(core, Serialize(SpendStack(cfg, sig.value) +
                 [core.leafScript, crypto.controlBlock(LeafScripts(cfg.htlc.value.closures), cfg.leafIndex)]))
  {
    hide SpendCore, NewHTLCScript, Serialize, SpendSequence, SpendStack, OutputAmount, SpendFee, Script;
    SpendCoreParts(crypto, cfg);
  }

  lemma SpendPaysDestination(crypto: Crypto, cfg: SpendConfig)
    requires ValidSpend(cfg) && SpendTx(crypto, cfg).Ok?
    ensures Bech32.AddressToOutputScript(cfg.destAddress) == Ok(SpendTx(crypto, cfg).value.core.destScript)
  {
    hide LeafScript, NewHTLCScript, BIP68Sequence, Bech32.AddressToOutputScript, Script, Serialize, SpendStack;
  }

  /** A spend to the printed address of a set of leaves makes an output that those leaves unlock. */
  lemma SpendPaysAddress(crypto: Crypto, cfg: SpendConfig, closures: seq<Closure>, hrp: string)
    requires ValidSpend(cfg) && SpendTx(crypto, cfg).Ok?
    requires Bech32.Ascii(hrp) && forall c :: c in closures ==> Script(c).Ok?
    requires cfg.destAddress == Address(crypto, closures, hrp)
    ensures SpendTx(crypto, cfg).value.core.destScript == Bech32.P2TRScript(crypto.outputKey(LeafScripts(closures)))
  {
    hide SpendTx, LeafScripts, Bech32.AddressToOutputScript, Bech32.P2TRScript, Bech32.EncodeBech32m;
    SpendPaysDestination(crypto, cfg);
    Bech32.AddressPaysToKey(hrp, crypto.outputKey(LeafScripts(closures)));
  }

  lemma TwoLeaves(cfg: SpendConfig)
    requires ValidSpend(cfg) && cfg.htlc.Some?
    ensures |cfg.htlc.value.closures| == 2
  {
  }

  /** What the chosen leaf asks for. */
  predicate RightSpend(crypto: Crypto, cfg: SpendConfig, age: Age)
    requires cfg.htlc.Some?
  {
    var h := cfg.htlc.value;
    if cfg.leafIndex == CLAIM then
      cfg.preimage.Some? && |cfg.preimage.value| <= MAX_ELEMENT && crypto.sha256(cfg.preimage.value) == h.paymentHash
    else SequenceLock(h.timeout.value, age)
  }

  /** A spend with the leaf's own key is taken by the chain exactly when its amount is the real value,
      not below the fee, and the preimage or the age is right. */
  lemma SpendIsAccepted(crypto: Crypto, cfg: SpendConfig, utxo: Utxo)
    requires SignsCorrectly(crypto) && ValidSpend(cfg) && SpendTx(crypto, cfg).Ok?
    requires HtlcOutput(crypto, cfg.htlc.value, utxo)
    requires cfg.signingKey.Some? && crypto.publicKey(cfg.signingKey.value) ==
               (if cfg.leafIndex == CLAIM then cfg.htlc.value.receiver else cfg.htlc.value.sender).x
    ensures ChainAccepts(crypto, LeafScripts(cfg.htlc.value.closures), utxo, SpendTx(crypto, cfg).value)
       <==> cfg.amount == utxo.value && cfg.amount >= SpendFee(cfg) && RightSpend(crypto, cfg, utxo.age)
  {
    hide Accepts, Serialize, SequenceLock, ChainAccepts, SpendTx, SpendCore, ConditionScript, CSVScript, NewHTLCScript,
         SequenceReached, BIP68Sequence;
    SpendParts(crypto, cfg);
    var core, h := SpendCore(crypto, cfg).value, cfg.htlc.value;
    HtlcLeavesCompile(h);
    var sig := crypto.sign(cfg.signingKey.value, crypto.sighash(core)).value;
    var stack := SpendStack(cfg, sig);
    StackIsWritable(stack, core.leafScript);
    HandBuiltSpend(crypto, LeafScripts(h.closures), cfg.leafIndex, utxo, core, stack, core.leafScript);
    FinalSequenceIsUnlocked(utxo.age);
    var signed := SignedCore(core, utxo, core.leafScript);
    WrapsOnlyBelowFee(cfg);
    if utxo.value == core.outputAmount + core.fee && cfg.amount >= SpendFee(cfg) {
      assert signed == core;
      assert ValidSig(InputEnv(crypto, core), crypto.publicKey(cfg.signingKey.value), sig);
    }
    if cfg.leafIndex == CLAIM {
      HashLockAccepts(InputEnv(crypto, signed), h.paymentHash, h.receiver, stack);
    } else {
      TimeoutAccepts(InputEnv(crypto, signed), h.timeout, h.sender, stack);
      ReachesItself(core.sequence);
    }
  }

  lemma WrapsOnlyBelowFee(cfg: SpendConfig)
    ensures cfg.amount >= SpendFee(cfg) ==> OutputAmount(cfg) + SpendFee(cfg) == cfg.amount
    ensures cfg.amount < SpendFee(cfg) ==> OutputAmount(cfg) + SpendFee(cfg) >= 0x1_0000_0000_0000_0000
  {
  }

  /** With the default fee an HTLC of at most 1046 satoshis can be neither claimed nor refunded: the
      spend is not sent, or not taken. */
  lemma SmallHtlcIsStuck(crypto: Crypto, cfg: SpendConfig, utxo: Utxo)
    requires ValidSpend(cfg) && cfg.fee == 0 && utxo.value <= 1046
    requires cfg.amount == utxo.value && cfg.htlc.Some? && HtlcOutput(crypto, cfg.htlc.value, utxo)
    ensures SpendTx(crypto, cfg).Ok? ==>
              !ChainAccepts(crypto, LeafScripts(cfg.htlc.value.closures), utxo, SpendTx(crypto, cfg).value)
  {
    hide Accepts, Serialize, SpendTx, SpendCore, NewHTLCScript, ReadWitness;
    if SpendTx(crypto, cfg).Ok? {
      SpendParts(crypto, cfg);
      WrapsOnlyBelowFee(cfg);
    }
  }
}
