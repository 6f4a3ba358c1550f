/** Who can have a transaction taken that spends an escrow: the access structure at the level of the
    chain, where signatures commit to the whole transaction. */
module ChainAccess {
  import opened Basics
  import opened Locktime
  import opened ClosureSpec
  import opened Interpreter
  import opened RelativeLocks
  import opened Escrow
  import opened WitnessWire
  import opened Spend
  import opened EscrowClaim
  import Bech32

  /** The scheme of a spend in which only the leaf and nSequence are still to be chosen. */
  function SchemeOf(crypto: Crypto, core: Core): Scheme {
    Scheme(Hash(crypto), crypto.verify,
           (script, sequence) => crypto.sighash(core.(leafScript := script, sequence := sequence)))
  }

  /** A transaction for an output, with leaf and nSequence left open. */
  function Template(core: Core, utxo: Utxo): Core {
    SignedCore(core, utxo, []).(sequence := 0)
  }

  /** Some transaction is taken whose witness, up to the leaf and its control block, the spender can
      produce. */
  ghost predicate CanSpend(crypto: Crypto, produces: Bytes -> bool, scripts: seq<Bytes>, utxo: Utxo) {
    exists sent :: Takes(crypto, produces, scripts, utxo, sent)
  }

  ghost predicate Takes(crypto: Crypto, produces: Bytes -> bool, scripts: seq<Bytes>, utxo: Utxo, sent: Sent) {
    && ChainAccepts(crypto, scripts, utxo, sent)
    && var items := ReadWitness(sent.finalScriptWitness).value;
    forall i :: 0 <= i < |items| - 2 ==> produces(items[i])
  }

  /** The environment of a spend is that of its scheme. */
  lemma SameEnv(crypto: Crypto, core: Core, utxo: Utxo, leafScript: Bytes)
    ensures InputEnv(crypto, SignedCore(core, utxo, leafScript))
         == LeafEnv(SchemeOf(crypto, Template(core, utxo)), leafScript, core.sequence)
  {
    var scheme := SchemeOf(crypto, Template(core, utxo));
    assert Template(core, utxo).(leafScript := leafScript, sequence := core.sequence)
        == SignedCore(core, utxo, leafScript);
    assert scheme.message(leafScript, core.sequence) == crypto.sighash(SignedCore(core, utxo, leafScript));
  }

  /** A transaction that is taken opens one of the leaves. */
  lemma TakenOpensLeaf(crypto: Crypto, produces: Bytes -> bool, closures: seq<Closure>, utxo: Utxo, sent: Sent)
    requires (forall c :: c in closures ==> Script(c).Ok?) && Takes(crypto, produces, LeafScripts(closures), utxo, sent)
    ensures OpensSomeLeaf(SchemeOf(crypto, Template(sent.core, utxo)), produces, utxo.age, closures)
  {
    hide Accepts, SequenceLock, ReadWitness, Script, SchemeOf, InputEnv, LeafEnv;
    var items := ReadWitness(sent.finalScriptWitness).value;
    var n := |items| - 2;
    var scheme := SchemeOf(crypto, Template(sent.core, utxo));
    var leaf :| 0 <= leaf < |closures| && LeafScripts(closures)[leaf] == items[n];
    assert LeafScript(closures, leaf) == Ok(items[n]);
    SameEnv(crypto, sent.core, utxo, items[n]);
    assert forall item :: item in items[..n] ==> produces(item);
    assert Spends(scheme, produces, utxo.age, items[n], sent.core.sequence, items[..n]);
  }

  /** A short stack that opens a leaf is part of a transaction that is taken. */
  lemma OpenLeafIsTaken(crypto: Crypto, produces: Bytes -> bool, closures: seq<Closure>, utxo: Utxo, core: Core,
                        leaf: nat, sequence: uint32, stack: Stack)
    requires leaf < |closures| && LeafScript(closures, leaf).Ok? && |stack| <= 250
    requires (forall c :: c in closures ==> Script(c).Ok?)
    requires utxo.script == Bech32.P2TRScript(crypto.outputKey(LeafScripts(closures)))
    requires utxo.value == core.outputAmount + core.fee
    requires Spends(SchemeOf(crypto, Template(core, utxo)), produces, utxo.age,
                    LeafScript(closures, leaf).value, sequence, stack)
    ensures CanSpend(crypto, produces, LeafScripts(closures), utxo)
  {
    hide SequenceLock, ReadWitness, Serialize, Script, SchemeOf, InputEnv, LeafEnv, Exec;
    LeafScriptCompiles(closures, leaf);
    LeafScriptIsShort(closures, leaf);
    var script := LeafScript(closures, leaf).value;
    var chosen := core.(sequence := sequence);
    assert Template(chosen, utxo) == Template(core, utxo);
    SameEnv(crypto, chosen, utxo, script);
    HandBuiltSpend(crypto, LeafScripts(closures), leaf, utxo, chosen, stack, script);
    var controlBlock := crypto.controlBlock(LeafScripts(closures), leaf);
    FinalWitnessReads(stack, script, controlBlock);
    assert Takes(crypto, produces, LeafScripts(closures), utxo,
                 Sent(chosen, Serialize(stack + [script, controlBlock])));
  }

  /** The leaves of an escrow take at most two items. */
  lemma EscrowStacksAreShort(env: Env, params: EscrowParams, leaf: nat, stack: Stack)
    requires NewEscrowScript(params).Ok? && BIP68Sequence(params.timeout).Ok? && leaf < 4
    requires forall b :: |env.sha256(b)| == 32
    requires var script := Script(NewEscrowScript(params).value.closures[leaf]);
             script.Ok? && Accepts(env, script.value, stack)
    ensures |stack| <= 2
  {
    hide Accepts, ConditionScript, CSVScript, MultisigScript, BIP68Sequence;
    HashLockAccepts(env, params.secretHash, params.seller.value, stack);
    TimeoutAccepts(env, params.timeout, params.buyer.value, stack);
    DisputeAccepts(env, params.oracle.value, params.seller.value, stack);
    DisputeAccepts(env, params.oracle.value, params.buyer.value, stack);
  }

  /** If some leaf opens for the transactions of a template, one of them is taken. */
  lemma EscrowLeafIsTaken(crypto: Crypto, produces: Bytes -> bool, params: EscrowParams, utxo: Utxo, core: Core)
    requires NewEscrowScript(params).Ok? && BIP68Sequence(params.timeout).Ok?
    requires EscrowOutput(crypto, NewEscrowScript(params).value, utxo) && utxo.value == core.outputAmount + core.fee
    requires OpensSomeLeaf(SchemeOf(crypto, Template(core, utxo)), produces, utxo.age,
                           NewEscrowScript(params).value.closures)
    ensures CanSpend(crypto, produces, LeafScripts(NewEscrowScript(params).value.closures), utxo)
  {
    hide Accepts, SequenceLock, BIP68Sequence, Script, LeafScripts, CanSpend;
    var closures := NewEscrowScript(params).value.closures;
    var scheme := SchemeOf(crypto, Template(core, utxo));
    var leaf: nat :| leaf < |closures| && LeafScript(closures, leaf).Ok?
                     && CanOpen(scheme, produces, utxo.age, LeafScript(closures, leaf).value);
    LeafScriptCompiles(closures, leaf);
    var script := LeafScript(closures, leaf).value;
    var sequence, stack :| Spends(scheme, produces, utxo.age, script, sequence, stack);
    EscrowStacksAreShort(LeafEnv(scheme, script, sequence), params, leaf, stack);
    OpenLeafIsTaken(crypto, produces, closures, utxo, core, leaf, sequence, stack);
  }

  /** The access structure of an escrow output: for any spender, some transaction with a witness of its
      own making is taken by the chain exactly when the spender is the seller with a preimage, the buyer
      after the timeout, or the oracle together with one of them. */
  lemma EscrowAccessOnChain(crypto: Crypto, produces: Bytes -> bool, keys: set<Bytes>, params: EscrowParams, utxo: Utxo)
    requires HoldsKeys(crypto.verify, produces, keys)
    requires NewEscrowScript(params).Ok? && BIP68Sequence(params.timeout).Ok?
    requires EscrowOutput(crypto, NewEscrowScript(params).value, utxo)
    ensures CanSpend(crypto, produces, LeafScripts(NewEscrowScript(params).value.closures), utxo)
       <==> var seller, buyer, oracle := params.seller.value.x, params.buyer.value.x, params.oracle.value.x;
            || (seller in keys &&
                exists p :: produces(p) && |p| <= MAX_ELEMENT && crypto.sha256(p) == params.secretHash)
            || (buyer in keys && SequenceLock(BIP68Sequence(params.timeout).value, utxo.age))
            || (oracle in keys && seller in keys)
            || (oracle in keys && buyer in keys)
  {
    hide OpensSomeLeaf, HoldsKeys, SequenceLock, BIP68Sequence, LeafScripts, Takes, NewEscrowScript, Template;
    var closures := NewEscrowScript(params).value.closures;
    var scripts := LeafScripts(closures);
    var core := Core("", 0, 0, 0, utxo.value, 0, [], [], []);
    EscrowAccess(SchemeOf(crypto, Template(core, utxo)), produces, keys, utxo.age, params);
    if OpensSomeLeaf(SchemeOf(crypto, Template(core, utxo)), produces, utxo.age, closures) {
      EscrowLeafIsTaken(crypto, produces, params, utxo, core);
    }
    if sent :| Takes(crypto, produces, scripts, utxo, sent) {
      TakenOpensLeaf(crypto, produces, closures, utxo, sent);
      EscrowAccess(SchemeOf(crypto, Template(sent.core, utxo)), produces, keys, utxo.age, params);
    }
  }
}
