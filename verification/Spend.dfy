/** Spending transactions with one input: what is signed, how signatures are collected, and when the
    chain takes the result (pkg/escrow/swap/tx.go). */
module Spend {
  import opened Basics
  import opened Interpreter
  import opened RelativeLocks
  import opened WitnessWire
  import Escrow

  /** The parts of the PSET that the signature hash commits to. */
  datatype Core = Core(
    txid: string, vout: uint32, sequence: uint32,
    inputAmount: uint64, outputAmount: uint64, fee: uint64,
    prevoutScript: Bytes, destScript: Bytes, leafScript: Bytes)

  type ControlBlock = b: Bytes | |b| <= 4129

  /** Keys, hashes and the taproot library, uninterpreted. Signing can fail. */
  datatype Crypto = Crypto(
    sha256: Bytes -> Bytes32,
    publicKey: Bytes -> Bytes32,
    sign: (Bytes, Bytes) -> Option<Bytes>,
    verify: (Bytes, Bytes, Bytes) -> bool,
    sighash: Core -> Bytes,
    outputKey: seq<Bytes> -> Bytes32,
    controlBlock: (seq<Bytes>, nat) -> ControlBlock)

  /** Signatures that the signer makes are 64 bytes and verify under the signer's public key. */
  ghost predicate SignsCorrectly(crypto: Crypto) {
    forall key, message :: crypto.sign(key, message).Some? ==>
      var sig := crypto.sign(key, message).value;
      |sig| == 64 && crypto.verify(crypto.publicKey(key), message, sig)
  }

  /** The hash as the interpreter takes it. */
  function Hash(crypto: Crypto): (hash: Bytes -> Bytes)
    ensures forall b :: hash(b) == crypto.sha256(b)
  {
    (b: Bytes) => crypto.sha256(b)
  }

  function InputEnv(crypto: Crypto, core: Core): Env {
    Escrow.MessageEnv(Hash(crypto), crypto.verify, crypto.sighash(core), core.sequence)
  }

  /** A partial signature: x-only public key and signature. */
  type PartialSig = (Bytes, Bytes)

  /** The map that the finalizer builds: a later signature of the same key replaces an earlier one. */
  function SigMap(sigs: seq<PartialSig>): map<Bytes, Bytes> {
    if sigs == [] then map[] else SigMap(Front(sigs))[Last(sigs).0 := Last(sigs).1]
  }

  /** What the signing loop appends, up to the first failure; nil keys are skipped. */
  function SignAll(crypto: Crypto, message: Bytes, keys: seq<Option<Bytes>>): (seq<PartialSig>, bool) {
    if keys == [] then ([], true)
    else
      var (sigs, ok) := SignAll(crypto, message, Front(keys));
      if !ok then (sigs, false)
      else
        match Last(keys)
        case None => (sigs, true)
        case Some(key) =>
          match crypto.sign(key, message)
          case None => (sigs, false)
          case Some(sig) => (sigs + [(crypto.publicKey(key), sig)], true)
  }

  class Pset {
    const core: Core
    var tapScriptSigs: seq<PartialSig>
    var finalScriptWitness: Bytes

    constructor (core: Core)
      ensures this.core == core && tapScriptSigs == [] && finalScriptWitness == []
    {
      this.core := core;
      tapScriptSigs, finalScriptWitness := [], [];
    }

    /** signTapscriptInput */
    method SignTapscriptInput(crypto: Crypto, keys: seq<Option<Bytes>>) returns (ok: bool)
      modifies this
      ensures finalScriptWitness == old(finalScriptWitness)
      ensures ok == SignAll(crypto, crypto.sighash(core), keys).1
      ensures tapScriptSigs == old(tapScriptSigs) + SignAll(crypto, crypto.sighash(core), keys).0
    {
      var message := crypto.sighash(core);
      assert keys[..0] == [] && old(tapScriptSigs) + [] == old(tapScriptSigs);
      for i := 0 to |keys|
        invariant finalScriptWitness == old(finalScriptWitness)
        invariant SignAll(crypto, message, keys[..i]).1
        invariant tapScriptSigs == old(tapScriptSigs) + SignAll(crypto, message, keys[..i]).0
      {
        assert Front(keys[..i + 1]) == keys[..i] && Last(keys[..i + 1]) == keys[i];
        if keys[i].None? {
          continue;
        }
        var sig := crypto.sign(keys[i].value, message);
        if sig.None? {
          SignAllStops(crypto, message, keys, i + 1);
          return false;
        }
        tapScriptSigs := tapScriptSigs + [(crypto.publicKey(keys[i].value), sig.value)];
      }
      assert keys[..|keys|] == keys;
      return true;
    }
  }

  /** A failed signature ends the loop: later keys change nothing. */
  lemma {:induction false} SignAllStops(crypto: Crypto, message: Bytes, keys: seq<Option<Bytes>>, n: nat)
    requires n <= |keys| && !SignAll(crypto, message, keys[..n]).1
    ensures SignAll(crypto, message, keys) == SignAll(crypto, message, keys[..n])
    decreases |keys|
  {
    if n == |keys| {
      assert keys[..n] == keys;
    } else {
      assert Front(keys)[..n] == keys[..n];
      SignAllStops(crypto, message, Front(keys), n);
    }
  }

  /** The signer works for the key at hand. */
  ghost predicate CanSignWith(crypto: Crypto, key: Bytes) {
    forall message :: crypto.sign(key, message).Some?
  }

  /** When every key signs, the loop gets to its end. */
  lemma {:induction false} AllKeysSign(crypto: Crypto, message: Bytes, keys: seq<Option<Bytes>>)
    requires forall key :: key in keys && key.Some? ==> CanSignWith(crypto, key.value)
    ensures SignAll(crypto, message, keys).1
  {
    if keys != [] {
      AllKeysSign(crypto, message, Front(keys));
      assert Last(keys) in keys;
    }
  }

  lemma {:induction false} SigMapSigns(crypto: Crypto, message: Bytes, keys: seq<Option<Bytes>>)
    requires SignsCorrectly(crypto)
    ensures var (sigs, ok) := SignAll(crypto, message, keys);
            && (forall key :: key in SigMap(sigs) ==>
                  |SigMap(sigs)[key]| == 64 && crypto.verify(key, message, SigMap(sigs)[key]))
            && (ok ==> forall i :: 0 <= i < |keys| && keys[i].Some? ==> crypto.publicKey(keys[i].value) in SigMap(sigs))
  {
    if keys != [] {
      SigMapSigns(crypto, message, Front(keys));
      var (sigs, ok) := SignAll(crypto, message, keys);
      var (sigs', ok') := SignAll(crypto, message, Front(keys));
      if sigs != sigs' {
        assert Front(sigs) == sigs';
      }
      assert forall i :: 0 <= i < |keys| - 1 ==> keys[i] == Front(keys)[i];
    }
  }

  // ------------------------------------------------------------ the chain

  const DUST_LIMIT := 546
  const ESTIMATED_FEE: uint64 := 500

  /** The output being spent. */
  datatype Utxo = Utxo(value: uint64, script: Bytes, age: Age)

  /** A leaf can be revealed for an output whose key commits to all leaf scripts. */
  predicate Reveals(crypto: Crypto, scripts: seq<Bytes>, utxo: Utxo, leafScript: Bytes, controlBlock: Bytes) {
    && utxo.script == [0x51, 0x20] + crypto.outputKey(scripts)
    && exists i :: 0 <= i < |scripts| && scripts[i] == leafScript && crypto.controlBlock(scripts, i) == controlBlock
  }

  /** A broadcast transaction: its signed part and the witness text of its input. */
  datatype Sent = Sent(core: Core, finalScriptWitness: Bytes)

  /** The output that a transaction makes, once it has some age. */
  function OutputOf(core: Core, age: Age): Utxo {
    Utxo(core.outputAmount, core.destScript, age)
  }

  /** The message that signatures are checked against: amount and script are those of the real output,
      and the leaf is the revealed one, whatever the builder of the transaction put in. */
  function SignedCore(core: Core, utxo: Utxo, leafScript: Bytes): Core {
    core.(inputAmount := utxo.value, prevoutScript := utxo.script, leafScript := leafScript)
  }

  /** The elementsd client: a log of what was sent; its answers are an input. */
  class ElementsdClient {
    var sent: seq<Sent>

    constructor ()
      ensures sent == []
    {
      sent := [];
    }

    method SendRawTransaction(tx: Sent, answer: Option<string>) returns (txid: Option<string>)
      modifies this
      ensures sent == old(sent) + [tx] && txid == answer
    {
      sent := sent + [tx];
      txid := answer;
    }
  }

  /** Consensus on a spend: the witness reads as a stack, a leaf script and its control block, the
      sequence lock is over, the leaf accepts the stack, and value in is value out plus fee. */
  ghost predicate ChainAccepts(crypto: Crypto, scripts: seq<Bytes>, utxo: Utxo, sent: Sent) {
    var items := ReadWitness(sent.finalScriptWitness);
    && items.Some? && |items.value| >= 2
    && var n := |items.value| - 2;
    && Reveals(crypto, scripts, utxo, items.value[n], items.value[n + 1])
    && SequenceLock(sent.core.sequence, utxo.age)
    && Accepts(InputEnv(crypto, SignedCore(sent.core, utxo, items.value[n])), items.value[n], items.value[..n])
    && utxo.value == sent.core.outputAmount + sent.core.fee
  }

  /** A hand-built witness is the stack followed by the leaf script and its control block. */
  lemma FinalWitnessReads(stack: seq<Item>, leafScript: Item, controlBlock: ControlBlock)
    requires |stack| <= 250
    ensures ReadWitness(Serialize(stack + [leafScript, controlBlock])) == Some(stack + [leafScript, controlBlock])
    ensures (stack + [leafScript, controlBlock])[..|stack|] == stack
  {
    hide ReadWitness, Serialize;
    WireRoundTrip(stack + [leafScript, controlBlock]);
  }

  /** What is left of consensus for a spend of leaf `i` with a hand-built witness. */
  lemma HandBuiltSpend(crypto: Crypto, scripts: seq<Bytes>, i: nat, utxo: Utxo, core: Core, stack: seq<Item>,
                       leafScript: Item)
    requires i < |scripts| && scripts[i] == leafScript && |stack| <= 250
    requires utxo.script == [0x51, 0x20] + crypto.outputKey(scripts)
    ensures var sent := Sent(core, Serialize(stack + [leafScript, crypto.controlBlock(scripts, i)]));
            ChainAccepts(crypto, scripts, utxo, sent) <==>
            && SequenceLock(core.sequence, utxo.age)
            && Accepts(InputEnv(crypto, SignedCore(core, utxo, leafScript)), leafScript, stack)
            && utxo.value == core.outputAmount + core.fee
  {
    hide ReadWitness, Serialize, Accepts, SequenceLock;
    var controlBlock := crypto.controlBlock(scripts, i);
    FinalWitnessReads(stack, leafScript, controlBlock);
    assert Reveals(crypto, scripts, utxo, leafScript, controlBlock);
  }
}
