/** The layers together: the steps of the swap are spends the chain takes, and an escrow funded by the
    swap is claimed with the swapped amount less the fee of the HTLC. */
module EndToEnd {
  import opened Basics
  import opened ClosureSpec
  import opened Interpreter
  import opened RelativeLocks
  import opened Spend
  import opened EscrowClaim
  import opened Htlc
  import Bech32
  import Recovery
  import Swap
  import Hex
  import Escrow
  import WitnessWire

  /** A configuration of SpendHTLC with which nothing can go wrong before the transaction is sent, but
      the amount. */
  ghost predicate ReadyToSpend(crypto: Crypto, cfg: SpendConfig) {
    && ValidSpend(cfg) && cfg.htlc.Some? && cfg.signingKey.Some?
    && (cfg.leafIndex == CLAIM || cfg.leafIndex == REFUND)
    && CanSignWith(crypto, cfg.signingKey.value)
    && Bech32.AddressToOutputScript(cfg.destAddress).Ok?
    && (cfg.preimage.Some? ==> |cfg.preimage.value| <= MAX_ELEMENT)
    && crypto.publicKey(cfg.signingKey.value) ==
         (if cfg.leafIndex == CLAIM then cfg.htlc.value.receiver else cfg.htlc.value.sender).x
    && (cfg.leafIndex == CLAIM ==>
          cfg.preimage.Some? && crypto.sha256(cfg.preimage.value) == cfg.htlc.value.paymentHash)
  }

  lemma CoreIsBuilt(crypto: Crypto, cfg: SpendConfig)
    requires ReadyToSpend(crypto, cfg)
    ensures SpendCore(crypto, cfg).Ok? <==> OutputAmount(cfg) > DUST_LIMIT
  {
    hide Bech32.AddressToOutputScript, Script, OutputAmount, SpendFee;
    HtlcLeavesCompile(cfg.htlc.value);
    AllCompile(cfg.htlc.value.closures, cfg.leafIndex);
  }

  lemma SpendIsSent(crypto: Crypto, cfg: SpendConfig)
    requires SignsCorrectly(crypto) && ReadyToSpend(crypto, cfg)
    ensures SpendTx(crypto, cfg).Ok? <==> OutputAmount(cfg) > DUST_LIMIT
  {
    hide SpendCore, NewHTLCScript, Bech32.AddressToOutputScript, WitnessWire.Serialize, OutputAmount, SpendFee, Script;
    CoreIsBuilt(crypto, cfg);
    if OutputAmount(cfg) > DUST_LIMIT {
      BuiltCore(crypto, cfg);
      var sig := crypto.sign(cfg.signingKey.value, crypto.sighash(SpendCore(crypto, cfg).value));
      assert sig.Some?;
      assert Writable(SpendStack(cfg, sig.value) + [SpendCore(crypto, cfg).value.leafScript]);
    }
  }

  /** SpendHTLC sends a transaction and the chain takes it. */
  ghost predicate SpendTaken(crypto: Crypto, cfg: SpendConfig, htlc: Utxo) {
    && ValidSpend(cfg) && SpendTx(crypto, cfg).Ok? && HtlcOutput(crypto, cfg.htlc.value, htlc)
    && ChainAccepts(crypto, LeafScripts(cfg.htlc.value.closures), htlc, SpendTx(crypto, cfg).value)
  }

  /** The amounts and times of a swap state are those of a real output and of a spend of it. */
  predicate Describes(t: Swap.Terms, s: Swap.State, cfg: SpendConfig, utxo: Utxo)
    requires cfg.htlc.Some?
  {
    && cfg.amount == t.amount == utxo.value && SpendFee(cfg) == t.fee
    && cfg.htlc.value.timeout.value == t.timeout && utxo.age == s.age
  }

  /** In the swap, an unspent HTLC can be claimed or refunded exactly when SpendHTLC sends a transaction
      for that leaf and the chain takes it. */
  lemma SwapStepsAreSpends(crypto: Crypto, t: Swap.Terms, s: Swap.State, cfg: SpendConfig, utxo: Utxo)
    requires SignsCorrectly(crypto) && ReadyToSpend(crypto, cfg) && HtlcOutput(crypto, cfg.htlc.value, utxo)
    requires Describes(t, s, cfg, utxo) && s.output == Swap.Unspent
    ensures cfg.leafIndex == REFUND ==>
              (SpendTaken(crypto, cfg, utxo) <==> Swap.Apply(t, s, Swap.RefundHtlc).Some?)
    ensures cfg.leafIndex == CLAIM && s.control == Swap.Claiming ==>
              (SpendTaken(crypto, cfg, utxo) <==> Swap.Apply(t, s, Swap.ClaimHtlc(Swap.Done)).Some?)
  {
    hide SequenceLock, SpendTx, ChainAccepts, LeafScripts, HtlcOutput, Bech32.AddressToOutputScript, NewHTLCScript;
    SpendIsSent(crypto, cfg);
    DustTestWraps(cfg);
    if SpendTx(crypto, cfg).Ok? {
      SpendIsAccepted(crypto, cfg, utxo);
    }
  }

  /** At the default fee, a spend that is otherwise in order is taken exactly when the HTLC holds more than
      1046 satoshis. */
  lemma DefaultFeeSpend(crypto: Crypto, cfg: SpendConfig, utxo: Utxo)
    requires SignsCorrectly(crypto) && ReadyToSpend(crypto, cfg) && HtlcOutput(crypto, cfg.htlc.value, utxo)
    requires cfg.fee == 0 && cfg.amount == utxo.value && RightSpend(crypto, cfg, utxo.age)
    ensures SpendTaken(crypto, cfg, utxo) <==> utxo.value > 1046
  {
    hide SequenceLock, SpendTx, ChainAccepts, LeafScripts, HtlcOutput, Bech32.AddressToOutputScript, NewHTLCScript;
    SpendIsSent(crypto, cfg);
    DustTestWraps(cfg);
    if SpendTx(crypto, cfg).Ok? {
      SpendIsAccepted(crypto, cfg, utxo);
    }
  }

  /** The swap's claim goes to the printed address of the escrow. */
  predicate PaysEscrow(crypto: Crypto, swap: SpendConfig, escrow: Escrow.EscrowScript, hrp: string) {
    && Bech32.Ascii(hrp) && (forall c :: c in escrow.closures ==> Script(c).Ok?)
    && swap.destAddress == Address(crypto, escrow.closures, hrp)
  }

  /** The escrow output that the swap's claim makes, at some age. */
  function Escrowed(crypto: Crypto, swap: SpendConfig, age: Age): Utxo
    requires ValidSpend(swap) && SpendTx(crypto, swap).Ok?
  {
    OutputOf(SpendTx(crypto, swap).value.core, age)
  }

  /** The transaction that claims the HTLC to the address of the escrow makes an output of the escrow,
      worth the HTLC less its fee. */
  lemma SwapFundsEscrow(crypto: Crypto, swap: SpendConfig, htlc: Utxo, escrow: Escrow.EscrowScript, hrp: string,
                        age: Age)
    requires SpendTaken(crypto, swap, htlc) && PaysEscrow(crypto, swap, escrow, hrp)
    ensures EscrowOutput(crypto, escrow, Escrowed(crypto, swap, age))
    ensures Escrowed(crypto, swap, age).value == htlc.value - SpendFee(swap) < htlc.value
    ensures Escrowed(crypto, swap, age).value > DUST_LIMIT
  {
    hide SpendTx, LeafScripts, Address, Bech32.P2TRScript;
    AmountArrives(crypto, swap, htlc);
    SpendPaysAddress(crypto, swap, escrow.closures, hrp);
  }

  /** Value over two hops: when the chain takes the HTLC's claim to the address of the escrow and then
      the claim of the output it made, what arrives is what was locked less the two fees, and neither
      output is dust. */
  lemma TwoHopsConserveValue(crypto: Crypto, swap: SpendConfig, htlc: Utxo, claim: ClaimConfig, hrp: string, age: Age)
    requires SpendTaken(crypto, swap, htlc)
    requires ValidConfig(claim) && ClaimTx(crypto, claim).Ok? && PaysEscrow(crypto, swap, claim.escrow.value, hrp)
    requires ChainAccepts(crypto, LeafScripts(claim.escrow.value.closures), Escrowed(crypto, swap, age),
                          ClaimTx(crypto, claim).value)
    ensures var out := ClaimTx(crypto, claim).value.core.outputAmount;
            && out + Fee(claim) + SpendFee(swap) == htlc.value
            && Escrowed(crypto, swap, age).value > DUST_LIMIT && out > DUST_LIMIT
            && claim.amount == htlc.value - SpendFee(swap)
            && PaysAsTold(claim, ClaimTx(crypto, claim).value.core)
  {
    hide ValidSpend, HtlcOutput, SpendTx, PaysEscrow, Escrowed, ChainAccepts, ClaimTx, ClaimCore,
         Escrow.NewEscrowScript;
    ClaimParts(crypto, claim);
    SwapFundsEscrow(crypto, swap, htlc, claim.escrow.value, hrp, age);
    AcceptedAmount(crypto, claim, Escrowed(crypto, swap, age));
    ClaimPaysDestination(crypto, claim);
  }

  lemma AcceptedAmount(crypto: Crypto, claim: ClaimConfig, utxo: Utxo)
    requires ValidConfig(claim) && ClaimTx(crypto, claim).Ok? && EscrowOutput(crypto, claim.escrow.value, utxo)
    requires ChainAccepts(crypto, LeafScripts(claim.escrow.value.closures), utxo, ClaimTx(crypto, claim).value)
    ensures var core := ClaimTx(crypto, claim).value.core;
            core.outputAmount + Fee(claim) == utxo.value == claim.amount && core.outputAmount > DUST_LIMIT
  {
    hide Accepts, WitnessWire.ReadWitness, WitnessWire.Serialize, ClaimTx, ClaimCore, Escrow.NewEscrowScript, Reveals;
    ClaimParts(crypto, claim);
    CoreParts(crypto, claim);
  }

  /** After the swap, a claim of the output it made, with the right keys, is taken exactly when it is
      given the swapped amount less the fee of the HTLC. */
  lemma ClaimAfterSwap(crypto: Crypto, swap: SpendConfig, htlc: Utxo, claim: ClaimConfig, hrp: string, age: Age)
    requires SignsCorrectly(crypto) && SpendTaken(crypto, swap, htlc)
    requires ValidConfig(claim) && ClaimTx(crypto, claim).Ok? && PaysEscrow(crypto, swap, claim.escrow.value, hrp)
    requires RightClaim(crypto, claim.escrow.value.params, claim.leaf, claim.signingKeys, claim.preimage, age)
    ensures ChainAccepts(crypto, LeafScripts(claim.escrow.value.closures), Escrowed(crypto, swap, age),
                         ClaimTx(crypto, claim).value)
       <==> claim.amount == htlc.value - SpendFee(swap)
  {
    hide ValidSpend, HtlcOutput, SpendTx, ClaimTx, ChainAccepts, PaysEscrow, RightClaim, EscrowOutput,
         Escrow.NewEscrowScript;
    ClaimParts(crypto, claim);
    SwapFundsEscrow(crypto, swap, htlc, claim.escrow.value, hrp, age);
    ClaimIsAccepted(crypto, claim, Escrowed(crypto, swap, age));
  }

  /** The swap pays to the address of the escrow that the kit rebuilds. */
  predicate PaysKit(crypto: Crypto, curve: Curve, swap: SpendConfig, kit: Recovery.RecoveryKit, hrp: string) {
    && Recovery.KitParams(curve, kit).Ok? && Escrow.NewEscrowScript(Recovery.KitParams(curve, kit).value).Ok?
    && PaysEscrow(crypto, swap, Escrow.NewEscrowScript(Recovery.KitParams(curve, kit).value).value, hrp)
  }

  /** A kit records the amount of its deal. When the escrow was funded by a swap of that amount, the
      kit's claim is refused, and with the amount lowered by the fee of the HTLC it is taken. */
  lemma KitAfterSwap(crypto: Crypto, curve: Curve, kit: Recovery.RecoveryKit, preimage: Option<Bytes>, dest: string,
                     fee: uint64, swap: SpendConfig, htlc: Utxo, hrp: string, age: Age)
    requires SignsCorrectly(crypto) && SpendTaken(crypto, swap, htlc) && PaysKit(crypto, curve, swap, kit, hrp)
    requires kit.amount == htlc.value && kit.timeoutBlocks <= 0xffff
    requires kit.amount > SpendFee(swap) + (if fee == 0 then ESTIMATED_FEE else fee) + DUST_LIMIT
    requires Recovery.Usable(crypto, curve, kit, preimage, dest)
    requires Recovery.KitMayClaim(crypto, kit, Recovery.KitParams(curve, kit).value, preimage, age)
    ensures !Recovery.KitClaimTaken(crypto, curve, kit, preimage, dest, fee, Escrowed(crypto, swap, age))
    ensures var lowered := kit.(amount := htlc.value - SpendFee(swap));
            Recovery.KitClaimTaken(crypto, curve, lowered, preimage, dest, fee, Escrowed(crypto, swap, age))
  {
    hide ValidSpend, HtlcOutput, ChainAccepts, SpendTx, Escrowed, PaysEscrow, EscrowOutput, Escrow.NewEscrowScript,
         Hex.DecodeString, Recovery.KitParams, Recovery.Usable, Recovery.KitClaimTaken;
    var escrowed := Escrowed(crypto, swap, age);
    var escrow := Escrow.NewEscrowScript(Recovery.KitParams(curve, kit).value).value;
    SwapFundsEscrow(crypto, swap, htlc, escrow, hrp, age);
    assert escrowed.age == age by { AgeOfOutput(crypto, swap, age); }
    Recovery.SelfCustody(crypto, curve, kit, preimage, dest, fee, escrowed);
    var lowered := kit.(amount := htlc.value - SpendFee(swap));
    Recovery.AmountIsFree(crypto, curve, kit, lowered.amount, preimage, dest);
    Recovery.SelfCustody(crypto, curve, lowered, preimage, dest, fee, escrowed);
  }

  lemma AgeOfOutput(crypto: Crypto, swap: SpendConfig, age: Age)
    requires ValidSpend(swap) && SpendTx(crypto, swap).Ok?
    ensures Escrowed(crypto, swap, age).age == age
  {
    hide SpendTx;
  }

  lemma AmountArrives(crypto: Crypto, swap: SpendConfig, htlc: Utxo)
    requires SpendTaken(crypto, swap, htlc)
    ensures DUST_LIMIT < SpendTx(crypto, swap).value.core.outputAmount == htlc.value - SpendFee(swap) < htlc.value
  {
    hide Accepts, WitnessWire.Serialize, WitnessWire.ReadWitness, SpendTx, SpendCore, NewHTLCScript;
    SpendParts(crypto, swap);
    WrapsOnlyBelowFee(swap);
  }
}
