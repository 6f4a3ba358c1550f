/** Recovery kits (pkg/escrow/recovery.go): a kit that validates is enough to claim. */
module Recovery {
  import opened Basics
  import opened Locktime
  import opened ClosureSpec
  import opened Interpreter
  import opened RelativeLocks
  import opened Escrow
  import opened Spend
  import opened DealSpec
  import opened EscrowClaim
  import Bech32
  import Hex
  import WitnessWire

  datatype RecoveryKit = RecoveryKit(
    role: string, privKey: string, secret: string,
    sellerPubKey: string, buyerPubKey: string, oraclePubKey: string, secretHash: string, timeoutBlocks: uint32,
    fundTxid: string, fundVout: uint32, amount: uint64, networkHRP: string)

  function KitForBuyer(d: DealFields): Result<RecoveryKit> {
    if d.buyerPrivKey == "" then Err
    else Ok(RecoveryKit("buyer", d.buyerPrivKey, d.secret, d.sellerPubKey, d.buyerPubKey, d.oraclePubKey, d.secretHash,
                        d.timeoutBlocks, d.fundTxid, d.fundVout, d.amount, "ert"))
  }

  function KitForSeller(d: DealFields): Result<RecoveryKit> {
    if d.sellerPrivKey == "" then Err
    else Ok(RecoveryKit("seller", d.sellerPrivKey, "", d.sellerPubKey, d.buyerPubKey, d.oraclePubKey, d.secretHash,
                        d.timeoutBlocks, d.fundTxid, d.fundVout, d.amount, "ert"))
  }

  /** RecoveryKit.EscrowParams, by way of a deal with only the kit's fields. */
  function KitParams(curve: Curve, kit: RecoveryKit): Result<EscrowParams> {
    DealParams(curve, DealFields("", Created, "", 0, kit.sellerPubKey, kit.buyerPubKey, kit.oraclePubKey,
                                 kit.secretHash, kit.timeoutBlocks, "", "", 0, "", "", "", ""))
  }

  function RoleKey(kit: RecoveryKit): string {
    if kit.role == "seller" then kit.sellerPubKey else kit.buyerPubKey
  }

  /** What Validate accepts: complete fields, and a 32-byte private key whose x-only public key is the
      role's public key, compressed or not. */
  predicate ValidKit(publicKey: Bytes -> Bytes32, kit: RecoveryKit) {
    var priv, pub := Hex.DecodeString(kit.privKey), Hex.DecodeString(RoleKey(kit));
    && (kit.role == "buyer" || kit.role == "seller")
    && kit.sellerPubKey != "" && kit.buyerPubKey != "" && kit.oraclePubKey != "" && kit.secretHash != ""
    && kit.timeoutBlocks != 0 && kit.amount != 0
    && priv.Ok? && |priv.value| == 32 && pub.Ok?
    && publicKey(priv.value) == if |pub.value| == 33 then pub.value[1..] else pub.value
  }

  method Validate(publicKey: Bytes -> Bytes32, kit: RecoveryKit) returns (ok: bool)
    ensures ok <==> ValidKit(publicKey, kit)
  {
    if kit.role != "buyer" && kit.role != "seller" {
      return false;
    }
    if kit.privKey == "" {
      assert Hex.DecodeString(kit.privKey) == Ok([]);
      return false;
    }
    var privBytes := Hex.DecodeString(kit.privKey);
    if privBytes.Err? || |privBytes.value| != 32 {
      return false;
    }
    if kit.sellerPubKey == "" || kit.buyerPubKey == "" || kit.oraclePubKey == "" {
      return false;
    }
    if kit.secretHash == "" {
      return false;
    }
    if kit.timeoutBlocks == 0 {
      return false;
    }
    if kit.amount == 0 {
      return false;
    }
    var derived := publicKey(privBytes.value);
    var expectedHex := kit.buyerPubKey;
    if kit.role == "seller" {
      expectedHex := kit.sellerPubKey;
    }
    var expected := Hex.DecodeString(expectedHex);
    if expected.Err? {
      return false;
    }
    var expectedBytes := expected.value;
    if |expectedBytes| == 33 {
      expectedBytes := expectedBytes[1..];
    }
    if |derived| != |expectedBytes| {
      return false;
    }
    for i := 0 to |derived|
      invariant forall k :: 0 <= k < i ==> derived[k] == expectedBytes[k]
    {
      if derived[i] != expectedBytes[i] {
        return false;
      }
    }
    return true;
  }

  // ------------------------------------------------------------ what a kit holds

  /** The 32-byte private key in a text. */
  predicate HoldsKey(publicKey: Bytes -> Bytes32, text: string, key: Option<PubKey>) {
    var priv := Hex.DecodeString(text);
    key.Some? && priv.Ok? && |priv.value| == 32 && publicKey(priv.value) == key.value.x
  }

  /** A kit with escrow parameters validates exactly when it names a role and holds the private key of
      that role, an amount, and a timeout. */
  lemma ValidKitIs(curve: Curve, publicKey: Bytes -> Bytes32, kit: RecoveryKit)
    requires KitParams(curve, kit).Ok?
    ensures var params := KitParams(curve, kit).value;
            ValidKit(publicKey, kit) <==>
            && (kit.role == "buyer" || kit.role == "seller") && kit.timeoutBlocks != 0 && kit.amount != 0
            && HoldsKey(publicKey, kit.privKey, if kit.role == "seller" then params.seller else params.buyer)
  {
    hide Hex.DecodeString;
  }

  /** The buyer's kit: there is one exactly when the deal has the buyer's private key. It holds the deal's
      outpoint, amount and secret, and validates exactly when the private key is that of the deal's buyer
      and the deal has an amount and a timeout. */
  lemma BuyerKit(curve: Curve, publicKey: Bytes -> Bytes32, d: DealFields)
    requires DealParams(curve, d).Ok?
    ensures KitForBuyer(d).Ok? <==> d.buyerPrivKey != ""
    ensures KitForBuyer(d).Ok? ==>
              var kit := KitForBuyer(d).value;
              && KitParams(curve, kit) == DealParams(curve, d)
              && kit.role == "buyer" && kit.secret == d.secret && kit.amount == d.amount
              && kit.fundTxid == d.fundTxid && kit.fundVout == d.fundVout && kit.networkHRP == "ert"
              && (ValidKit(publicKey, kit) <==>
                    && d.timeoutBlocks != 0 && d.amount != 0
                    && HoldsKey(publicKey, d.buyerPrivKey, DealParams(curve, d).value.buyer))
  {
    hide Hex.DecodeString, ValidKit, HoldsKey;
    if KitForBuyer(d).Ok? {
      ValidKitIs(curve, publicKey, KitForBuyer(d).value);
    }
  }

  /** And the seller's, which holds no secret. */
  lemma SellerKit(curve: Curve, publicKey: Bytes -> Bytes32, d: DealFields)
    requires DealParams(curve, d).Ok?
    ensures KitForSeller(d).Ok? <==> d.sellerPrivKey != ""
    ensures KitForSeller(d).Ok? ==>
              var kit := KitForSeller(d).value;
              && KitParams(curve, kit) == DealParams(curve, d)
              && kit.role == "seller" && kit.secret == "" && kit.amount == d.amount
              && kit.fundTxid == d.fundTxid && kit.fundVout == d.fundVout && kit.networkHRP == "ert"
              && (ValidKit(publicKey, kit) <==>
                    && d.timeoutBlocks != 0 && d.amount != 0
                    && HoldsKey(publicKey, d.sellerPrivKey, DealParams(curve, d).value.seller))
  {
    hide Hex.DecodeString, ValidKit, HoldsKey;
    if KitForSeller(d).Ok? {
      ValidKitIs(curve, publicKey, KitForSeller(d).value);
    }
  }

  // ------------------------------------------------------------ what a kit rebuilds

  /** A deal and the kits made from it at any time after joining rebuild the same escrow, however far
      the deal has moved on. */
  lemma KitsRebuildEscrow(curve: Curve, d: DealFields, ops: seq<Op>)
    requires Rank(d.state) >= 1
    ensures var later := Run(d, ops);
            && (KitForBuyer(later).Ok? ==> KitParams(curve, KitForBuyer(later).value) == DealParams(curve, d))
            && (KitForSeller(later).Ok? ==> KitParams(curve, KitForSeller(later).value) == DealParams(curve, d))
  {
    hide Run;
    RunFreezes(d, ops);
  }

  /** The private key of a valid kit is the one its role's leaf asks for. */
  lemma KitKeyIsRoleKey(curve: Curve, publicKey: Bytes -> Bytes32, kit: RecoveryKit)
    requires ValidKit(publicKey, kit) && KitParams(curve, kit).Ok?
    ensures var params := KitParams(curve, kit).value;
            && NewEscrowScript(params).Ok?
            && params.timeout == RelativeLocktime(Block, kit.timeoutBlocks)
            && publicKey(Hex.DecodeString(kit.privKey).value) ==
                 (if kit.role == "seller" then params.seller else params.buyer).value.x
  {
    hide Hex.DecodeString;
  }

  /** The claim that a kit is for: the buyer after the timeout, the seller with the buyer's secret. */
  function KitClaim(kit: RecoveryKit, escrow: EscrowScript, preimage: Option<Bytes>, dest: string,
                    fee: uint64): ClaimConfig
    requires Hex.DecodeString(kit.privKey).Ok?
  {
    var leaf := if kit.role == "buyer" then TIMEOUT else RELEASE;
    ClaimConfig(Some(escrow), kit.fundTxid, kit.fundVout, kit.amount, leaf,
                [Some(Hex.DecodeString(kit.privKey).value)], preimage, dest, fee)
  }

  lemma OneKeySigns(crypto: Crypto, message: Bytes, key: Bytes)
    requires CanSignWith(crypto, key)
    ensures SignAll(crypto, message, [Some(key)]) == ([(crypto.publicKey(key), crypto.sign(key, message).value)], true)
    ensures var sigs := SigMap(SignAll(crypto, message, [Some(key)]).0);
            crypto.publicKey(key) in sigs && sigs[crypto.publicKey(key)] == crypto.sign(key, message).value
  {
    var one := (crypto.publicKey(key), crypto.sign(key, message).value);
    assert Front([Some(key)]) == [] && Last([Some(key)]) == Some(key);
    assert [] + [one] == [one] && Front([one]) == [] && Last([one]) == one;
  }

  /** A valid kit with keys that parse and sign, a real address to pay to and, for the seller, a preimage. */
  ghost predicate Usable(crypto: Crypto, curve: Curve, kit: RecoveryKit, preimage: Option<Bytes>, dest: string) {
    && ValidKit(b => crypto.publicKey(b), kit) && KitParams(curve, kit).Ok?
    && CanSignWith(crypto, Hex.DecodeString(kit.privKey).value)
    && Bech32.Ascii(dest) && dest != "" && Bech32.AddressToOutputScript(dest).Ok?
    && (kit.role == "seller" ==> preimage.Some?)
    && (preimage.Some? ==> |preimage.value| <= MAX_ELEMENT)
  }

  /** A kit's claim is sent: nothing in it can go wrong but the amount, the address and the preimage. */
  lemma KitClaimIsSent(crypto: Crypto, curve: Curve, kit: RecoveryKit, preimage: Option<Bytes>, dest: string,
                       fee: uint64)
    requires SignsCorrectly(crypto) && Usable(crypto, curve, kit, preimage, dest)
    requires kit.amount > (if fee == 0 then ESTIMATED_FEE else fee) + DUST_LIMIT
    ensures NewEscrowScript(KitParams(curve, kit).value).Ok?
    ensures var cfg := KitClaim(kit, NewEscrowScript(KitParams(curve, kit).value).value, preimage, dest, fee);
            ValidConfig(cfg) && ClaimTx(crypto, cfg).Ok?
  {
    hide Hex.DecodeString, LeafScript, Bech32.AddressToOutputScript, SignAll, SigMap, WitnessWire.Serialize, KitParams;
    KitKeyIsRoleKey(curve, b => crypto.publicKey(b), kit);
    var params := KitParams(curve, kit).value;
    var escrow := NewEscrowScript(params).value;
    var cfg := KitClaim(kit, escrow, preimage, dest, fee);
    LeavesCompile(params, cfg.leaf);
    assert ClaimCore(crypto, cfg).Ok?;
    var core := ClaimCore(crypto, cfg).value;
    OneKeySigns(crypto, crypto.sighash(core), Hex.DecodeString(kit.privKey).value);
    LeafScriptIsShort(escrow.closures, cfg.leaf);
  }

  /** What the chain asks of a kit's claim beyond the kit itself. */
  predicate KitMayClaim(crypto: Crypto, kit: RecoveryKit, params: EscrowParams, preimage: Option<Bytes>, age: Age) {
    if kit.role == "buyer" then age.blocks >= kit.timeoutBlocks
    else preimage.Some? && crypto.sha256(preimage.value) == params.secretHash
  }

  /** The output pays to the escrow that the kit rebuilds. */
  predicate KitPays(crypto: Crypto, curve: Curve, kit: RecoveryKit, utxo: Utxo) {
    && KitParams(curve, kit).Ok? && NewEscrowScript(KitParams(curve, kit).value).Ok?
    && EscrowOutput(crypto, NewEscrowScript(KitParams(curve, kit).value).value, utxo)
  }

  ghost predicate KitClaimTaken(crypto: Crypto, curve: Curve, kit: RecoveryKit, preimage: Option<Bytes>, dest: string,
                                fee: uint64, utxo: Utxo)
  {
    && KitPays(crypto, curve, kit, utxo) && Hex.DecodeString(kit.privKey).Ok?
    && var escrow := NewEscrowScript(KitParams(curve, kit).value).value;
    var cfg := KitClaim(kit, escrow, preimage, dest, fee);
    && ValidConfig(cfg) && ClaimTx(crypto, cfg).Ok?
    && ChainAccepts(crypto, LeafScripts(escrow.closures), utxo, ClaimTx(crypto, cfg).value)
    && KitPaysTo(kit, dest, fee, ClaimTx(crypto, cfg).value.core)
  }

  /** The kit's outpoint is spent, and what is left of its amount is paid to the destination. */
  predicate KitPaysTo(kit: RecoveryKit, dest: string, fee: uint64, core: Core)
    requires Bech32.Ascii(dest)
  {
    && core.txid == kit.fundTxid && core.vout == kit.fundVout
    && core.outputAmount + (if fee == 0 then ESTIMATED_FEE else fee) == kit.amount
    && Bech32.AddressToOutputScript(dest) == Ok(core.destScript)
  }

  /** Self-custody: with a valid kit and a timeout in the 16-bit range, the claim for its role is sent
      and taken by the chain exactly when the kit's amount is the real value of the escrow output and
      the buyer has waited, or the seller has a preimage. */
  lemma SelfCustody(crypto: Crypto, curve: Curve, kit: RecoveryKit, preimage: Option<Bytes>, dest: string, fee: uint64,
                    utxo: Utxo)
    requires SignsCorrectly(crypto) && Usable(crypto, curve, kit, preimage, dest)
    requires kit.amount > (if fee == 0 then ESTIMATED_FEE else fee) + DUST_LIMIT
    requires kit.timeoutBlocks <= 0xffff
    requires KitPays(crypto, curve, kit, utxo)
    ensures KitClaimTaken(crypto, curve, kit, preimage, dest, fee, utxo)
       <==> kit.amount == utxo.value && KitMayClaim(crypto, kit, KitParams(curve, kit).value, preimage, utxo.age)
  {
    hide Hex.DecodeString, ClaimTx, ChainAccepts, KitParams, NewEscrowScript, Bech32.AddressToOutputScript,
         SequenceLock;
    KitClaimIsSent(crypto, curve, kit, preimage, dest, fee);
    KitKeyIsRoleKey(curve, b => crypto.publicKey(b), kit);
    var params := KitParams(curve, kit).value;
    var cfg := KitClaim(kit, NewEscrowScript(params).value, preimage, dest, fee);
    BuyerWaitsForTimeout(params, utxo.age);
    ParamsAreComplete(params);
    ClaimPaysDestination(crypto, cfg);
    if KitMayClaim(crypto, kit, params, preimage, utxo.age) {
      assert RightClaim(crypto, params, cfg.leaf, cfg.signingKeys, cfg.preimage, utxo.age);
      ClaimIsAccepted(crypto, cfg, utxo);
    }
    if ChainAccepts(crypto, LeafScripts(cfg.escrow.value.closures), utxo, ClaimTx(crypto, cfg).value) {
      AcceptedClaim(crypto, cfg, utxo);
    }
  }

  lemma AmountIsFree(crypto: Crypto, curve: Curve, kit: RecoveryKit, amount: uint64, preimage: Option<Bytes>,
                     dest: string)
    requires Usable(crypto, curve, kit, preimage, dest) && amount != 0
    ensures Usable(crypto, curve, kit.(amount := amount), preimage, dest)
    ensures KitParams(curve, kit.(amount := amount)) == KitParams(curve, kit)
  {
    hide Hex.DecodeString, Bech32.AddressToOutputScript;
  }

  lemma ParamsAreComplete(params: EscrowParams)
    requires NewEscrowScript(params).Ok?
    ensures params.seller.Some? && params.buyer.Some? && params.oracle.Some?
    ensures NewEscrowScript(params).value.params == params
  {
  }

  /** What an accepted release or timeout claim tells: the amount was real, and the preimage or the
      age was right. */
  lemma AcceptedClaim(crypto: Crypto, cfg: ClaimConfig, utxo: Utxo)
    requires ValidConfig(cfg) && ClaimTx(crypto, cfg).Ok?
    requires EscrowOutput(crypto, cfg.escrow.value, utxo)
    requires ChainAccepts(crypto, LeafScripts(cfg.escrow.value.closures), utxo, ClaimTx(crypto, cfg).value)
    ensures cfg.amount == utxo.value
    ensures cfg.leaf == RELEASE ==>
              cfg.preimage.Some? && crypto.sha256(cfg.preimage.value) == cfg.escrow.value.params.secretHash
    ensures cfg.leaf == TIMEOUT ==>
              BIP68Sequence(cfg.escrow.value.params.timeout).Ok? &&
              SequenceLock(BIP68Sequence(cfg.escrow.value.params.timeout).value, utxo.age)
  {
    hide Accepts, SignAll, SigMap, WitnessWire.Serialize, SequenceLock, ChainAccepts, ClaimTx, ClaimCore,
         ConditionScript;
    ClaimParts(crypto, cfg);
    CoreParts(crypto, cfg);
    var core, closures := ClaimCore(crypto, cfg).value, cfg.escrow.value.closures;
    var params := cfg.escrow.value.params;
    var stack := LeafStack(crypto, SigMap(SignAll(crypto, crypto.sighash(core), cfg.signingKeys).0), cfg.leaf,
                           cfg.signingKeys, cfg.preimage).value;
    StackIsWritable(stack, core.leafScript);
    HandBuiltSpend(crypto, LeafScripts(closures), cfg.leaf, utxo, core, stack, core.leafScript);
    if cfg.leaf == RELEASE {
      HashLockAccepts(InputEnv(crypto, SignedCore(core, utxo, core.leafScript)), params.secretHash,
                      params.seller.value, stack);
    }
  }
}
