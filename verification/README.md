# Escrow scripts, witnesses, addresses and swap

A Dafny model of a Liquid escrow with three parties (seller, buyer, oracle), and of the swap that funds it
from Lightning. It follows the bytes from end to end: closures are compiled to tapscript, run on a stack
machine, decoded again, paid to by a printed address, unlocked by witnesses that are put together by hand
and written in wire form, and the amounts are followed through the swap's HTLC into the escrow and out of it.

| files | what they hold |
|---|---|
| `Basics.dfy`, `ScriptNum.dfy`, `Tokenizer.dfy` | bytes, script numbers, the script tokenizer and builder pushes |
| `Locktime.dfy`, `ClosureSpec.dfy`, `ClosureProofs.dfy`, `Closures.dfy` | relative locktimes; the closure compiler and its decoders as functions, their round trips, and the classes that build and read scripts step by step |
| `Interpreter.dfy`, `CompileProofs.dfy` | a stack machine after BIP 342 ("Script execution", "Rules for signature opcodes") and BIP 112 ("Specification"), and what the compiled scripts accept |
| `Escrow.dfy` | relative locks after BIP 68, the four leaves and who can spend them |
| `WitnessWire.dfy`, `Spend.dfy`, `EscrowClaim.dfy`, `ChainAccess.dfy` | the witness on the wire (BIP 144, "Specification"), signing and broadcasting, `ClaimEscrow`, and who can have a transaction taken |
| `ConvertBits.dfy`, `Polymod.dfy`, `Bech32.dfy`, `Bech32Codec.dfy` | bit regrouping, the checksum, printing and parsing of addresses (BIP 173 and BIP 350) |
| `Deal.dfy`, `Recovery.dfy` | the deal object and the recovery kits |
| `Htlc.dfy`, `Fund.dfy`, `EndToEnd.dfy` | the HTLC of the swap, the swap as a state machine with its polling loop, and both joined to the escrow |

Functions state what the code computes; the classes and methods beside them change state and loop as the Go
code does and are proved equal to those functions. Hashes, signatures, the curve, the sighash, the taproot
output key and control block are arbitrary functions (`Crypto`, `Scheme`, `Curve`).

What the proofs found about the code:

- A CSV closure does not always survive decoding. A seconds value that compiles comes back; a block value
  does exactly when it is not 0, not 81 to 96, and its bits 22 and 31 are clear. The fuzz test's comment
  (`pkg/escrow/escrow_fuzz_test.go:26-30`) puts the trouble at 1 to 127.
- A CSV closure that decodes does not always compile back to its script. It does exactly when the first token is
  OP_1 to OP_16, or a direct push of a shortest number above 16, below 2^31, not 81 to 96, and, with bit 22 set, below
  0x410000. A script that starts with OP_VERIFY is one that does not. Multisig and condition closures always do.
- A block timeout above 65535 is not enforced in full by the chain, and nothing in the code rejects one.
- A multisig script over no keys compiles, for either kind, and can be spent by anybody.
- `serializeWitness` is right for at most 252 items, since it writes the count as one byte.
- The address parser takes either checksum constant for every witness version.
- `SpendHTLC` subtracts the fee before its dust test, and the subtraction wraps: nearly every amount below the fee
  passes the test. An HTLC of at most 1046 satoshis cannot be spent at the default fee.
- `SpendHTLC` and `ClaimEscrow` succeed only when the configured amount is the real value of the output. After a swap that is the
  deal's amount less the HTLC fee. The end-to-end driver passes that (`cmd/escrow-test/main.go:844-845`);
  the command line (`cmd/escrow/commands.go:376`) and the recovery kits carry the deal's amount itself, and the claim is refused.
- The service is out of the amount exactly in the runs in which the HTLC was claimed and the invoice not settled, as the
  protocol's comment says (`pkg/escrow/swap/fund.go:65-67`), and in those in which it funded an HTLC that is worth no more
  than fee and dust. The promise that a service that crashed reclaims its HTLC (`pkg/escrow/swap/fund.go:64`) holds for
  all larger ones only; `Fund` rejects no amount but 0 (`pkg/escrow/swap/fund.go:78-80`).

## Model

| member | source | states |
|---|---|---|
| ScriptNum.EncodeDecode | internal/script/closure.go:225 | what the builder writes for an integer is minimal and reads back as that integer |
| ScriptNum.DecodeEncode | internal/script/locktime.go:51 | a byte string is accepted as a script number exactly when it is the one encoding of its value |
| ScriptNum.EncodeShort | internal/script/closure.go:225 | a 32-bit number takes at most five bytes, a count below 0x8000 at most two |
| Tokenizer.NextPush | internal/script/closure.go:73-76 | a data push of 1 to 75 bytes is read back as one token with its data |
| Tokenizer.NextPushInt | internal/script/closure.go:254-259 | a pushed integer is read as a small-integer opcode up to 16 and as a data push of its encoding above |
| Tokenizer.NextAppend | internal/script/closure.go:276 | what follows a token does not change how the token is read |
| Locktime.DecodeEncodedSequence | internal/script/locktime.go:50-71 | what every 32-bit sequence decodes to after it went through a script: 81 to 96 as 1 to 16, disabled ones as errors, 0 as an error |
| Locktime.LocktimeRoundTrip | internal/script/locktime.go:34-71 | exactly which locktimes come back: all valid seconds values, and blocks other than 0 and 81 to 96 with bits 22 and 31 clear |
| ClosureProofs.MultisigRoundTrip | internal/script/closure.go:20-67 | a multisig script decodes to its own kind and keys exactly when the keys are on the curve and there is at least one (CHECKSIG) or at most 16 (CHECKSIGADD) |
| ClosureProofs.MultisigSound | internal/script/closure.go:102-112 | every script accepted as multisig is what the decoded closure compiles to |
| ClosureProofs.DecodersDisjoint | internal/script/script.go:110-126 | no byte string is accepted by two decoders, so the order in which they are tried does not matter |
| ClosureProofs.ConditionRoundTrip | internal/script/closure.go:297-345 | a condition closure comes back exactly when its condition is made of direct pushes and opcodes other than OP_VERIFY and its multisig comes back; pushed bytes may be OP_VERIFY |
| ClosureProofs.CSVRoundTrip | internal/script/closure.go:218-289 | a CSV closure comes back exactly when its locktime and its multisig do |
| ClosureProofs.DecodeByKind | internal/script/script.go:105-129 | the dispatcher returns a closure of a kind exactly when that kind's own decoder returns it |
| ClosureProofs.ClosureRoundTrip | internal/script/script.go:105-129 | compiling and then dispatching returns the closure, up to key parity, exactly for the decodable closures |
| ClosureProofs.DecodeIsFaithful | internal/script/closure.go:333-344 | a multisig or condition closure is returned for a script exactly when it compiles to that script, holds even keys only and is decodable |
| ClosureProofs.CSVReencodes | internal/script/closure.go:243-289 | an accepted CSV script is what its closure compiles to exactly when its first token is canonical |
| ClosureProofs.DecodedReencodes | internal/script/script.go:105-129 | whatever the dispatcher returns compiles back to the script, except CSV closures read from a token that is not canonical |
| ClosureProofs.CSVDecoderIsNotCanonical | internal/script/closure.go:254-259 | for any decodable multisig, a script starting with OP_VERIFY is decoded as a CSV closure that compiles to something else |
| Closures.ScriptBuilder.AddOps | internal/script/closure.go:300 | raw bytes are appended unless the script is or becomes too long, and a failed builder stays failed |
| Closures.ScriptBuilder.AddInt64 | internal/script/closure.go:42 | appends the push of an integer under the same limit |
| Closures.MultisigClosure.Script | internal/script/closure.go:20-47 | the two building loops give the chain of key checks for the kind, or an error past the size limit |
| Closures.MultisigClosure.Decode | internal/script/closure.go:49-67 | answer and error are those of the decoding function; the fields hold the decoded closure, or are reset or kept as each failing path leaves them |
| Closures.MultisigClosure.DecodeChecksig | internal/script/closure.go:69-115 | the tokenizer loop reads the keys of a CHECKSIG chain, with its field resets |
| Closures.MultisigClosure.DecodeChecksigAdd | internal/script/closure.go:117-167 | the tokenizer loop reads the keys and the count of a CHECKSIGADD script, with its field resets |
| Closures.MultisigClosure.Witness | internal/script/closure.go:169-193 | one signature per key in reverse key order, then script and control block; an error if one is missing |
| Closures.Signatures | internal/script/closure.go:174-182 | item i of the stack is the signature of the key i places from the end |
| Closures.AfterDecodeRejected | internal/script/closure.go:99-112 | a rejected script leaves a closure as it was or empty, and as it was if no scan got to the end |
| Closures.CSVMultisigClosure.Script | internal/script/closure.go:218-241 | locktime push, CSV, DROP, multisig; an error where the locktime or the multisig has one |
| Closures.CSVMultisigClosure.Decode | internal/script/closure.go:243-289 | the closure changes only when the script is accepted |
| Closures.CSVMultisigClosure.Witness | internal/script/closure.go:201-216 | the multisig witness with the whole CSV script in place of the multisig script |
| Closures.ConditionMultisigClosure.Script | internal/script/closure.go:297-310 | condition, OP_VERIFY, multisig within the size limit |
| Closures.ConditionMultisigClosure.Decode | internal/script/closure.go:312-345 | the answer of the decoding function, and what a rejected script leaves in the fields |
| Closures.DecodeClosure | internal/script/script.go:105-129 | the loop over fresh closures returns the first that accepts, skipping errors |
| Interpreter.ExecAppend | internal/script/closure.go:300-307 | running two well-formed pieces one after the other is running them as one script |
| CompileProofs.VerifyChain | internal/script/closure.go:25-32 | n key checks consume n valid signatures in reverse key order from the top of any stack, and fail otherwise |
| CompileProofs.AddChain | internal/script/closure.go:34-41 | n counting checks add to the running count one for each valid signature, allow empty ones, and fail on others |
| CompileProofs.FullTally | internal/script/closure.go:42-43 | the count reaches the number of keys exactly when every key signed |
| CompileProofs.MultisigAccepts | internal/script/closure.go:20-47 | for any n of at least 1, both kinds accept exactly the stacks with one valid signature per key in reverse key order |
| CompileProofs.EmptyChecksigAddAccepts | internal/script/closure.go:33-43 | over no keys the CHECKSIGADD script accepts any single item of at most four bytes that is zero as a number |
| CompileProofs.EmptyChecksigAccepts | internal/script/closure.go:24-32 | over no keys the CHECKSIG script is empty and accepts any single true item |
| CompileProofs.WitnessAccepted | internal/script/closure.go:169-193 | with a valid signature for every key, the built witness opens the script |
| CompileProofs.CSVWitnessAccepted | internal/script/closure.go:201-216 | with a valid signature for every key and an nSequence that reaches the locktime, the CSV closure's witness opens it |
| CompileProofs.ScriptBoundsKeys | internal/script/closure.go:20-47 | a multisig of either kind compiles exactly up to 294 keys, which is the builder's limit of 10000 bytes |
| CompileProofs.TwoKeyAddBytes | internal/script/closure.go:33-43 | the bytes of the CHECKSIGADD script of two keys |
| CompileProofs.CSVAccepts | internal/script/closure.go:218-241 | a CSV closure accepts what its multisig accepts, when the input's nSequence reaches the locktime |
| CompileProofs.ConditionAccepts | internal/script/closure.go:297-310 | a condition closure accepts exactly when the condition leaves a true item above a stack its multisig accepts |
| RelativeLocks.OperandIsLock | internal/script/closure.go:224-230 | an nSequence that satisfies both the script and the chain exists exactly when the script's operand is itself a satisfied lock |
| RelativeLocks.EnforcesBlocks | internal/script/locktime.go:34-47 | a block timeout means waiting that many blocks exactly when it is at most 65535 |
| RelativeLocks.EnforcesSeconds | internal/script/locktime.go:34-47 | a seconds timeout is accepted exactly for multiples of 512 up to 33553920, and then means waiting that long |
| Escrow.HashLockAccepts | pkg/escrow/escrow.go:55-61 | the release leaf accepts exactly [signature, preimage] |
| Escrow.TimeoutAccepts | pkg/escrow/escrow.go:62-68 | the timeout leaf accepts exactly [signature], with an nSequence that reaches the timeout |
| Escrow.DisputeAccepts | pkg/escrow/escrow.go:69-76 | a dispute leaf accepts exactly [winner's signature, oracle's signature] |
| Escrow.EscrowAccess | pkg/escrow/escrow.go:40-80 | whatever the spender puts on the stack and in nSequence, some leaf opens exactly for seller and preimage, buyer after the timeout, oracle and seller, or oracle and buyer |
| Escrow.BuyerWaitsForTimeout | pkg/escrow/escrow.go:62-68 | for block timeouts up to 65535, "after the timeout" is an age of at least that many blocks |
| Escrow.LeavesCompile | pkg/escrow/elements.go:31-39 | the leaves compile exactly when the timeout is a valid locktime |
| Escrow.LeavesDistinct | pkg/escrow/elements.go:46-52 | the four leaf scripts differ, so their hashes index them, exactly when seller and buyer have different keys |
| Escrow.LeavesDecode | pkg/escrow/escrow.go:54-77 | each leaf decodes to its closure, the timeout leaf exactly when its locktime survives |
| Escrow.LeafBytes | pkg/escrow/escrow.go:40-80 | the bytes of the four leaves, for the default timeout |
| WitnessWire.SerializeWitness | pkg/escrow/swap/tx.go:137-145 | the loop writes the count byte and each item with its length |
| WitnessWire.ReadWritten | pkg/escrow/swap/tx.go:147-159 | a CompactSize reader gets back every 64-bit length and leaves what follows |
| WitnessWire.CompactSizeBytes | pkg/escrow/swap/tx.go:147-159 | the four forms byte by byte |
| WitnessWire.CompactSizeIsShortest | pkg/escrow/swap/tx.go:147-159 | no encoding that the reader accepts for a length is shorter |
| WitnessWire.ReadTakesAtLeast | pkg/escrow/swap/tx.go:137-145 | no wire form of the same items is shorter than the one written |
| WitnessWire.WireRoundTrip | pkg/escrow/swap/tx.go:137-145 | reading gives back the items, with nothing left over, exactly when there are at most 252 |
| WitnessWire.SerializeIsInjective | pkg/escrow/swap/tx.go:137-145 | up to 252 items, equal bytes mean equal stacks |
| Spend.Pset.SignTapscriptInput | pkg/escrow/swap/tx.go:77-121 | one signature per key in key order, nil keys skipped, those before a failing key kept |
| Spend.SignAllStops | pkg/escrow/swap/tx.go:103-110 | once a key fails, later keys change nothing |
| Spend.AllKeysSign | pkg/escrow/swap/tx.go:103-118 | when every key signs, the loop gets to its end |
| Spend.SigMapSigns | pkg/escrow/swap/escrow_claim.go:120-123 | every signature looked up by public key is valid for that key, and every key that signed is found |
| Spend.HandBuiltSpend | pkg/escrow/swap/tx.go:22-75 | the chain takes a stack, leaf script and control block exactly when the lock is over, the leaf accepts the stack for the true value, and the amounts add up |
| EscrowClaim.FinalizeEscrowWitness | pkg/escrow/swap/escrow_claim.go:114-172 | the wire form of the chosen leaf's stack, or an error that leaves the witness as it was |
| EscrowClaim.TimeoutStackIsWitness | pkg/escrow/swap/escrow_claim.go:145-150 | the hand-built timeout witness is the closure's own, error included |
| EscrowClaim.DisputeStackIsWitness | pkg/escrow/swap/escrow_claim.go:152-165 | the hand-built dispute witness is the closure's own, error included |
| EscrowClaim.StackOpensLeaf | pkg/escrow/swap/escrow_claim.go:84-104 | with the right keys, preimage and age, the built stack opens the chosen leaf |
| EscrowClaim.ClaimEscrow | pkg/escrow/swap/escrow_claim.go:43-112 | exactly one transaction is sent if every check passes, none otherwise, and the node's answer is the result |
| EscrowClaim.CoreParts | pkg/escrow/swap/escrow_claim.go:60-93 | a claim that is built spends the chosen leaf's script at the configured outpoint and pays the amount less the fee, above dust |
| EscrowClaim.ClaimIsSent | pkg/escrow/swap/escrow_claim.go:43-112 | on every leaf, a claim with the right keys to an address that parses is sent exactly when the amount is above fee and dust |
| EscrowClaim.ClaimPaysDestination | pkg/escrow/swap/escrow_claim.go:79-93 | what is sent spends the configured outpoint and pays the amount less the fee to the script of the destination address |
| EscrowClaim.ClaimPaysKey | pkg/escrow/swap/escrow_claim.go:79-93 | a claim to the printed address of a taproot key pays that key's script |
| EscrowClaim.ClaimIsAccepted | pkg/escrow/swap/escrow_claim.go:43-112 | a rightful claim pays as configured, and is taken by the chain exactly when its amount is the real value of the output |
| ChainAccess.TakenOpensLeaf | pkg/escrow/swap/tx.go:77-121 | a transaction that the chain takes opens a leaf, with signatures over that whole transaction |
| ChainAccess.EscrowAccessOnChain | pkg/escrow/escrow.go:40-80 | a spender can have some transaction taken exactly when it is seller with preimage, buyer after the timeout, or oracle with either of them |
| ConvertBits.Convert | pkg/escrow/bech32.go:99-120 | the loop over a 32-bit accumulator that overflows gives the regrouped digits of the whole number, or the padding error |
| ConvertBits.PaddedNumber | pkg/escrow/bech32.go:112-115 | padded regrouping is the same number followed by fewer than five zero bits |
| ConvertBits.UnpaddedNumber | pkg/escrow/bech32.go:116-118 | unpadded regrouping succeeds exactly when fewer than five bits are left over and they are zero, and is then the same number |
| ConvertBits.BytesRoundTrip | pkg/escrow/bech32.go:99-120 | bytes to symbols and back gives the bytes |
| ConvertBits.SymbolsRoundTrip | pkg/escrow/bech32.go:99-120 | symbols that the unpadded direction accepts come back from their bytes |
| PolymodStep.StepIsLinear | pkg/escrow/bech32.go:125-133 | a step distributes over exclusive or |
| PolymodStep.StepIsInjective | pkg/escrow/bech32.go:125-133 | for each symbol a step keeps different 30-bit states apart |
| PolymodStep.StepIsOnto | pkg/escrow/bech32.go:125-133 | for each symbol every 30-bit state is reached from one, so a step is a bijection |
| Checksums.Compute | pkg/escrow/bech32.go:122-135 | the nested loops compute the checksum state |
| Checksums.ChecksumCloses | pkg/escrow/bech32.go:148-154 | the six appended symbols always drive the state to the target constant |
| Checksums.PolymodIsInjective | pkg/escrow/bech32.go:122-135 | reading any symbols keeps different 30-bit states apart |
| Checksums.BurstsAreDetected | pkg/escrow/bech32.go:122-135 | at any length, a change confined to six neighbouring symbols always changes the checksum |
| Bech32.ParsePrint | pkg/escrow/bech32.go:18-78 | for either constant and any version below 32, what is printed parses to version and program, even when the prefix holds a '1' |
| Bech32.AddressRoundTrip | pkg/escrow/bech32.go:9-16 | an encoded address decodes to version 1 and the program, for every ASCII prefix and program |
| Bech32.PrintParse | pkg/escrow/bech32.go:18-78 | every accepted address is the printed form of what it parses to, under one of the two constants |
| Bech32.ChecksumIsUnique | pkg/escrow/bech32.go:150-154 | no other six symbols verify |
| Bech32.BurstChangesConstant | pkg/escrow/bech32.go:61-64 | two addresses that differ only inside six neighbouring symbols cannot both pass under the same constant |
| Bech32.PrefixExpansion | pkg/escrow/bech32.go:138-146 | the prefix enters the checksum as the high bits of its characters, a zero, and their low five bits |
| Bech32.EmptyStrings | pkg/escrow/bech32.go:137-162 | the strings with prefix "a" and no data are those of BIP 350 and BIP 173 |
| Bech32.OutputScriptTokens | pkg/escrow/bech32.go:80-97 | the output script is read as one push of the program after the small-integer opcode of its version, OP_0 for 0, exactly up to version 16 |
| Bech32.AddressPaysToKey | pkg/escrow/bech32.go:80-97 | the output script of an encoded 32-byte key is the taproot script of that key |
| Bech32Codec.Bech32mEncode | pkg/escrow/bech32.go:137-162 | the loops print prefix, separator, data and checksum |
| Bech32Codec.Encode | pkg/escrow/bech32.go:9-16 | encoding a program never fails and prints version 1 and its symbols |
| Bech32Codec.DecodeBech32 | pkg/escrow/bech32.go:18-78 | separator search, symbol lookup and checksum test parse every ASCII string as specified, errors included |
| Bech32Codec.AddressToScript | pkg/escrow/bech32.go:80-97 | version opcode, one length byte and program, or the parse error |
| DealSpec.StateChangesAreEdges | pkg/escrow/deal.go:99-163 | exactly which states follow which, and a rejected call changes nothing |
| DealSpec.AcceptedCallsShow | pkg/escrow/deal.go:99-163 | in which states each call is accepted, and what the deal then shows |
| DealSpec.WrittenByCalls | pkg/escrow/deal.go:99-163 | over any calls on a new deal, participants, outpoint and end state with claim are those given by a Join, a later Fund and a later closing call |
| DealSpec.RankRises | pkg/escrow/deal.go:99-163 | each accepted transition raises a rank that never passes 4 |
| DealSpec.RunFreezes | pkg/escrow/deal.go:99-163 | over any calls, what joining, funding and closing wrote is never written again, and a closed deal stays closed |
| DealSpec.RunKeepsOrder | pkg/escrow/deal.go:99-163 | buyer data, funding and claim fields are filled in that order |
| DealSpec.DealHistory | pkg/escrow/deal.go:68-163 | from a new deal, over any calls: at most four transitions, fields in order, and nothing written twice |
| DealSpec.ParamsAreFixed | pkg/escrow/deal.go:165-204 | after joining, the escrow parameters are the same forever |
| DealSpec.DealParamsAre | pkg/escrow/deal.go:165-219 | a deal has given escrow parameters exactly when its own four texts spell the seller's, buyer's and oracle's key and the hash |
| DealSpec.PrintedDealParams | pkg/escrow/deal.go:165-219 | keys and hash printed into a deal, x-only or compressed, come back from it |
| DealSpec.DealParamsShape | pkg/escrow/deal.go:194-203 | the timeout is in blocks and is the deal's |
| DealSpec.TokenRebuildsEscrow | pkg/escrow/deal.go:88-108 | a deal rebuilt from the join token gives the same escrow parameters, whatever either side does afterwards |
| DealSpec.TokenRebuildsDeal | pkg/escrow/deal.go:68-97 | a deal made from the token of a new deal is that deal |
| Hex.DecodeIs | pkg/escrow/deal.go:206-210 | case aside, a string is read as bytes exactly when they print to it |
| Hex.DecodePrint | pkg/escrow/deal.go:206-210 | printed bytes are read back |
| Deals.Deal.constructor | pkg/escrow/deal.go:68-86 | a new deal is in its first state with nothing of the buyer, funding or claim |
| Deals.Deal.Join | pkg/escrow/deal.go:99-108 | moves the object as the transition function says, and leaves it alone on an error |
| Deals.Deal.Fund | pkg/escrow/deal.go:115-124 | moves the object as the transition function says, and leaves it alone on an error |
| Deals.Deal.Ship | pkg/escrow/deal.go:126-133 | moves the object as the transition function says, and leaves it alone on an error |
| Deals.Deal.Release | pkg/escrow/deal.go:135-143 | moves the object as the transition function says, and leaves it alone on an error |
| Deals.Deal.Refund | pkg/escrow/deal.go:145-153 | moves the object as the transition function says, and leaves it alone on an error |
| Deals.Deal.Dispute | pkg/escrow/deal.go:155-163 | moves the object as the transition function says, and leaves it alone on an error |
| Recovery.Validate | pkg/escrow/recovery.go:157-206 | accepts exactly the kits with complete fields whose private key belongs to the role's public key |
| Recovery.ValidKitIs | pkg/escrow/recovery.go:157-206 | a kit with escrow parameters validates exactly when it names a role and holds that role's private key, an amount and a timeout |
| Recovery.BuyerKit | pkg/escrow/recovery.go:41-60 | when there is a buyer's kit, what it holds, and exactly when it validates |
| Recovery.SellerKit | pkg/escrow/recovery.go:62-80 | the same for the seller's, which holds no secret |
| Recovery.KitsRebuildEscrow | pkg/escrow/recovery.go:41-80 | a kit made at any time after joining rebuilds the deal's escrow parameters |
| Recovery.KitKeyIsRoleKey | pkg/escrow/recovery.go:181-203 | a valid kit's private key is the one that its role's leaf asks for |
| Recovery.KitClaimIsSent | pkg/escrow/recovery.go:127-136 | the claim from a valid kit passes every check and is sent, if the amount is above fee and dust |
| Recovery.SelfCustody | pkg/escrow/recovery.go:157-206 | the claim from a valid kit is sent, pays the destination from the kit's outpoint, and is taken, exactly when its amount is the real value and the buyer has waited or the seller has a preimage |
| Recovery.AcceptedClaim | pkg/escrow/swap/escrow_claim.go:84-104 | any accepted release claim showed a preimage, any accepted timeout claim waited, and every accepted claim named the real amount |
| Htlc.HtlcAccess | pkg/escrow/swap/liquid_htlc.go:33-80 | the HTLC opens exactly for the receiver with a preimage or for the sender after the timeout |
| Htlc.BuildCore | pkg/escrow/swap/liquid_htlc.go:171-213 | the checks up to the transaction, with the wrapping subtraction and the leaf's nSequence |
| Htlc.WriteWitness | pkg/escrow/swap/liquid_htlc.go:220-226 | the preimage is put in on the claim leaf only, and only when there is one |
| Htlc.SpendHTLC | pkg/escrow/swap/liquid_htlc.go:171-229 | exactly one transaction is sent if every check passes, none otherwise |
| Htlc.DustTestWraps | pkg/escrow/swap/liquid_htlc.go:197-200 | exactly which amounts pass the dust test, wrap-around included |
| Htlc.SpendIsAccepted | pkg/escrow/swap/liquid_htlc.go:171-229 | a spend with the leaf's key is taken exactly when the amount is the real value, not below the fee, and the preimage or the age is right |
| Htlc.SmallHtlcIsStuck | pkg/escrow/swap/liquid_htlc.go:197-200 | at the default fee no spend of an HTLC of at most 1046 satoshis is taken |
| Swap.StepInvariant | pkg/escrow/swap/fund.go:54-67 | every step, crashes and refunds included, keeps the invariant |
| Swap.RunInvariant | pkg/escrow/swap/fund.go:54-67 | so does every run |
| Swap.SwapIsSafe | pkg/escrow/swap/fund.go:54-67 | over all runs, whatever the lookups answer: settled only after a claim into an escrow of amount less fee; funds are conserved; the buyer loses at most the fee; the service is out of the amount exactly when the HTLC was claimed and the invoice not settled, or the HTLC is too small to spend |
| Swap.RefundIsReachable | pkg/escrow/swap/fund.go:64 | from any state with an unspent HTLC some run takes it back, exactly when it is worth more than fee and dust |
| Swap.OpenRun | pkg/escrow/swap/fund.go:239-241 | over any run in which all the service sees is OPEN, no funds move but for an HTLC that is refunded |
| Swap.OpenRunKeepsBuyer | pkg/escrow/swap/fund.go:239-241 | over such a run the buyer's balance with what is held for the invoice stays the same |
| Swap.TruthfulClaims | pkg/escrow/swap/fund.go:217-219 | if answered lookups tell the truth, the HTLC is claimed only after the buyer's payment was held |
| Swap.SpendsOnce | pkg/escrow/swap/fund.go:64-67 | an HTLC once claimed is never refunded, and the reverse, and the escrow is filled once |
| Swap.RefundWaits | pkg/escrow/swap/liquid_htlc.go:202-208 | a refund needs an unspent HTLC at least as many blocks old as its timeout |
| SwapService.AtMostOnce | pkg/escrow/swap/fund.go:203-245 | every log of the poll loop has at most one claim and one settlement, and the settlement comes last, after an answered claim |
| SwapService.OpenPrefix | pkg/escrow/swap/fund.go:239-241 | any number of OPEN answers may come first without adding a claim or a settlement |
| SwapService.Service.FundWithHTLC | pkg/escrow/swap/fund.go:104-149 | succeeds exactly when the wallet can pay and every node does as told; the state is then the funded one after the events in between, with an open invoice; no invoice is offered before the HTLC is funded and confirmed |
| SwapService.AfterRuns | pkg/escrow/swap/fund.go:54-67 | events that can all happen do all happen |
| SwapService.SuccessPays | pkg/escrow/swap/fund.go:217-234 | on success the service has the amount on Lightning, the escrow the amount less the fee, and the buyer has paid, whatever happens around the calls |
| SwapService.Service.ClaimAndSettle | pkg/escrow/swap/fund.go:217-234 | succeeds exactly when both nodes do as told, the HTLC is unspent and worth spending, and the payment is still held at the settlement; the claim is made exactly under its part of this; the final state of a success |
| SwapService.Service.WaitForPaymentClaimAndSettle | pkg/escrow/swap/fund.go:188-246 | for any sequence of answers and events: succeeds exactly when an ACCEPTED comes after nothing but OPEN, uncancelled, and claim and settlement then succeed; a run of the state machine with a log of the shape above; OPEN alone moves no funds but a refund |
| EndToEnd.SpendIsSent | pkg/escrow/swap/liquid_htlc.go:171-229 | a complete configuration is sent exactly when it passes the dust test |
| EndToEnd.DefaultFeeSpend | pkg/escrow/swap/liquid_htlc.go:171-229 | at the default fee a spend that is otherwise in order is taken exactly above 1046 satoshis |
| EndToEnd.SwapStepsAreSpends | pkg/escrow/swap/fund.go:153-185 | the state machine's claim and refund are possible exactly when SpendHTLC's transaction is taken by the chain |
| Htlc.SpendPaysAddress | pkg/escrow/elements.go:64-78 | a spend to the printed address of a set of leaves makes an output whose script is that of those leaves |
| EndToEnd.SwapFundsEscrow | pkg/escrow/swap/fund.go:153-185 | the HTLC's claim to the escrow's address makes an output of that escrow, worth the HTLC less its fee and above dust |
| EndToEnd.TwoHopsConserveValue | pkg/escrow/swap/escrow_claim.go:65-93 | when the claim of the output that the swap's transaction made is taken, what arrives and the two fees add up to what was locked, and neither output is dust |
| EndToEnd.ClaimAfterSwap | cmd/escrow-test/main.go:844-845 | a rightful claim of the output that the swap's transaction made is taken exactly when it is given the swapped amount less the HTLC fee |
| EndToEnd.KitAfterSwap | pkg/escrow/recovery.go:41-80 | when the swap paid to the address that a kit rebuilds, the kit's claim of that output is refused with the swapped amount and taken with the amount lowered by the fee |

## Left out

- Hashing, Schnorr signatures, the curve, the sighash, the taproot tree and control blocks, PSET assembly and its errors: arbitrary functions; a leaf is assumed to be revealed by its own control block, and there is no key-path spend.
- The clients of elementsd, LND and CLN, contexts, sleeping and process I/O: their answers are inputs, and their calls are log entries or sent transactions.
- The command line and the end-to-end driver: read only for how they call the rest.
- `FileStore`, JSON, base58check, timestamps, random identifiers and secrets, network and asset settings.
- `EvaluateScriptToBool` and the condition closure's `Witness`: one runs a library engine, the other always returns an error.
- The interpreter has the opcodes that the scripts use; others fail, OP_SUCCESS opcodes and the signature-operation budget are not modelled.
- Key parity: scripts hold x-only keys, so the round trips are up to the even key with the same x.
- Multisig types other than the two named ones, which compile to an empty script.
- Conditions with OP_PUSHDATA opcodes: shown not to come back, since the decoder drops their length bytes.
- Script numbers longer than eight bytes: the library's 64-bit value would wrap, the model's does not.
- ConvertBits.Convert: the contract is for digits that fit their width and widths from 1 to 8; the callers use 8 and 5.
- Bech32Codec.DecodeBech32: ASCII strings only; Go ranges over runes, whose bytes and offsets differ for other text.
- EscrowClaim.ClaimEscrow: the escrow is one that `NewEscrowScript` built, and the keys it looks up signatures for are not nil; the code would panic there.
- Recovery.SelfCustody: for timeouts up to 65535 blocks; above that the chain enforces less, as `RelativeLocks.EnforcesBlocks` states.
- `RecoveryKit.EscrowAddress` and its default prefix: the theorems hold for every prefix.
- Signature maps are keyed by the key's bytes, not by their hexadecimal text.
- SwapService.Service.WaitForPaymentClaimAndSettle: the schedule of outside events is finite; running out of it is the context ending. Amounts in the state machine are unbounded naturals; the 64-bit arithmetic is in `Htlc` and `EscrowClaim`.
- Confirmation and reorganisation: a claim or refund that a node answered counts as confirmed, as the code assumes; the chain does not guarantee it.
- Outpoints: transaction ids are inputs, so that a claim names the output it spends is not proved, only that it is taken for it.
- The checks of `Fund` before the swap starts, its defaults, and `CreateAndFundHTLC` beyond its funding step.
