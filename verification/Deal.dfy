/** Hex strings as Go's encoding/hex reads them. */
module Hex {
  import opened Basics

  function Digit(c: char): (d: nat)
    ensures d <= 16
  {
    if '0' <= c <= '9' then c as int - '0' as int
    else if 'a' <= c <= 'f' then c as int - 'a' as int + 10
    else if 'A' <= c <= 'F' then c as int - 'A' as int + 10
    else 16
  }

  function DecodeString(s: string): (r: Result<Bytes>)
    ensures r.Ok? ==> 2 * |r.value| == |s|
  {
    if s == "" then Ok([])
    else if |s| == 1 then Err
    else if Digit(s[0]) == 16 || Digit(s[1]) == 16 then Err
    else
      match DecodeString(s[2..])
      case Err => Err
      case Ok(rest) => Ok([Digit(s[0]) * 16 + Digit(s[1])] + rest)
  }

  const DIGITS := "0123456789abcdef"

  /** hex.EncodeToString */
  function Print(b: Bytes): (s: string)
    ensures |s| == 2 * |b|
  {
    if b == [] then "" else [DIGITS[b[0] / 16], DIGITS[b[0] % 16]] + Print(b[1..])
  }

  function LowerChar(c: char): char {
    if 'A' <= c <= 'F' then c - 'A' + 'a' else c
  }

  function Lower(s: string): (t: string)
    ensures |t| == |s|
  {
    seq(|s|, i requires 0 <= i < |s| => LowerChar(s[i]))
  }

  lemma DigitIs(c: char, n: nat)
    requires n < 16
    ensures |DIGITS| == 16 && (LowerChar(c) == DIGITS[n] <==> Digit(c) == n)
    ensures LowerChar(DIGITS[n]) == DIGITS[n]
  {
  }

  lemma PrintStep(v: byte, rest: Bytes)
    ensures |DIGITS| == 16 && Print([v] + rest) == [DIGITS[v / 16]] + ([DIGITS[v % 16]] + Print(rest))
  {
    assert ([v] + rest)[1..] == rest;
  }

  lemma DecodeStep(c: char, d: char, rest: string)
    ensures DecodeString([c] + ([d] + rest)) ==
            if Digit(c) == 16 || Digit(d) == 16 || DecodeString(rest).Err? then Err
            else Ok([Digit(c) * 16 + Digit(d)] + DecodeString(rest).value)
  {
    hide Digit;
    assert ([c] + ([d] + rest))[2..] == rest;
  }

  lemma LowerStep(c: char, rest: string)
    ensures Lower([c] + rest) == [LowerChar(c)] + Lower(rest)
  {
  }

  /** Two strings of at least two characters are the same when their first two and the rest are. */
  lemma SameText(a: char, b: char, s: string, c: char, d: char, t: string)
    ensures [a] + ([b] + s) == [c] + ([d] + t) <==> a == c && b == d && s == t
  {
    var u, v := [a] + ([b] + s), [c] + ([d] + t);
    assert u[0] == a && u[1] == b && u[2..] == s && v[0] == c && v[1] == d && v[2..] == t;
  }

  lemma SameBytes(v: byte, a: Bytes, w: byte, b: Bytes)
    ensures [v] + a == [w] + b <==> v == w && a == b
  {
    assert ([v] + a)[0] == v && ([v] + a)[1..] == a && ([w] + b)[0] == w && ([w] + b)[1..] == b;
  }

  lemma TwoDigits(h: nat, l: nat, v: byte)
    requires h < 16 && l < 16
    ensures h * 16 + l == v <==> h == v / 16 && l == v % 16
  {
  }

  /** Two characters are read as a byte exactly when it prints to them. */
  lemma PairIs(c: char, d: char, v: byte)
    ensures |DIGITS| == 16
    ensures Digit(c) < 16 && Digit(d) < 16 && Digit(c) * 16 + Digit(d) == v <==>
            LowerChar(c) == DIGITS[v / 16] && LowerChar(d) == DIGITS[v % 16]
  {
    hide Digit, LowerChar;
    DigitIs(c, v / 16);
    DigitIs(d, v % 16);
    if Digit(c) < 16 && Digit(d) < 16 {
      TwoDigits(Digit(c), Digit(d), v);
    }
  }

  lemma DecodeJoins(c: char, d: char, rest: string, v: byte, rest': Bytes)
    ensures DecodeString([c] + ([d] + rest)) == Ok([v] + rest') <==>
            Digit(c) < 16 && Digit(d) < 16 && Digit(c) * 16 + Digit(d) == v && DecodeString(rest) == Ok(rest')
  {
    hide DecodeString, Digit;
    DecodeStep(c, d, rest);
    if DecodeString(rest).Ok? && Digit(c) < 16 && Digit(d) < 16 {
      SameBytes(Digit(c) * 16 + Digit(d), DecodeString(rest).value, v, rest');
    }
  }

  lemma PrintJoins(c: char, d: char, rest: string, v: byte, rest': Bytes)
    ensures |DIGITS| == 16
    ensures Lower([c] + ([d] + rest)) == Print([v] + rest') <==>
            LowerChar(c) == DIGITS[v / 16] && LowerChar(d) == DIGITS[v % 16] && Lower(rest) == Print(rest')
  {
    hide Print, Lower, LowerChar;
    PrintStep(v, rest');
    LowerStep(c, [d] + rest);
    LowerStep(d, rest);
    SameText(LowerChar(c), LowerChar(d), Lower(rest), DIGITS[v / 16], DIGITS[v % 16], Print(rest'));
  }

  /** Case aside, a string is read as the bytes that print to it, and only as those. */
  lemma {:induction false} DecodeIs(s: string, b: Bytes)
    ensures DecodeString(s) == Ok(b) <==> Lower(s) == Print(b)
    decreases |s|
  {
    if |s| < 2 || b == [] {
      assert |Print(b)| == 2 * |b| && |Lower(s)| == |s|;
    } else {
      hide DecodeString, Print, Lower, Digit, LowerChar;
      var c, d, rest, v, rest' := s[0], s[1], s[2..], b[0], b[1..];
      assert s == [c] + ([d] + rest) && b == [v] + rest';
      DecodeIs(rest, rest');
      DecodeJoins(c, d, rest, v, rest');
      PrintJoins(c, d, rest, v, rest');
      PairIs(c, d, v);
    }
  }

  /** What was printed is read back. */
  lemma {:induction false} DecodePrint(b: Bytes)
    ensures Lower(Print(b)) == Print(b) && DecodeString(Print(b)) == Ok(b)
  {
    if b != [] {
      hide DecodeString, Print, Lower, Digit, LowerChar;
      var v, rest := b[0], b[1..];
      assert b == [v] + rest;
      DecodePrint(rest);
      PrintStep(v, rest);
      LowerStep(DIGITS[v / 16], [DIGITS[v % 16]] + Print(rest));
      LowerStep(DIGITS[v % 16], Print(rest));
      DigitIs(DIGITS[v / 16], v / 16);
      DigitIs(DIGITS[v % 16], v % 16);
    }
    DecodeIs(Print(b), b);
  }
}

/** The deal as a value: one transition function for all of its methods (pkg/escrow/deal.go).
    Timestamps are not part of this model. */
module DealSpec {
  import opened Basics
  import opened ClosureSpec
  import opened Locktime
  import opened Escrow
  import Hex

  datatype DealState = Created | Joined | Funded | Shipped | Released | Refunded | Disputed

  datatype DealFields = DealFields(
    id: string, state: DealState, title: string, amount: uint64,
    sellerPubKey: string, buyerPubKey: string, oraclePubKey: string, secretHash: string,
    timeoutBlocks: uint32, escrowAddress: string,
    fundTxid: string, fundVout: uint32, claimTxid: string,
    sellerPrivKey: string, buyerPrivKey: string, secret: string)

  datatype JoinToken = JoinToken(
    dealId: string, title: string, amount: uint64, sellerPubKey: string, oraclePubKey: string, timeoutBlocks: uint32)

  datatype Op =
    | Join(buyerPubKey: string, secretHash: string)
    | SetEscrowAddress(addr: string)
    | Fund(txid: string, vout: uint32)
    | Ship
    | Release(claimTxid: string)
    | Refund(claimTxid: string)
    | Dispute(claimTxid: string)

  function NewDeal(id: string, title: string, amount: uint64, sellerPubKey: string, oraclePubKey: string,
                   timeoutBlocks: uint32): DealFields {
    DealFields(id, Created, title, amount, sellerPubKey, "", oraclePubKey, "", timeoutBlocks, "", "", 0, "", "", "", "")
  }

  function Token(d: DealFields): JoinToken {
    JoinToken(d.id, d.title, d.amount, d.sellerPubKey, d.oraclePubKey, d.timeoutBlocks)
  }

  /** The fields after a method call, and whether the call was accepted. */
  function Apply(d: DealFields, op: Op): (DealFields, bool) {
    match op
    case Join(buyer, hash) =>
      if d.state != Created then (d, false) else (d.(buyerPubKey := buyer, secretHash := hash, state := Joined), true)
    case SetEscrowAddress(addr) => (d.(escrowAddress := addr), true)
    case Fund(txid, vout) =>
      if d.state != Joined then (d, false) else (d.(fundTxid := txid, fundVout := vout, state := Funded), true)
    case Ship =>
      if d.state != Funded then (d, false) else (d.(state := Shipped), true)
    case Release(txid) =>
      if d.state != Funded && d.state != Shipped then (d, false) else (d.(claimTxid := txid, state := Released), true)
    case Refund(txid) =>
      if d.state != Funded && d.state != Shipped then (d, false) else (d.(claimTxid := txid, state := Refunded), true)
    case Dispute(txid) =>
      if d.state != Funded && d.state != Shipped then (d, false) else (d.(claimTxid := txid, state := Disputed), true)
  }

  function Run(d: DealFields, ops: seq<Op>): DealFields
    decreases |ops|
  {
    if ops == [] then d else Run(Apply(d, ops[0]).0, ops[1..])
  }

  // ------------------------------------------------------------ escrow parameters

  /** decodePubKey: 32 bytes are an x-only key, 33 bytes a compressed one. */
  function DecodePubKey(curve: Curve, s: string): Result<PubKey> {
    match Hex.DecodeString(s)
    case Err => Err
    case Ok(b) =>
      if |b| == 32 then if curve(b) then Ok(PubKey(b, false)) else Err
      else if |b| == 33 then
        if (b[0] == 2 || b[0] == 3) && curve(b[1..]) then Ok(PubKey(b[1..], b[0] == 3)) else Err
      else Err
  }

  function KeyParams(curve: Curve, seller: string, buyer: string, oracle: string, hash: string,
                     timeoutBlocks: uint32): Result<EscrowParams> {
    if seller == "" || buyer == "" || oracle == "" || hash == "" then Err
    else
      var s, b, o, h := DecodePubKey(curve, seller), DecodePubKey(curve, buyer), DecodePubKey(curve, oracle),
          Hex.DecodeString(hash);
      if s.Err? || b.Err? || o.Err? || h.Err? || |h.value| != 32 then Err
      else Ok(EscrowParams(Some(s.value), Some(b.value), Some(o.value), h.value,
                           RelativeLocktime(Block, timeoutBlocks)))
  }

  function DealParams(curve: Curve, d: DealFields): Result<EscrowParams> {
    KeyParams(curve, d.sellerPubKey, d.buyerPubKey, d.oraclePubKey, d.secretHash, d.timeoutBlocks)
  }

  /** The compressed form of a public key. */
  function Compressed(key: PubKey): Bytes {
    [if key.odd then 3 else 2] + key.x
  }

  /** The texts of a key: the hexadecimal digits, in either case, of its compressed form, or of its x
      coordinate if it is even. */
  predicate Spells(curve: Curve, s: string, key: PubKey) {
    && curve(key.x)
    && (Hex.Lower(s) == Hex.Print(Compressed(key)) || (Hex.Lower(s) == Hex.Print(key.x) && !key.odd))
  }

  lemma DecodePubKeyIs(curve: Curve, s: string, key: PubKey)
    ensures DecodePubKey(curve, s) == Ok(key) <==> Spells(curve, s, key)
  {
    hide Hex.DecodeString, Hex.Print, Hex.Lower;
    Hex.DecodeIs(s, Compressed(key));
    Hex.DecodeIs(s, key.x);
    if DecodePubKey(curve, s) == Ok(key) {
      var b := Hex.DecodeString(s).value;
      assert |b| == 33 ==> b == [b[0]] + b[1..];
    }
  }

  /** A deal has escrow parameters exactly when its four texts spell three keys and a hash, and then each
      text gives its own part. */
  lemma DealParamsAre(curve: Curve, d: DealFields, seller: PubKey, buyer: PubKey, oracle: PubKey, hash: Bytes32)
    ensures DealParams(curve, d) == Ok(EscrowParams(Some(seller), Some(buyer), Some(oracle), hash,
                                                    RelativeLocktime(Block, d.timeoutBlocks)))
       <==> && Spells(curve, d.sellerPubKey, seller) && Spells(curve, d.buyerPubKey, buyer)
            && Spells(curve, d.oraclePubKey, oracle) && Hex.Lower(d.secretHash) == Hex.Print(hash)
  {
    hide DecodePubKey, Spells;
    DecodePubKeyIs(curve, d.sellerPubKey, seller);
    DecodePubKeyIs(curve, d.buyerPubKey, buyer);
    DecodePubKeyIs(curve, d.oraclePubKey, oracle);
    Hex.DecodeIs(d.secretHash, hash);
    SpelledIsNotEmpty(curve, d.sellerPubKey, seller);
    SpelledIsNotEmpty(curve, d.buyerPubKey, buyer);
    SpelledIsNotEmpty(curve, d.oraclePubKey, oracle);
  }

  lemma SpelledIsNotEmpty(curve: Curve, s: string, key: PubKey)
    ensures Spells(curve, s, key) ==> s != ""
  {
  }

  /** Parameters of a deal are always of that shape. */
  lemma DealParamsShape(curve: Curve, d: DealFields)
    requires DealParams(curve, d).Ok?
    ensures var p := DealParams(curve, d).value;
            p.seller.Some? && p.buyer.Some? && p.oracle.Some? && p.timeout == RelativeLocktime(Block, d.timeoutBlocks)
  {
  }

  /** Keys and hash printed into a deal come back from it, whether keys are printed with x alone or
      compressed. */
  lemma PrintedDealParams(curve: Curve, d: DealFields, seller: PubKey, buyer: PubKey, oracle: PubKey, hash: Bytes32)
    requires curve(seller.x) && curve(buyer.x) && curve(oracle.x)
    requires d.sellerPubKey == Hex.Print(Compressed(seller)) || (d.sellerPubKey == Hex.Print(seller.x) && !seller.odd)
    requires d.buyerPubKey == Hex.Print(Compressed(buyer)) || (d.buyerPubKey == Hex.Print(buyer.x) && !buyer.odd)
    requires d.oraclePubKey == Hex.Print(Compressed(oracle)) || (d.oraclePubKey == Hex.Print(oracle.x) && !oracle.odd)
    requires d.secretHash == Hex.Print(hash)
    ensures DealParams(curve, d) == Ok(EscrowParams(Some(seller), Some(buyer), Some(oracle), hash,
                                                    RelativeLocktime(Block, d.timeoutBlocks)))
  {
    hide Hex.Print, DealParams, Hex.DecodeString;
    PrintedIsSpelled(curve, d.sellerPubKey, seller);
    PrintedIsSpelled(curve, d.buyerPubKey, buyer);
    PrintedIsSpelled(curve, d.oraclePubKey, oracle);
    Hex.DecodePrint(hash);
    Hex.DecodeIs(d.secretHash, hash);
    DealParamsAre(curve, d, seller, buyer, oracle, hash);
  }

  lemma PrintedIsSpelled(curve: Curve, s: string, key: PubKey)
    requires curve(key.x) && (s == Hex.Print(Compressed(key)) || (s == Hex.Print(key.x) && !key.odd))
    ensures Spells(curve, s, key)
  {
    hide Hex.Print, Hex.DecodeString;
    Hex.DecodePrint(Compressed(key));
    Hex.DecodePrint(key.x);
    Hex.DecodeIs(s, Compressed(key));
    Hex.DecodeIs(s, key.x);
  }

  // ------------------------------------------------------------ runs

  function Rank(s: DealState): nat {
    match s
    case Created => 0
    case Joined => 1
    case Funded => 2
    case Shipped => 3
    case _ => 4
  }

  /** The arrows of the life cycle. */
  predicate Edge(s: DealState, t: DealState) {
    || (s == Created && t == Joined) || (s == Joined && t == Funded) || (s == Funded && t == Shipped)
    || ((s == Funded || s == Shipped) && (t == Released || t == Refunded || t == Disputed))
  }

  /** The calls that were accepted as a change of state. */
  function Transitions(d: DealFields, ops: seq<Op>): nat
    decreases |ops|
  {
    if ops == [] then 0
    else (if Apply(d, ops[0]).0.state != d.state then 1 else 0) + Transitions(Apply(d, ops[0]).0, ops[1..])
  }

  /** Some call takes a deal from one state to another exactly along the arrows, and a rejected call
      changes nothing at all. */
  lemma StateChangesAreEdges(d: DealFields, t: DealState)
    ensures (exists op :: Apply(d, op).1 && Apply(d, op).0.state == t && t != d.state) <==> Edge(d.state, t)
    ensures forall op :: !Apply(d, op).1 ==> Apply(d, op).0 == d
  {
    if Edge(d.state, t) {
      var op := match t
        case Joined => Join("", "")
        case Funded => Fund("", 0)
        case Shipped => Ship
        case Released => Release("")
        case Refunded => Refund("")
        case _ => Dispute("");
      assert Apply(d, op).1 && Apply(d, op).0.state == t;
    }
  }

  /** The state in which each call is accepted, and the state it leads to. */
  predicate Allows(s: DealState, op: Op) {
    match op
    case Join(_, _) => s == Created
    case SetEscrowAddress(_) => true
    case Fund(_, _) => s == Joined
    case Ship => s == Funded
    case _ => s == Funded || s == Shipped
  }

  /** What can be read from a deal that an accepted call was the last to write to. */
  predicate Shows(d: DealFields, op: Op) {
    match op
    case Join(buyer, hash) => d.state == Joined && d.buyerPubKey == buyer && d.secretHash == hash
    case SetEscrowAddress(addr) => d.escrowAddress == addr
    case Fund(txid, vout) => d.state == Funded && d.fundTxid == txid && d.fundVout == vout
    case Ship => d.state == Shipped
    case Release(txid) => d.state == Released && d.claimTxid == txid
    case Refund(txid) => d.state == Refunded && d.claimTxid == txid
    case Dispute(txid) => d.state == Disputed && d.claimTxid == txid
  }

  lemma AcceptedCallsShow(d: DealFields, op: Op)
    ensures Apply(d, op).1 <==> Allows(d.state, op)
    ensures Apply(d, op).1 ==> Shows(Apply(d, op).0, op)
  {
  }

  /** The call that closes a deal in each of its three ends. */
  function Closing(d: DealFields): Op
    requires Rank(d.state) == 4
  {
    match d.state
    case Released => Release(d.claimTxid)
    case Refunded => Refund(d.claimTxid)
    case _ => Dispute(d.claimTxid)
  }

  predicate WrittenAt(d: DealFields, ops: seq<Op>, i: nat, j: nat, k: nat) {
    && (Rank(d.state) >= 1 ==> i < |ops| && ops[i] == Join(d.buyerPubKey, d.secretHash))
    && (Rank(d.state) >= 2 ==> i < j < |ops| && ops[j] == Fund(d.fundTxid, d.fundVout))
    && (Rank(d.state) == 4 ==> j < k < |ops| && ops[k] == Closing(d))
  }

  /** Over every run of a new deal, what the deal holds is what calls of the run gave it: the participants
      from a Join, then the outpoint from a Fund after it, then end state and claim from the closing call
      after that. */
  lemma {:induction false} WrittenByCalls(d: DealFields, ops: seq<Op>)
    requires d.state == Created
    ensures exists i, j, k :: WrittenAt(Run(d, ops), ops, i, j, k)
    decreases |ops|
  {
    if ops == [] {
      assert WrittenAt(Run(d, ops), ops, 0, 0, 0);
    } else {
      var before, last := Front(ops), Last(ops);
      assert ops == before + [last] && [last][1..] == [];
      RunAppend(d, before, [last]);
      assert Run(Run(d, before), [last]) == Apply(Run(d, before), last).0;
      WrittenByCalls(d, before);
      var i, j, k :| WrittenAt(Run(d, before), before, i, j, k);
      LastCallWrites(Run(d, before), before, last, i, j, k);
    }
  }

  lemma LastCallWrites(d: DealFields, before: seq<Op>, last: Op, i: nat, j: nat, k: nat)
    requires WrittenAt(d, before, i, j, k)
    ensures exists i', j', k' :: WrittenAt(Apply(d, last).0, before + [last], i', j', k')
  {
    var n := |before|;
    var accepted := Apply(d, last).1;
    var i' := if accepted && last.Join? then n else i;
    var j' := if accepted && last.Fund? then n else j;
    var k' := if accepted && (last.Release? || last.Refund? || last.Dispute?) then n else k;
    assert WrittenAt(Apply(d, last).0, before + [last], i', j', k');
  }

  /** Over any run the rank never falls and rises with every change of state, so there are at most
      four of them. */
  lemma {:induction false} RankRises(d: DealFields, ops: seq<Op>)
    ensures Rank(d.state) + Transitions(d, ops) <= Rank(Run(d, ops).state) <= 4
    decreases |ops|
  {
    if ops != [] {
      RankRises(Apply(d, ops[0]).0, ops[1..]);
    }
  }

  /** Which fields a later run can no longer change: the participants once joined, the funding once
      funded, everything but the address once claimed. */
  predicate Frozen(d: DealFields, e: DealFields) {
    && e.id == d.id && e.title == d.title && e.amount == d.amount
    && e.sellerPubKey == d.sellerPubKey && e.oraclePubKey == d.oraclePubKey && e.timeoutBlocks == d.timeoutBlocks
    && e.sellerPrivKey == d.sellerPrivKey && e.buyerPrivKey == d.buyerPrivKey && e.secret == d.secret
    && Rank(d.state) <= Rank(e.state)
    && (Rank(d.state) >= 1 ==> e.buyerPubKey == d.buyerPubKey && e.secretHash == d.secretHash)
    && (Rank(d.state) >= 2 ==> e.fundTxid == d.fundTxid && e.fundVout == d.fundVout)
    && (Rank(d.state) >= 4 ==> e == d.(escrowAddress := e.escrowAddress))
  }

  /** Fields that are not written yet still have their initial values: joining writes the participants,
      then funding the outpoint, then claiming the claim. */
  predicate InOrder(d: DealFields) {
    && (Rank(d.state) < 1 ==> d.buyerPubKey == "" && d.secretHash == "")
    && (Rank(d.state) < 2 ==> d.fundTxid == "" && d.fundVout == 0)
    && (Rank(d.state) < 4 ==> d.claimTxid == "")
  }

  /** Over every run, written fields stay as they were written. */
  lemma {:induction false} RunFreezes(d: DealFields, ops: seq<Op>)
    ensures Frozen(d, Run(d, ops))
    decreases |ops|
  {
    if ops != [] {
      RunFreezes(Apply(d, ops[0]).0, ops[1..]);
    }
  }

  lemma {:induction false} RunKeepsOrder(d: DealFields, ops: seq<Op>)
    requires InOrder(d)
    ensures InOrder(Run(d, ops))
    decreases |ops|
  {
    if ops != [] {
      RunKeepsOrder(Apply(d, ops[0]).0, ops[1..]);
    }
  }

  lemma {:induction false} RunAppend(d: DealFields, a: seq<Op>, b: seq<Op>)
    ensures Run(d, a + b) == Run(Run(d, a), b)
    decreases |a|
  {
    if a == [] {
      assert a + b == b;
    } else {
      assert (a + b)[0] == a[0] && (a + b)[1..] == a[1..] + b;
      RunAppend(Apply(d, a[0]).0, a[1..], b);
    }
  }

  /** Every point of every run of a new deal: fields are written at most once and in order, at most
      four state changes happened, and what was written before the point is there after it. */
  lemma DealHistory(id: string, title: string, amount: uint64, seller: string, oracle: string, timeout: uint32,
                    before: seq<Op>, after: seq<Op>)
    ensures var d := NewDeal(id, title, amount, seller, oracle, timeout);
            var now, later := Run(d, before), Run(d, before + after);
            InOrder(now) && InOrder(later) && Frozen(now, later) && Transitions(d, before + after) <= 4
  {
    var d := NewDeal(id, title, amount, seller, oracle, timeout);
    RunAppend(d, before, after);
    RunKeepsOrder(d, before);
    RunKeepsOrder(d, before + after);
    RunFreezes(Run(d, before), after);
    RankRises(d, before + after);
  }

  /** From the moment the buyer has joined, every later state of the deal gives the same escrow. */
  lemma {:induction false} ParamsAreFixed(curve: Curve, d: DealFields, ops: seq<Op>)
    requires Rank(d.state) >= 1
    ensures DealParams(curve, Run(d, ops)) == DealParams(curve, d)
  {
    RunFreezes(d, ops);
  }

  /** A deal made from the token of a new deal is that deal. */
  lemma TokenRebuildsDeal(id: string, title: string, amount: uint64, seller: string, oracle: string, timeout: uint32)
    ensures var d := NewDeal(id, title, amount, seller, oracle, timeout);
            var t := Token(d);
            NewDeal(t.dealId, t.title, t.amount, t.sellerPubKey, t.oraclePubKey, t.timeoutBlocks) == d
    ensures var t := Token(NewDeal(id, title, amount, seller, oracle, timeout));
            t == JoinToken(id, title, amount, seller, oracle, timeout)
  {
  }

  /** The buyer's copy, made from the join token and joined with the same key and hash, gives the
      same escrow as the seller's deal at every later point. */
  lemma TokenRebuildsEscrow(curve: Curve, d: DealFields, buyer: string, hash: string, sellerOps: seq<Op>,
                            buyerOps: seq<Op>)
    requires d.state == Created
    ensures var t := Token(d);
            var copy := NewDeal(t.dealId, t.title, t.amount, t.sellerPubKey, t.oraclePubKey, t.timeoutBlocks);
            && DealParams(curve, Run(Apply(d, Join(buyer, hash)).0, sellerOps))
            == DealParams(curve, Run(Apply(copy, Join(buyer, hash)).0, buyerOps))
  {
    var t := Token(d);
    var copy := NewDeal(t.dealId, t.title, t.amount, t.sellerPubKey, t.oraclePubKey, t.timeoutBlocks);
    ParamsAreFixed(curve, Apply(d, Join(buyer, hash)).0, sellerOps);
    ParamsAreFixed(curve, Apply(copy, Join(buyer, hash)).0, buyerOps);
  }
}

/** The deal object. */
module Deals {
  import opened Basics
  import opened ClosureSpec
  import opened Escrow
  import opened DealSpec
  import Hex

  class Deal {
    var id: string
    var state: DealState
    var title: string
    var amount: uint64
    var sellerPubKey: string
    var buyerPubKey: string
    var oraclePubKey: string
    var secretHash: string
    var timeoutBlocks: uint32
    var escrowAddress: string
    var fundTxid: string
    var fundVout: uint32
    var claimTxid: string
    var sellerPrivKey: string
    var buyerPrivKey: string
    var secret: string

    ghost function Fields(): DealFields
      reads this
    {
      DealFields(id, state, title, amount, sellerPubKey, buyerPubKey, oraclePubKey, secretHash, timeoutBlocks,
                 escrowAddress, fundTxid, fundVout, claimTxid, sellerPrivKey, buyerPrivKey, secret)
    }

    constructor (id: string, title: string, amount: uint64, sellerPubKey: string, oraclePubKey: string,
                 timeoutBlocks: uint32)
      ensures Fields() == NewDeal(id, title, amount, sellerPubKey, oraclePubKey, timeoutBlocks)
    {
      this.id, this.state, this.title, this.amount := id, Created, title, amount;
      this.sellerPubKey, this.oraclePubKey, this.timeoutBlocks := sellerPubKey, oraclePubKey, timeoutBlocks;
      buyerPubKey, secretHash, escrowAddress, fundTxid, fundVout, claimTxid := "", "", "", "", 0, "";
      sellerPrivKey, buyerPrivKey, secret := "", "", "";
    }

    method Join(buyerPubKey: string, secretHash: string) returns (ok: bool)
      modifies this
      ensures (Fields(), ok) == Apply(old(Fields()), Op.Join(buyerPubKey, secretHash))
    {
      if state != Created {
        return false;
      }
      this.buyerPubKey := buyerPubKey;
      this.secretHash := secretHash;
      state := Joined;
      return true;
    }

    method SetEscrowAddress(addr: string)
      modifies this
      ensures (Fields(), true) == Apply(old(Fields()), Op.SetEscrowAddress(addr))
    {
      escrowAddress := addr;
    }

    method Fund(txid: string, vout: uint32) returns (ok: bool)
      modifies this
      ensures (Fields(), ok) == Apply(old(Fields()), Op.Fund(txid, vout))
    {
      if state != Joined {
        return false;
      }
      fundTxid := txid;
      fundVout := vout;
      state := Funded;
      return true;
    }

    method Ship() returns (ok: bool)
      modifies this
      ensures (Fields(), ok) == Apply(old(Fields()), Op.Ship)
    {
      if state != Funded {
        return false;
      }
      state := Shipped;
      return true;
    }

    method Release(claimTxid: string) returns (ok: bool)
      modifies this
      ensures (Fields(), ok) == Apply(old(Fields()), Op.Release(claimTxid))
    {
      if state != Funded && state != Shipped {
        return false;
      }
      this.claimTxid := claimTxid;
      state := Released;
      return true;
    }

    method Refund(claimTxid: string) returns (ok: bool)
      modifies this
      ensures (Fields(), ok) == Apply(old(Fields()), Op.Refund(claimTxid))
    {
      if state != Funded && state != Shipped {
        return false;
      }
      this.claimTxid := claimTxid;
      state := Refunded;
      return true;
    }

    method Dispute(claimTxid: string) returns (ok: bool)
      modifies this
      ensures (Fields(), ok) == Apply(old(Fields()), Op.Dispute(claimTxid))
    {
      if state != Funded && state != Shipped {
        return false;
      }
      this.claimTxid := claimTxid;
      state := Disputed;
      return true;
    }
  }
}
