/** The three tapscript closures as values: what their scripts are, and what the push-aware
    decoders make of a byte string (internal/script/closure.go, internal/script/script.go). */
module ClosureSpec {
  import opened Basics
  import opened Opcodes
  import opened Tokenizer
  import opened Locktime

  /** A point on the curve: its x coordinate and the parity of y. Scripts carry x only. */
  datatype PubKey = PubKey(x: Bytes32, odd: bool)

  /** Which 32-byte strings are the x coordinate of a curve point. */
  type Curve = Bytes -> bool

  datatype MultisigType = Checksig | ChecksigAdd

  datatype Multisig = Multisig(pubKeys: seq<PubKey>, kind: MultisigType)

  datatype Closure =
    | Plain(multisig: Multisig)
    | CSV(locktime: RelativeLocktime, multisig: Multisig)
    | Condition(condition: Bytes, multisig: Multisig)

  /** A decoder's (bool, error) pair: (true, nil), (false, nil) or an error. */
  datatype Outcome<+T> = Valid(value: T) | Mismatch | Error

  // ---------------------------------------------------------------- scripts

  function KeyOp(key: PubKey, op: byte): Bytes {
    Push(key.x) + [op]
  }

  function Chain(keys: seq<PubKey>, op: byte): Bytes {
    if keys == [] then [] else KeyOp(keys[0], op) + Chain(keys[1..], op)
  }

  /** The bytes of a multisig script, before the builder's size limit. */
  function MultisigBytes(m: Multisig): Bytes
    requires |m.pubKeys| < 0x1_0000_0000
  {
    var keys := m.pubKeys;
    match m.kind
    case Checksig =>
      if keys == [] then [] else Chain(Front(keys), OP_CHECKSIGVERIFY) + KeyOp(Last(keys), OP_CHECKSIG)
    case ChecksigAdd =>
      (if keys == [] then [] else KeyOp(keys[0], OP_CHECKSIG) + Chain(keys[1..], OP_CHECKSIGADD))
      + PushInt(|keys|) + [OP_NUMEQUAL]
  }

  function Limited(script: Bytes): (r: Result<Bytes>) {
    if |script| <= MAX_SCRIPT_SIZE then Ok(script) else Err
  }

  function MultisigScript(m: Multisig): Result<Bytes> {
    if |m.pubKeys| > MAX_SCRIPT_SIZE then Err else Limited(MultisigBytes(m))
  }

  function CSVPrefix(sequence: uint32): Bytes {
    PushInt(sequence) + [OP_CHECKSEQUENCEVERIFY, OP_DROP]
  }

  /** The two halves of a CSV script are built, and limited, separately. */
  function CSVScript(locktime: RelativeLocktime, m: Multisig): Result<Bytes> {
    match BIP68Sequence(locktime)
    case Err => Err
    case Ok(sequence) =>
      match MultisigScript(m)
      case Err => Err
      case Ok(script) => Ok(CSVPrefix(sequence) + script)
  }

  function ConditionScript(condition: Bytes, m: Multisig): Result<Bytes> {
    match MultisigScript(m)
    case Err => Err
    case Ok(script) => Limited(condition + [OP_VERIFY] + script)
  }

  function Script(c: Closure): Result<Bytes> {
    match c
    case Plain(m) => MultisigScript(m)
    case CSV(locktime, m) => CSVScript(locktime, m)
    case Condition(condition, m) => ConditionScript(condition, m)
  }

  // --------------------------------------------------------------- decoders

  function LiftKey(x: Bytes32): PubKey {
    PubKey(x, false)
  }

  /** The loop of decodeChecksig, from the unread script and the keys read so far. */
  function ScanChecksig(curve: Curve, script: Bytes, keys: seq<PubKey>): Outcome<seq<PubKey>>
    decreases |script|
  {
    match NextToken(script)
    case Done => Mismatch
    case Malformed => Mismatch
    case Tok(op, data, rest) =>
      if op != OP_DATA_32 then Mismatch
      else if !curve(data) then Error
      else
        match NextToken(rest)
        case Done => Mismatch
        case Malformed => Mismatch
        case Tok(op', _, rest') =>
          var keys' := keys + [LiftKey(data)];
          if op' == OP_CHECKSIGVERIFY then ScanChecksig(curve, rest', keys')
          else if op' == OP_CHECKSIG then Valid(keys')
          else Mismatch
  }

  /** The loop of decodeChecksigAdd and the two tests after it. */
  function ScanChecksigAdd(curve: Curve, script: Bytes, keys: seq<PubKey>): Outcome<seq<PubKey>>
    decreases |script|
  {
    match NextToken(script)
    case Done => Mismatch
    case Malformed => Mismatch
    case Tok(op, data, rest) =>
      if IsSmallInt(op) then
        if |keys| != AsSmallInt(op) then Mismatch
        else
          match NextToken(rest)
          case Done => Mismatch
          case Malformed => Mismatch
          case Tok(op', _, _) => if op' == OP_NUMEQUAL then Valid(keys) else Mismatch
      else if op != OP_DATA_32 then Mismatch
      else if !curve(data) then Error
      else
        match NextToken(rest)
        case Done => Mismatch
        case Malformed => Mismatch
        case Tok(op', _, rest') =>
          if op' == OP_CHECKSIGADD || op' == OP_CHECKSIG then
            ScanChecksigAdd(curve, rest', keys + [LiftKey(data)])
          else Mismatch
  }

  /** A decoded closure only stands if it rebuilds the very same bytes. */
  function Rebuilt(m: Multisig, script: Bytes): Outcome<Multisig> {
    match MultisigScript(m)
    case Err => Error
    case Ok(rebuilt) => if rebuilt == script then Valid(m) else Mismatch
  }

  function DecodeChecksig(curve: Curve, script: Bytes): Outcome<Multisig> {
    match ScanChecksig(curve, script, [])
    case Valid(keys) => Rebuilt(Multisig(keys, Checksig), script)
    case Mismatch => Mismatch
    case Error => Error
  }

  function DecodeChecksigAdd(curve: Curve, script: Bytes): Outcome<Multisig> {
    match ScanChecksigAdd(curve, script, [])
    case Valid(keys) => Rebuilt(Multisig(keys, ChecksigAdd), script)
    case Mismatch => Mismatch
    case Error => Error
  }

  function DecodeMultisig(curve: Curve, script: Bytes): Outcome<Multisig> {
    if script == [] then Error
    else if DecodeChecksig(curve, script) != Mismatch then DecodeChecksig(curve, script)
    else DecodeChecksigAdd(curve, script)
  }

  function DecodeCSV(curve: Curve, script: Bytes): Outcome<Closure> {
    match NextToken(script)
    case Done => Error
    case Malformed => Mismatch
    case Tok(op, data, rest) =>
      var sequence := if IsSmallInt(op) then [op] else data;
      var csv := NextToken(rest);
      if !csv.Tok? || csv.op != OP_CHECKSEQUENCEVERIFY then Mismatch
      else
        var drop := NextToken(csv.rest);
        if !drop.Tok? || drop.op != OP_DROP then Mismatch
        else
          match DecodeSequence(sequence)
          case Err => Error
          case Ok(locktime) =>
            match DecodeMultisig(curve, drop.rest)
            case Valid(m) => Valid(CSV(locktime, m))
            case Mismatch => Mismatch
            case Error => Error
  }

  /** The condition as the decoder reassembles it, and the script after the first OP_VERIFY:
      length bytes of PUSHDATA pushes are dropped, and a malformed tail is left unread. */
  function ScanCondition(script: Bytes): (r: (Bytes, Bytes))
    ensures |r.0| + |r.1| <= |script|
    decreases |script|
  {
    match NextToken(script)
    case Done => ([], [])
    case Malformed => ([], script)
    case Tok(op, data, rest) =>
      if op == OP_VERIFY then ([], rest)
      else
        var (condition, tail) := ScanCondition(rest);
        ([op] + data + condition, tail)
  }

  function DecodeCondition(curve: Curve, script: Bytes): Outcome<Closure> {
    if script == [] then Error
    else
      var (condition, tail) := ScanCondition(script);
      match DecodeMultisig(curve, tail)
      case Mismatch => Mismatch
      case Error => Error
      case Valid(m) =>
        match ConditionScript(condition, m)
        case Err => Error
        case Ok(rebuilt) => if rebuilt == script then Valid(Condition(condition, m)) else Mismatch
  }

  function DecodePlain(curve: Curve, script: Bytes): Outcome<Closure> {
    match DecodeMultisig(curve, script)
    case Valid(m) => Valid(Plain(m))
    case Mismatch => Mismatch
    case Error => Error
  }

  /** DecodeClosure: the first decoder to say yes wins; errors only mean "try the next one". */
  function Decode(curve: Curve, script: Bytes): Result<Closure> {
    if script == [] then Err
    else if DecodeCSV(curve, script).Valid? then Ok(DecodeCSV(curve, script).value)
    else if DecodePlain(curve, script).Valid? then Ok(DecodePlain(curve, script).value)
    else if DecodeCondition(curve, script).Valid? then Ok(DecodeCondition(curve, script).value)
    else Err
  }
}
