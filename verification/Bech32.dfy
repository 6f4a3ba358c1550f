/** Bech32 and Bech32m addresses: printer and parser (pkg/escrow/bech32.go). */
module Bech32 {
  import opened Basics
  import opened PolymodStep
  import opened Checksums
  import ConvertBits
  import Opcodes
  import Tokenizer

  const CHARSET := "qpzry9x8gf2tvdw0s3jn54khce6mua7l"
  const BECH32_CONST: bv32 := 1
  const BECH32M_CONST: bv32 := 0x2bc830a3

  predicate Ascii(s: string) {
    forall i :: 0 <= i < |s| ==> s[i] < 128 as char
  }

  // ------------------------------------------------------------ the character set

  /** The position of a character, 32 if it is not in the set. */
  function Rank(c: char): nat {
    match c
    case 'q' => 0 case 'p' => 1 case 'z' => 2 case 'r' => 3
    case 'y' => 4 case '9' => 5 case 'x' => 6 case '8' => 7
    case 'g' => 8 case 'f' => 9 case '2' => 10 case 't' => 11
    case 'v' => 12 case 'd' => 13 case 'w' => 14 case '0' => 15
    case 's' => 16 case '3' => 17 case 'j' => 18 case 'n' => 19
    case '5' => 20 case '4' => 21 case 'k' => 22 case 'h' => 23
    case 'c' => 24 case 'e' => 25 case '6' => 26 case 'm' => 27
    case 'u' => 28 case 'a' => 29 case '7' => 30 case 'l' => 31
    case _ => 32
  }

  lemma CharsetRank(i: nat)
    requires i < 32
    ensures |CHARSET| == 32 && Rank(CHARSET[i]) == i && CHARSET[i] < 128 as char
  {
    if i < 8 {
      if i < 4 {} else {}
    } else if i < 16 {
      if i < 12 {} else {}
    } else if i < 24 {
      if i < 20 {} else {}
    } else {
      if i < 28 {} else {}
    }
  }

  /** The decoder's search: the first position from `j` on that holds the character. */
  function IndexFrom(c: char, j: nat): (r: Option<byte>)
    requires j <= |CHARSET|
    ensures r.Some? ==> j <= r.value < 32 && CHARSET[r.value] == c
    decreases |CHARSET| - j
  {
    if j == |CHARSET| then None else if CHARSET[j] == c then Some(j) else IndexFrom(c, j + 1)
  }

  lemma {:induction false} IndexFromFinds(i: byte, j: nat)
    requires j <= i < 32
    ensures IndexFrom(CHARSET[i], j) == Some(i)
    decreases 32 - j
  {
    CharsetRank(i);
    CharsetRank(j);
    if j < i {
      IndexFromFinds(i, j + 1);
    }
  }

  function Chars(s: Bytes): (t: string)
    requires Symbols(s)
    ensures |t| == |s| && forall i :: 0 <= i < |s| ==> t[i] == CHARSET[s[i]]
  {
    seq(|s|, i requires 0 <= i < |s| => CHARSET[s[i]])
  }

  function Indices(t: string): (r: Option<Bytes>)
    ensures r.Some? ==> |r.value| == |t| && Symbols(r.value) && Chars(r.value) == t
    ensures r.None? <==> exists i :: 0 <= i < |t| && IndexFrom(t[i], 0).None?
  {
    if exists i :: 0 <= i < |t| && IndexFrom(t[i], 0).None? then None
    else Some(seq(|t|, i requires 0 <= i < |t| => IndexFrom(t[i], 0).value))
  }

  lemma CharsIndices(s: Bytes)
    requires Symbols(s)
    ensures Indices(Chars(s)) == Some(s)
  {
    forall i | 0 <= i < |s| ensures IndexFrom(Chars(s)[i], 0) == Some(s[i]) {
      IndexFromFinds(s[i], 0);
    }
    assert Indices(Chars(s)).value == s;
  }

  lemma CharsAreNotOne(s: Bytes)
    requires Symbols(s)
    ensures Ascii(Chars(s)) && forall i :: 0 <= i < |s| ==> Chars(s)[i] != '1'
  {
    forall i | 0 <= i < |s| ensures Chars(s)[i] < 128 as char && Chars(s)[i] != '1' {
      CharsetRank(s[i]);
    }
  }

  // ------------------------------------------------------------ printer and parser

  function HighBits(hrp: string): Bytes
    requires Ascii(hrp)
  {
    seq(|hrp|, i requires 0 <= i < |hrp| => hrp[i] as int / 32)
  }

  function LowBits(hrp: string): Bytes {
    seq(|hrp|, i requires 0 <= i < |hrp| => hrp[i] as int % 32)
  }

  function HrpExpand(hrp: string): Bytes
    requires Ascii(hrp)
  {
    HighBits(hrp) + [0] + LowBits(hrp)
  }

  function Checksum(target: bv32, hrp: string, data: Bytes): (s: Bytes)
    requires Ascii(hrp)
    ensures |s| == 6 && Symbols(s)
  {
    ChecksumSymbols(Xor(Polymod(HrpExpand(hrp) + data + Zeros(6)), target))
  }

  /** The text of `data` under a prefix, with the checksum that verifies to `target`. */
  function Print(target: bv32, hrp: string, data: Bytes): string
    requires Ascii(hrp) && Symbols(data)
  {
    hrp + "1" + Chars(data + Checksum(target, hrp, data))
  }

  /** The position of the last '1', or -1. */
  function Separator(addr: string): (i: int)
    ensures -1 <= i < |addr|
    ensures i >= 0 ==> addr[i] == '1'
    ensures forall k :: i < k < |addr| ==> addr[k] != '1'
  {
    if addr == "" then -1 else if Last(addr) == '1' then |addr| - 1 else Separator(Front(addr))
  }

  /** DecodeBech32: witness version and program. Both checksum constants are taken for any version. */
  function Parse(addr: string): Result<(byte, Bytes)>
    requires Ascii(addr)
  {
    var sep := Separator(addr);
    if sep == -1 then Err
    else
      var hrp, part := addr[..sep], addr[sep + 1..];
      if |part| < 6 then Err
      else
        match Indices(part)
        case None => Err
        case Some(data) =>
          var chk := Polymod(HrpExpand(hrp) + data);
          if chk != BECH32_CONST && chk != BECH32M_CONST then Err
          else if |data| - 6 < 1 then Err
          else
            match ConvertBits.Regroup(data[1..|data| - 6], 5, 8, false)
            case None => Err
            case Some(program) => Ok((data[0], program))
  }

  function ProgramSymbols(program: Bytes): (s: Bytes)
    ensures Symbols(s)
  {
    ConvertBits.BytesRoundTrip(program);
    Pow2Small();
    ConvertBits.Regroup(program, 8, 5, true).value
  }

  /** EncodeBech32m: version 1, Bech32m checksum. */
  function EncodeBech32m(hrp: string, program: Bytes): string
    requires Ascii(hrp)
  {
    Print(BECH32M_CONST, hrp, [1] + ProgramSymbols(program))
  }

  // ------------------------------------------------------------ theorems

  lemma {:induction false} SeparatorIs(addr: string, sep: nat)
    requires sep < |addr| && addr[sep] == '1' && forall k :: sep < k < |addr| ==> addr[k] != '1'
    ensures Separator(addr) == sep
  {
  }

  lemma PrintParts(target: bv32, hrp: string, data: Bytes)
    requires Ascii(hrp) && Symbols(data)
    ensures var addr := Print(target, hrp, data);
            var all := data + Checksum(target, hrp, data);
            && Ascii(addr) && Separator(addr) == |hrp|
            && addr[..|hrp|] == hrp && addr[|hrp| + 1..] == Chars(all)
            && Indices(Chars(all)) == Some(all)
  {
    var all := data + Checksum(target, hrp, data);
    var addr := Print(target, hrp, data);
    CharsAreNotOne(all);
    forall k | |hrp| < k < |addr| ensures addr[k] != '1' {
      assert addr[k] == Chars(all)[k - |hrp| - 1];
    }
    SeparatorIs(addr, |hrp|);
    CharsIndices(all);
  }

  lemma ChecksumVerifies(target: bv32, hrp: string, data: Bytes)
    requires Ascii(hrp) && target < STATE_LIMIT
    ensures Polymod(HrpExpand(hrp) + (data + Checksum(target, hrp, data))) == target
  {
    hide Xor, ChecksumSymbols, PolymodFrom;
    var values := HrpExpand(hrp) + data;
    ChecksumCloses(values, target);
    assert values + Checksum(target, hrp, data) == HrpExpand(hrp) + (data + Checksum(target, hrp, data));
  }

  /** Parsing a printed version and program gives them back, whatever the prefix contains, and under
      either checksum constant: the parser does not tie the constant to the version. */
  lemma ParsePrint(target: bv32, hrp: string, version: byte, program: Bytes)
    requires Ascii(hrp) && version < 32 && (target == BECH32_CONST || target == BECH32M_CONST)
    ensures var addr := Print(target, hrp, [version] + ProgramSymbols(program));
            Ascii(addr) && Parse(addr) == Ok((version, program))
  {
    hide Print, Separator, Checksum, Indices, Chars, PolymodFrom, ConvertBits.Regroup, HrpExpand;
    var symbols := ProgramSymbols(program);
    var data := [version] + symbols;
    var all := data + Checksum(target, hrp, data);
    PrintParts(target, hrp, data);
    ChecksumVerifies(target, hrp, data);
    ConvertBits.BytesRoundTrip(program);
    assert all[0] == version && all[1..|all| - 6] == symbols;
  }

  /** DecodeBech32(EncodeBech32m(hrp, p)) is (1, p) for every ASCII prefix and every byte string. */
  lemma AddressRoundTrip(hrp: string, program: Bytes)
    requires Ascii(hrp)
    ensures Ascii(EncodeBech32m(hrp, program)) && Parse(EncodeBech32m(hrp, program)) == Ok((1, program))
  {
    hide Parse, Print;
    ParsePrint(BECH32M_CONST, hrp, 1, program);
  }

  lemma ChecksumIsUnique(target: bv32, hrp: string, data: Bytes, tail: Bytes)
    requires Ascii(hrp) && |tail| == 6 && Symbols(tail)
    requires Polymod(HrpExpand(hrp) + (data + tail)) == target
    ensures tail == Checksum(target, hrp, data)
  {
    hide Xor, ChecksumSymbols, PolymodFrom, Pack, HrpExpand;
    var values := HrpExpand(hrp) + data;
    var open := Polymod(values + Zeros(6));
    assert HrpExpand(hrp) + (data + tail) == values + tail;
    PolymodAppend(1, values, tail);
    PolymodAppend(1, values, Zeros(6));
    Absorb(PolymodFrom(1, values), tail);
    StateBound(1, values + Zeros(6));
    StateBound(1, values + tail);
    XorBound(open, target);
    XorTwice(open, Pack(tail));
    ChecksumIsSymbols(Xor(open, target));
    PackChecksum(Xor(open, target));
    PackInjective(tail, ChecksumSymbols(Xor(open, target)));
  }

  /** The parser accepts nothing but printed addresses: the text is the print of what it returns,
      under its own prefix and the constant its checksum verifies to. */
  lemma PrintParse(addr: string)
    requires Ascii(addr) && Parse(addr).Ok?
    ensures var (version, program) := Parse(addr).value;
            var hrp := addr[..Separator(addr)];
            && version < 32
            && (addr == Print(BECH32_CONST, hrp, [version] + ProgramSymbols(program))
             || addr == Print(BECH32M_CONST, hrp, [version] + ProgramSymbols(program)))
  {
    hide Checksum, Chars, Polymod, ConvertBits.Regroup, HrpExpand;
    var (version, program) := Parse(addr).value;
    var sep := Separator(addr);
    var hrp, part := addr[..sep], addr[sep + 1..];
    var data := Indices(part).value;
    var chk := Polymod(HrpExpand(hrp) + data);
    var n := |data| - 6;
    var symbols := data[1..n];
    Pow2Small();
    ConvertBits.SymbolsRoundTrip(symbols);
    assert ProgramSymbols(program) == symbols;
    assert data[..n] == [version] + symbols && data == data[..n] + data[n..];
    ChecksumIsUnique(chk, hrp, data[..n], data[n..]);
    assert addr == hrp + "1" + part;
  }

  /** Two texts under one prefix that differ only inside six consecutive characters of the data
      part: if the parser takes both, their checksums verify to different constants. */
  lemma BurstChangesConstant(hrp: string, before: Bytes, s: Bytes, t: Bytes, after: Bytes)
    requires Ascii(hrp) && Symbols(before) && Symbols(s) && Symbols(t) && Symbols(after)
    requires |s| == |t| <= 6 && s != t
    ensures var u, v := hrp + "1" + Chars(before + s + after), hrp + "1" + Chars(before + t + after);
            && Ascii(u) && Ascii(v)
            && (Parse(u).Ok? && Parse(v).Ok? ==>
                  Polymod(HrpExpand(hrp) + (before + s + after)) != Polymod(HrpExpand(hrp) + (before + t + after)))
  {
    hide PolymodFrom, HrpExpand, Parse;
    CharsAreNotOne(before + s + after);
    CharsAreNotOne(before + t + after);
    var values := HrpExpand(hrp) + before;
    BurstsAreDetected(values, s, t, after);
    assert HrpExpand(hrp) + (before + s + after) == values + s + after;
    assert HrpExpand(hrp) + (before + t + after) == values + t + after;
  }

  // ------------------------------------------------------------ fixed points of the format

  /** The prefix as the checksum sees it: the high bits of every character, a zero, and then the low five
      bits of every character. */
  lemma PrefixExpansion(hrp: string)
    requires Ascii(hrp)
    ensures |HrpExpand(hrp)| == 2 * |hrp| + 1 && HrpExpand(hrp)[|hrp|] == 0
    ensures forall i {:trigger hrp[i]} :: 0 <= i < |hrp| ==>
              var high, low := HrpExpand(hrp)[i], HrpExpand(hrp)[|hrp| + 1 + i];
              low < 32 && 32 * high + low == hrp[i] as int
  {
  }

  /** One step of the checksum on a known symbol. */
  lemma Next(chk: bv32, v: byte, rest: Bytes)
    ensures PolymodFrom(chk, [v] + rest) == PolymodFrom(FlatStep(chk, Bits(v)), rest)
  {
    hide Step, FlatStep, Bits;
    StepFlat(chk, Bits(v));
    assert ([v] + rest)[1..] == rest;
  }

  lemma NextZero(chk: bv32, n: nat)
    ensures PolymodFrom(chk, Zeros(n + 1)) == PolymodFrom(FlatStep(chk, 0), Zeros(n))
  {
    hide PolymodFrom, FlatStep, Bits;
    BitsBound(0);
    assert Zeros(n + 1) == [0] + Zeros(n);
    Next(chk, 0, Zeros(n));
  }

  lemma KnownSteps()
    ensures FlatStep(1, 3) == 0x23 && FlatStep(0x23, 0) == 0x460 && FlatStep(0x460, 1) == 0x8c01
    ensures FlatStep(0x8c01, 0) == 0x118020 && FlatStep(0x118020, 0) == 0x2300400
    ensures FlatStep(0x2300400, 0) == 0x3d6ad7b2 && FlatStep(0x3d6ad7b2, 0) == 0x2fd30b9
    ensures FlatStep(0x2fd30b9, 0) == 0x24cc4092 && FlatStep(0x24cc4092, 0) == 0x15ccfe9e
  {
  }

  lemma KnownPrefix()
    ensures PolymodFrom(1, [3, 0, 1]) == 0x8c01
  {
    KnownSteps();
    SymbolBits(3);
    SymbolBits(0);
    SymbolBits(1);
    hide FlatStep, PolymodFrom, Bits;
    Next(1, 3, [0, 1]);
    Next(0x23, 0, [1]);
    Next(0x460, 1, []);
    assert [3] + [0, 1] == [3, 0, 1] && [0] + [1] == [0, 1] && [1 as byte] + [] == [1];
    PolymodOfNothing(0x8c01);
  }

  lemma PolymodOfNothing(chk: bv32)
    ensures PolymodFrom(chk, []) == chk
  {
  }

  lemma KnownZeros()
    ensures PolymodFrom(0x8c01, Zeros(6)) == 0x15ccfe9e
  {
    KnownSteps();
    hide FlatStep, PolymodFrom;
    NextZero(0x8c01, 5);
    NextZero(0x118020, 4);
    NextZero(0x2300400, 3);
    NextZero(0x3d6ad7b2, 2);
    NextZero(0x2fd30b9, 1);
    NextZero(0x24cc4092, 0);
    assert Zeros(0) == [];
    PolymodOfNothing(0x15ccfe9e);
  }

  lemma KnownWords()
    ensures Xor(0x15ccfe9e, PackOne(PackOne(PackOne(PackOne(PackOne(PackOne(0, 31), 0), 9), 19), 17), 29))
         == BECH32M_CONST
    ensures Xor(0x15ccfe9e, PackOne(PackOne(PackOne(PackOne(PackOne(PackOne(0, 10), 28), 25), 31), 20), 31))
         == BECH32_CONST
  {
  }

  lemma KnownChecksum(target: bv32, tail: Bytes)
    requires |tail| == 6 && Symbols(tail) && Xor(0x15ccfe9e, Pack(tail)) == target
    ensures Print(target, "a", []) == "a1" + Chars(tail)
  {
    hide PolymodFrom, Checksum, Xor, Pack, Chars, Symbols;
    var expanded := HrpExpand("a");
    assert expanded == [3, 0, 1];
    KnownPrefix();
    KnownZeros();
    PolymodAppend(1, expanded, tail);
    Absorb(0x8c01, tail);
    assert expanded + ([] + tail) == expanded + tail;
    ChecksumIsUnique(target, "a", [], tail);
    assert [] + tail == tail;
  }

  lemma KnownBits()
    ensures Bits(31) == 31 && Bits(0) == 0 && Bits(9) == 9 && Bits(19) == 19 && Bits(17) == 17 && Bits(29) == 29
    ensures Bits(10) == 10 && Bits(28) == 28 && Bits(25) == 25 && Bits(20) == 20
  {
  }

  lemma KnownM()
    ensures Print(BECH32M_CONST, "a", []) == "a1" + Chars([31, 0, 9, 19, 17, 29])
  {
    hide Print, Xor, Bits, PackOne, Pack, Chars;
    KnownBits();
    KnownWords();
    PackSix([31, 0, 9, 19, 17, 29]);
    KnownChecksum(BECH32M_CONST, [31, 0, 9, 19, 17, 29]);
  }

  lemma KnownOne()
    ensures Print(BECH32_CONST, "a", []) == "a1" + Chars([10, 28, 25, 31, 20, 31])
  {
    hide Print, Xor, Bits, PackOne, Pack, Chars;
    KnownBits();
    KnownWords();
    PackSix([10, 28, 25, 31, 20, 31]);
    KnownChecksum(BECH32_CONST, [10, 28, 25, 31, 20, 31]);
  }

  /** The strings with no data that BIP 350 and BIP 173 give for the prefix "a". */
  lemma EmptyStrings()
    ensures Print(BECH32M_CONST, "a", []) == "a1lqfn3a"
    ensures Print(BECH32_CONST, "a", []) == "a12uel5l"
  {
    hide Print;
    KnownM();
    KnownOne();
    assert Chars([31, 0, 9, 19, 17, 29]) == "lqfn3a";
    assert Chars([10, 28, 25, 31, 20, 31]) == "2uel5l";
    assert "a1" + "lqfn3a" == "a1lqfn3a" && "a1" + "2uel5l" == "a12uel5l";
  }

  // ------------------------------------------------------------ output scripts

  /** AddressToOutputScript */
  function AddressToOutputScript(addr: string): Result<Bytes>
    requires Ascii(addr)
  {
    match Parse(addr)
    case Err => Err
    case Ok((version, program)) =>
      Ok([if version == 0 then 0 else (0x50 + version) % 256, |program| % 256] + program)
  }

  /** A program of the usual size is paid with the small-integer opcode of its version and one push: OP_0
      for version 0. Versions above 16 have no such opcode. */
  lemma OutputScriptTokens(addr: string)
    requires Ascii(addr) && Parse(addr).Ok? && 1 <= |Parse(addr).value.1| <= 75
    ensures AddressToOutputScript(addr).Ok?
    ensures var (version, program) := Parse(addr).value;
            var first := Tokenizer.NextToken(AddressToOutputScript(addr).value);
            && first.Tok? && Tokenizer.NextToken(first.rest) == Tokenizer.Tok(|program|, program, [])
            && (Opcodes.IsSmallInt(first.op) <==> version <= 16)
            && (version <= 16 ==> Opcodes.AsSmallInt(first.op) == version)
  {
    hide Parse;
    PrintParseVersion(addr);
    var (version, program) := Parse(addr).value;
    var op: byte := if version == 0 then 0 else 0x50 + version;
    var script := AddressToOutputScript(addr).value;
    assert script == [op] + (Tokenizer.Push(program) + []);
    Tokenizer.NextOp(op, Tokenizer.Push(program) + []);
    Tokenizer.NextPush(program, []);
  }

  lemma PrintParseVersion(addr: string)
    requires Ascii(addr) && Parse(addr).Ok?
    ensures Parse(addr).value.0 < 32
  {
    hide Print, Parse;
    PrintParse(addr);
  }

  /** P2TRScript of an output key. */
  function P2TRScript(key: Bytes32): Bytes {
    [Opcodes.OP_1] + Tokenizer.Push(key)
  }

  /** Sending to the printed address of a taproot key pays to that key's script. */
  lemma AddressPaysToKey(hrp: string, key: Bytes32)
    requires Ascii(hrp)
    ensures Ascii(EncodeBech32m(hrp, key))
    ensures AddressToOutputScript(EncodeBech32m(hrp, key)) == Ok(P2TRScript(key))
  {
    hide Parse, EncodeBech32m;
    AddressRoundTrip(hrp, key);
    assert P2TRScript(key) == [0x51, 0x20] + key;
  }
}
