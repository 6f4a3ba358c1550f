/** The loops of the address codec, against the printer and parser of Bech32. */
module Bech32Codec {
  import opened Basics
  import opened PolymodStep
  import opened Checksums
  import opened Bech32
  import ConvertBits

  /** The two loops over the prefix that precede every checksum. */
  method ExpandPrefix(hrp: string) returns (values: Bytes)
    requires Ascii(hrp)
    ensures values == HrpExpand(hrp)
  {
    values := [];
    for i := 0 to |hrp|
      invariant values == HighBits(hrp)[..i]
    {
      values := values + [hrp[i] as int / 32];
    }
    values := values + [0];
    for i := 0 to |hrp|
      invariant values == HighBits(hrp) + [0] + LowBits(hrp)[..i]
    {
      values := values + [hrp[i] as int % 32];
    }
  }

  /** bech32mEncode; indexing the character set needs five-bit data. */
  method Bech32mEncode(hrp: string, data: Bytes) returns (ret: string)
    requires Ascii(hrp) && Symbols(data)
    ensures ret == Print(BECH32M_CONST, hrp, data)
  {
    hide Xor, PolymodFrom, Symbol, ChecksumSymbols, DownShift;
    var values := ExpandPrefix(hrp);
    values := values + data;
    values := values + [0, 0, 0, 0, 0, 0];
    assert values == HrpExpand(hrp) + data + Zeros(6);
    var chk := Compute(values);
    var polymod := Xor(chk, BECH32M_CONST);
    var checksum: Bytes := [];
    ChecksumIsSymbols(polymod);
    for i := 0 to 6
      invariant checksum == ChecksumSymbols(polymod)[..i]
    {
      ChecksumAt(polymod, i);
      checksum := checksum + [Symbol(DownShift(polymod, 5 * (5 - i)))];
    }
    var combined := data + checksum;
    assert combined == data + Checksum(BECH32M_CONST, hrp, data);
    ret := hrp + "1";
    for i := 0 to |combined|
      invariant ret == hrp + "1" + Chars(combined)[..i]
    {
      ret := ret + [CHARSET[combined[i]]];
    }
    assert Chars(combined)[..|combined|] == Chars(combined);
  }

  /** EncodeBech32m never fails: padded regrouping always succeeds. */
  method Encode(hrp: string, program: Bytes) returns (r: Result<string>)
    requires Ascii(hrp)
    ensures r == Ok(EncodeBech32m(hrp, program))
  {
    hide Print, ConvertBits.Regroup;
    ConvertBits.BytesFit(program);
    ConvertBits.BytesRoundTrip(program);
    var conv := ConvertBits.Convert(program, 8, 5, true);
    if conv.None? {
      return Err;
    }
    assert conv.value == ProgramSymbols(program);
    var addr := Bech32mEncode(hrp, [1] + conv.value);
    return Ok(addr);
  }

  lemma {:induction false} SeparatorMissing(addr: string)
    requires forall k :: 0 <= k < |addr| ==> addr[k] != '1'
    ensures Separator(addr) == -1
  {
  }

  /** The search for the last '1', from the end. */
  method FindSeparator(addr: string) returns (sep: int)
    ensures sep == Separator(addr)
  {
    sep := -1;
    var i := |addr| - 1;
    while i >= 0
      invariant -1 <= i < |addr|
      invariant forall k :: i < k < |addr| ==> addr[k] != '1'
    {
      if addr[i] == '1' {
        SeparatorIs(addr, i);
        return i;
      }
      i := i - 1;
    }
    SeparatorMissing(addr);
  }

  /** The position of a character in the character set, or -1. */
  method FindChar(c: char) returns (idx: int)
    ensures idx == -1 ==> IndexFrom(c, 0).None?
    ensures idx != -1 ==> IndexFrom(c, 0) == Some(idx)
  {
    for j := 0 to |CHARSET|
      invariant IndexFrom(c, 0) == IndexFrom(c, j)
    {
      if CHARSET[j] == c {
        return j;
      }
    }
    return -1;
  }

  /** The character loop of DecodeBech32, up to the first character outside the set. */
  method FindChars(part: string) returns (r: Option<Bytes>)
    ensures r == Indices(part)
  {
    hide IndexFrom;
    var data: Bytes := [];
    for i := 0 to |part|
      invariant |data| == i
      invariant forall k :: 0 <= k < i ==> IndexFrom(part[k], 0) == Some(data[k])
    {
      var idx := FindChar(part[i]);
      if idx == -1 {
        return None;
      }
      data := data + [idx];
    }
    assert Indices(part).Some?;
    assert data == Indices(part).value;
    return Some(data);
  }

  method DecodeBech32(addr: string) returns (r: Result<(byte, Bytes)>)
    requires Ascii(addr)
    ensures r == Parse(addr)
  {
    hide PolymodFrom, HrpExpand, ConvertBits.Regroup, Indices, Separator;
    var sep := FindSeparator(addr);
    if sep == -1 {
      return Err;
    }
    var hrp, part := addr[..sep], addr[sep + 1..];
    if |part| < 6 {
      return Err;
    }
    var found := FindChars(part);
    if found.None? {
      return Err;
    }
    var data := found.value;
    var expanded := ExpandPrefix(hrp);
    var polymod := Compute(expanded + data);
    if polymod != BECH32_CONST && polymod != BECH32M_CONST {
      return Err;
    }
    var stripped := data[..|data| - 6];
    if |stripped| < 1 {
      return Err;
    }
    assert ConvertBits.Fits(stripped[1..], 5) by { Pow2Small(); }
    assert stripped[1..] == data[1..|data| - 6];
    var program := ConvertBits.Convert(stripped[1..], 5, 8, false);
    if program.None? {
      return Err;
    }
    return Ok((stripped[0], program.value));
  }

  method AddressToScript(addr: string) returns (r: Result<Bytes>)
    requires Ascii(addr)
    ensures r == AddressToOutputScript(addr)
  {
    var decoded := DecodeBech32(addr);
    if decoded.Err? {
      return Err;
    }
    var (version, program) := decoded.value;
    var opVersion := if version == 0 then 0 else (0x50 + version) % 256;
    var out: Bytes := [];
    out := out + [opVersion, |program| % 256];
    out := out + program;
    assert [] + [opVersion, |program| % 256] + program == [opVersion, |program| % 256] + program;
    return Ok(out);
  }
}
