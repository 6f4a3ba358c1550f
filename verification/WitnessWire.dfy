/** Witness stacks on the wire (pkg/escrow/swap/tx.go) and a reader of that form
    ('Specification' of BIP 144). */
module WitnessWire {
  import opened Basics
  import opened Tokenizer

  /** The low `count` bytes of a number, lowest first. */
  function LowBytes(n: nat, count: nat): (b: Bytes)
    ensures |b| == count
  {
    if count == 0 then [] else [n % 256] + LowBytes(n / 256, count - 1)
  }

  /** compactSizeEncode */
  function CompactSize(n: uint64): Bytes {
    if n < 0xfd then [n]
    else if n <= 0xffff then [0xfd] + LowBytes(n, 2)
    else if n <= 0xffff_ffff then [0xfe] + LowBytes(n, 4)
    else [0xff] + LowBytes(n, 8)
  }

  lemma LowStep(n: nat, count: nat)
    requires count > 0
    ensures LowBytes(n, count) == [n % 256] + LowBytes(n / 256, count - 1)
  {
  }

  lemma LowZeros()
    ensures LowBytes(0, 0) == [] && LowBytes(0, 1) == [0] && LowBytes(0, 3) == [0, 0, 0]
  {
    hide LowBytes;
    LowStep(0, 3);
    LowStep(0, 2);
    LowStep(0, 1);
  }

  lemma LowTwo()
    ensures LowBytes(0xfd, 2) == [0xfd, 0] && LowBytes(0xff12, 2) == [0x12, 0xff]
  {
    hide LowBytes;
    LowZeros();
    LowStep(0xfd, 2);
    LowStep(0xff12, 2);
    LowStep(0xff, 1);
  }

  lemma LowFour()
    ensures LowBytes(0x1_0000, 4) == [0, 0, 1, 0]
  {
    hide LowBytes;
    LowZeros();
    LowStep(0x1_0000, 4);
    LowStep(0x100, 3);
    LowStep(1, 2);
  }

  lemma LowEight()
    ensures LowBytes(0x1_0000_0000, 8) == [0, 0, 0, 0, 1, 0, 0, 0]
  {
    hide LowBytes;
    LowZeros();
    LowStep(0x1_0000_0000, 8);
    LowStep(0x100_0000, 7);
    LowStep(0x1_0000, 6);
    LowStep(0x100, 5);
    LowStep(1, 4);
  }

  /** The four forms byte by byte. */
  lemma CompactSizeBytes()
    ensures CompactSize(0) == [0] && CompactSize(252) == [252]
    ensures CompactSize(253) == [0xfd, 253, 0] && CompactSize(0xff12) == [0xfd, 0x12, 0xff]
    ensures CompactSize(0x1_0000) == [0xfe, 0, 0, 1, 0]
    ensures CompactSize(0x1_0000_0000) == [0xff, 0, 0, 0, 0, 1, 0, 0, 0]
  {
    hide LowBytes;
    LowTwo();
    LowFour();
    LowEight();
  }

  /** A length in any of the four forms, shortest or not, and what follows it. */
  function ReadSize(b: Bytes): Option<(nat, Bytes)> {
    if b == [] then None
    else if b[0] < 0xfd then Some((b[0], b[1..]))
    else
      var width := if b[0] == 0xfd then 2 else if b[0] == 0xfe then 4 else 8;
      if |b| < 1 + width then None
      else Some((LittleEndian(b[1..1 + width]), b[1 + width..]))
  }

  /** A witness item: Go's slice lengths are 64-bit integers. */
  type Item = b: Bytes | |b| < 0x1_0000_0000_0000_0000

  function WriteItems(items: seq<Item>): Bytes {
    if items == [] then [] else CompactSize(|items[0]|) + items[0] + WriteItems(items[1..])
  }

  /** serializeWitness: the count is a single byte, whatever the number of items. */
  function Serialize(items: seq<Item>): Bytes {
    [|items| % 256] + WriteItems(items)
  }

  method SerializeWitness(items: seq<Item>) returns (buf: Bytes)
    ensures buf == Serialize(items)
  {
    hide CompactSize, WriteItems;
    buf := [];
    buf := buf + [|items| % 256];
    assert items[0..] == items;
    for i := 0 to |items|
      invariant buf + WriteItems(items[i..]) == Serialize(items)
    {
      WriteStep(buf, items, i);
      buf := buf + CompactSize(|items[i]|);
      buf := buf + items[i];
    }
    WriteNothing(buf, items[|items|..]);
  }

  lemma WriteStep(buf: Bytes, items: seq<Item>, i: nat)
    requires i < |items|
    ensures buf + WriteItems(items[i..]) == buf + CompactSize(|items[i]|) + items[i] + WriteItems(items[i + 1..])
  {
    hide CompactSize;
    assert items[i..][1..] == items[i + 1..];
    var more := WriteItems(items[i + 1..]);
    assert buf + (CompactSize(|items[i]|) + items[i] + more) == buf + CompactSize(|items[i]|) + items[i] + more;
  }

  lemma WriteNothing(buf: Bytes, items: seq<Item>)
    requires items == []
    ensures buf + WriteItems(items) == buf
  {
  }

  function ReadItems(count: nat, b: Bytes): Option<(seq<Bytes>, Bytes)> {
    if count == 0 then Some(([], b))
    else
      match ReadSize(b)
      case None => None
      case Some((size, rest)) =>
        if |rest| < size then None
        else
          match ReadItems(count - 1, rest[size..])
          case None => None
          case Some((items, rest')) => Some(([rest[..size]] + items, rest'))
  }

  /** The whole text has to be one witness. */
  function ReadWitness(b: Bytes): Option<seq<Bytes>> {
    match ReadSize(b)
    case None => None
    case Some((count, rest)) =>
      match ReadItems(count, rest)
      case None => None
      case Some((items, rest')) => if rest' == [] then Some(items) else None
  }

  // ------------------------------------------------------------ lengths

  lemma {:induction false} LowBytesValue(n: nat, count: nat)
    requires n < Pow2(8 * count)
    ensures LittleEndian(LowBytes(n, count)) == n
  {
    if count > 0 {
      Pow2Small();
      Pow2Add(8, 8 * (count - 1));
      assert 8 * count == 8 + 8 * (count - 1);
      LowBytesValue(n / 256, count - 1);
      assert LowBytes(n, count)[1..] == LowBytes(n / 256, count - 1);
    }
  }

  lemma Pow2Bytes()
    ensures Pow2(8 * 2) == 0x1_0000 && Pow2(8 * 4) == 0x1_0000_0000 && Pow2(8 * 8) == 0x1_0000_0000_0000_0000
  {
    Pow2Small();
    Pow2Add(8, 8);
    Pow2Add(16, 16);
    Pow2Add(32, 32);
  }

  lemma {:induction false} LittleEndianBound(b: Bytes)
    ensures LittleEndian(b) < Pow2(8 * |b|)
  {
    if b != [] {
      Pow2Small();
      Pow2Add(8, 8 * (|b| - 1));
      assert 8 * |b| == 8 + 8 * (|b| - 1);
      LittleEndianBound(b[1..]);
    }
  }

  lemma ReadWritten(n: uint64, rest: Bytes)
    ensures ReadSize(CompactSize(n) + rest) == Some((n, rest))
  {
    hide Pow2;
    Pow2Bytes();
    var count := if n < 0xfd then 0 else if n <= 0xffff then 2 else if n <= 0xffff_ffff then 4 else 8;
    var b := CompactSize(n) + rest;
    if count > 0 {
      LowBytesValue(n, count);
      assert b[1..1 + count] == LowBytes(n, count);
    }
    assert b[1 + count..] == rest;
  }

  /** compactSizeEncode gives the shortest of all forms that read as the same length. */
  lemma CompactSizeIsShortest(b: Bytes)
    requires ReadSize(b).Some?
    ensures ReadSize(b).value.0 < 0x1_0000_0000_0000_0000
    ensures |CompactSize(ReadSize(b).value.0)| <= |b| - |ReadSize(b).value.1|
  {
    hide Pow2;
    Pow2Bytes();
    if b[0] >= 0xfd {
      var width := if b[0] == 0xfd then 2 else if b[0] == 0xfe then 4 else 8;
      LittleEndianBound(b[1..1 + width]);
    }
  }

  // ------------------------------------------------------------ items

  lemma {:induction false} ReadWrittenItems(items: seq<Item>, more: Bytes)
    ensures ReadItems(|items|, WriteItems(items) + more) == Some((items, more))
  {
    hide ReadSize, CompactSize;
    if items == [] {
      assert WriteItems(items) + more == more;
    } else {
      var tail := items[0] + (WriteItems(items[1..]) + more);
      assert WriteItems(items) + more == CompactSize(|items[0]|) + tail;
      ReadWritten(|items[0]|, tail);
      assert tail[..|items[0]|] == items[0] && tail[|items[0]|..] == WriteItems(items[1..]) + more;
      ReadWrittenItems(items[1..], more);
      assert [items[0]] + items[1..] == items;
    }
  }

  /** No reading of the same items takes fewer bytes than writing them. */
  lemma {:induction false} ReadTakesAtLeast(count: nat, b: Bytes)
    requires ReadItems(count, b).Some?
    ensures var (items, rest) := ReadItems(count, b).value;
            && |items| == count
            && (forall item :: item in items ==> |item| < 0x1_0000_0000_0000_0000)
            && |WriteItems(items)| + |rest| <= |b|
  {
    hide ReadSize, CompactSize;
    if count > 0 {
      var (size, rest) := ReadSize(b).value;
      CompactSizeIsShortest(b);
      ReadTakesAtLeast(count - 1, rest[size..]);
      var (items', rest') := ReadItems(count - 1, rest[size..]).value;
      var items := [rest[..size]] + items';
      assert items[1..] == items';
    }
  }

  /** Reading what serializeWitness wrote gives the items back exactly up to 252 of them: beyond
      that the count byte is a prefix of a longer form, or wrong. */
  lemma WireRoundTrip(items: seq<Item>)
    ensures ReadWitness(Serialize(items)) == Some(items) <==> |items| <= 252
  {
    hide WriteItems, ReadItems;
    var body := WriteItems(items);
    var b := Serialize(items);
    assert b[1..] == body;
    if |items| <= 252 {
      assert WriteItems(items) + [] == body;
      ReadWrittenItems(items, []);
    } else if ReadSize(b).Some? {
      var (count, rest) := ReadSize(b).value;
      if ReadItems(count, rest).Some? {
        ReadTakesAtLeast(count, rest);
      }
    }
  }

  /** Two different stacks of up to 252 items never have the same text. */
  lemma SerializeIsInjective(a: seq<Item>, b: seq<Item>)
    requires |a| <= 252 && |b| <= 252
    ensures Serialize(a) == Serialize(b) <==> a == b
  {
    WireRoundTrip(a);
    WireRoundTrip(b);
  }
}
