/**
 The frame header codec of `websocketpp/frame.hpp` (section 5.2 of RFC 6455). A
 header is two fixed bytes and up to twelve more: an extended payload size in network
 byte order and a four-byte masking key.
 */
module FrameHeader {

  type Byte = bv8

  const PAYLOAD_SIZE_BASIC: bv64 := 125
  const PAYLOAD_SIZE_EXTENDED: bv64 := 0xFFFF
  const CODE_16BIT: bv8 := 0x7E
  const CODE_64BIT: bv8 := 0x7F

  datatype BasicHeader = BasicHeader(b0: bv8, b1: bv8)

  datatype Fields = Fields(op: bv8, size: bv64, fin: bool, mask: bool, rsv1: bool, rsv2: bool, rsv3: bool)

  // ---------- Writing ----------

  function Flag(b: bool, bit: bv8): bv8 {
    if b then bit else 0
  }

  function SizeCode(size: bv64): bv8 {
    if size <= PAYLOAD_SIZE_BASIC then size as bv8
    else if size <= PAYLOAD_SIZE_EXTENDED then CODE_16BIT
    else CODE_64BIT
  }

  /** The `basic_header` constructor. */
  function MakeBasic(f: Fields): BasicHeader {
    BasicHeader(
      Flag(f.fin, 0x80) | Flag(f.rsv1, 0x40) | Flag(f.rsv2, 0x20) | Flag(f.rsv3, 0x10) | (f.op & 0x0F),
      Flag(f.mask, 0x80) | SizeCode(f.size))
  }

  /** `_htonll(size)` in memory. */
  function NetworkBytes(size: bv64): (s: seq<Byte>)
    ensures |s| == 8
  {
    [((size >> 56) & 0xFF) as bv8, ((size >> 48) & 0xFF) as bv8, ((size >> 40) & 0xFF) as bv8, ((size >> 32) & 0xFF) as bv8,
     ((size >> 24) & 0xFF) as bv8, ((size >> 16) & 0xFF) as bv8, ((size >> 8) & 0xFF) as bv8, (size & 0xFF) as bv8]
  }

  /** `copy_payload`: where in the eight network bytes the copied part starts. */
  function PayloadOffset(size: bv64): (o: nat)
    ensures o <= 8
  {
    if size <= PAYLOAD_SIZE_BASIC then 8 else if size <= PAYLOAD_SIZE_EXTENDED then 6 else 0
  }

  /** `std::copy` into a zero-filled twelve-byte buffer. */
  function Filled(s: seq<Byte>): (e: seq<Byte>)
    requires |s| <= 12
    ensures |e| == 12 && s <= e
  {
    s + seq(12 - |s|, _ => 0)
  }

  /** The `extended_header` constructors, without and with a key. `key` is the key's four bytes in memory. */
  function MakeExtended(size: bv64): (e: seq<Byte>)
    ensures |e| == 12
  {
    Filled(NetworkBytes(size)[PayloadOffset(size)..])
  }

  function MakeExtendedWithKey(size: bv64, key: seq<Byte>): (e: seq<Byte>)
    requires |key| == 4
    ensures |e| == 12
  {
    Filled(NetworkBytes(size)[PayloadOffset(size)..] + key)
  }

  // ---------- Reading ----------

  function GetFin(h: BasicHeader): bool { h.b0 & 0x80 == 0x80 }
  function GetRsv1(h: BasicHeader): bool { h.b0 & 0x40 == 0x40 }
  function GetRsv2(h: BasicHeader): bool { h.b0 & 0x20 == 0x20 }
  function GetRsv3(h: BasicHeader): bool { h.b0 & 0x10 == 0x10 }
  function GetOpcode(h: BasicHeader): bv8 { h.b0 & 0x0F }
  function GetMasked(h: BasicHeader): bool { h.b1 & 0x80 == 0x80 }
  function GetBasicSize(h: BasicHeader): bv8 { h.b1 & 0x7F }

  function GetMaskingKeyOffset(h: BasicHeader): (o: nat)
    ensures o <= 8
  {
    if GetBasicSize(h) == CODE_16BIT then 2 else if GetBasicSize(h) == CODE_64BIT then 8 else 0
  }

  function GetHeaderLen(h: BasicHeader): (n: nat)
    ensures 2 <= n <= 14
  {
    2 + GetMaskingKeyOffset(h) + if GetMasked(h) then 4 else 0
  }

  /** `ntohs` and `_ntohll` of the first bytes. */
  function GetExtendedSize(e: seq<Byte>): bv64
    requires |e| == 12
  {
    ((e[0] as bv64) << 8) | (e[1] as bv64)
  }

  function GetJumboSize(e: seq<Byte>): bv64
    requires |e| == 12
  {
    ((e[0] as bv64) << 56) | ((e[1] as bv64) << 48) | ((e[2] as bv64) << 40) | ((e[3] as bv64) << 32)
    | ((e[4] as bv64) << 24) | ((e[5] as bv64) << 16) | ((e[6] as bv64) << 8) | (e[7] as bv64)
  }

  function GetPayloadSize(h: BasicHeader, e: seq<Byte>): bv64
    requires |e| == 12
  {
    var val := GetBasicSize(h);
    if val <= 125 then val as bv64 else if val == CODE_16BIT then GetExtendedSize(e) else GetJumboSize(e)
  }

  function GetMaskingKey(h: BasicHeader, e: seq<Byte>): (k: seq<Byte>)
    requires |e| == 12
    ensures |k| == 4
  {
    if !GetMasked(h) then [0, 0, 0, 0]
    else e[GetMaskingKeyOffset(h)..GetMaskingKeyOffset(h) + 4]
  }

  /** `prepare_header`: the bytes put on the wire. */
  function PrepareHeader(h: BasicHeader, e: seq<Byte>): (s: seq<Byte>)
    requires |e| == 12
  {
    [h.b0, h.b1] + e[..GetHeaderLen(h) - 2]
  }

  // ---------- What reading gives back ----------

  lemma FirstByte(f: Fields)
    requires f.op <= 0x0F
    ensures var h := MakeBasic(f);
      && GetFin(h) == f.fin && GetRsv1(h) == f.rsv1 && GetRsv2(h) == f.rsv2 && GetRsv3(h) == f.rsv3
      && GetOpcode(h) == f.op
  {}

  lemma SecondByte(f: Fields)
    ensures var h := MakeBasic(f); GetMasked(h) == f.mask && GetBasicSize(h) == SizeCode(f.size)
  {}

  lemma JumboBytes(size: bv64)
    ensures GetJumboSize(Filled(NetworkBytes(size))) == size
  {}

  lemma ExtendedBytes(size: bv64)
    requires size <= PAYLOAD_SIZE_EXTENDED
    ensures GetExtendedSize(Filled(NetworkBytes(size)[6..])) == size
  {}

  lemma SmallSize(size: bv64)
    requires size <= PAYLOAD_SIZE_BASIC
    ensures SizeCode(size) <= 125 && SizeCode(size) as bv64 == size
  {}

  /** The size code says how many size bytes follow. */
  lemma OffsetOfCode(f: Fields)
    ensures GetMaskingKeyOffset(MakeBasic(f)) == 8 - PayloadOffset(f.size)
  {
    SecondByte(f);
    if f.size <= PAYLOAD_SIZE_BASIC { SmallSize(f.size); }
  }

  lemma JumboPrefix(e: seq<Byte>, d: seq<Byte>)
    requires |e| == |d| == 12 && e[..8] == d[..8]
    ensures GetJumboSize(e) == GetJumboSize(d)
  {
    assert forall i :: 0 <= i < 8 ==> e[i] == e[..8][i] && d[i] == d[..8][i];
  }

  lemma JumboReadBack(size: bv64, e: seq<Byte>)
    requires |e| == 12 && NetworkBytes(size) <= e
    ensures GetJumboSize(e) == size
  {
    JumboBytes(size);
    JumboPrefix(e, Filled(NetworkBytes(size)));
  }

  lemma ExtendedReadBack(size: bv64, e: seq<Byte>)
    requires |e| == 12 && size <= PAYLOAD_SIZE_EXTENDED && NetworkBytes(size)[6..] <= e
    ensures GetExtendedSize(e) == size
  {
    ExtendedBytes(size);
    var d := Filled(NetworkBytes(size)[6..]);
    assert e[0] == d[0] && e[1] == d[1];
  }

  /** The size field, read back from any buffer that starts with the copied bytes. */
  lemma SizeReadBack(f: Fields, e: seq<Byte>)
    requires |e| == 12 && NetworkBytes(f.size)[PayloadOffset(f.size)..] <= e
    ensures GetPayloadSize(MakeBasic(f), e) == f.size
  {
    var size := f.size;
    SecondByte(f);
    if size <= PAYLOAD_SIZE_BASIC {
      SmallSize(size);
    } else if size <= PAYLOAD_SIZE_EXTENDED {
      ExtendedReadBack(size, e);
    } else {
      assert NetworkBytes(size)[0..] == NetworkBytes(size);
      JumboReadBack(size, e);
    }
  }

  lemma KeyReadBack(f: Fields, key: seq<Byte>, e: seq<Byte>)
    requires |key| == 4 && |e| == 12 && f.mask
    requires NetworkBytes(f.size)[PayloadOffset(f.size)..] + key <= e
    ensures GetMaskingKey(MakeBasic(f), e) == key
  {
    SecondByte(f);
    OffsetOfCode(f);
    var part := NetworkBytes(f.size)[PayloadOffset(f.size)..];
    assert e[|part|..|part| + 4] == (part + key)[|part|..] == key;
  }

  /** Every getter returns what the constructors were given, for every 64-bit size. */
  lemma HeaderRoundTrip(f: Fields, key: seq<Byte>)
    requires |key| == 4 && f.op <= 0x0F
    ensures var h := MakeBasic(f);
      && GetFin(h) == f.fin && GetRsv1(h) == f.rsv1 && GetRsv2(h) == f.rsv2 && GetRsv3(h) == f.rsv3
      && GetOpcode(h) == f.op && GetMasked(h) == f.mask
      && GetPayloadSize(h, MakeExtended(f.size)) == f.size
      && GetPayloadSize(h, MakeExtendedWithKey(f.size, key)) == f.size
      && GetMaskingKey(h, MakeExtendedWithKey(f.size, key)) == if f.mask then key else [0, 0, 0, 0]
  {
    FirstByte(f);
    SecondByte(f);
    SizeReadBack(f, MakeExtended(f.size));
    SizeReadBack(f, MakeExtendedWithKey(f.size, key));
    if f.mask {
      KeyReadBack(f, key, MakeExtendedWithKey(f.size, key));
    }
  }

  lemma ExtendedIsShort(e: seq<Byte>)
    requires |e| == 12
    ensures GetExtendedSize(e) <= PAYLOAD_SIZE_EXTENDED
  {}

  /** No header whatever, however its bytes are chosen, states the same size in fewer bytes. */
  lemma ShortestForm(f: Fields, h: BasicHeader, e: seq<Byte>)
    requires |e| == 12 && GetPayloadSize(h, e) == f.size
    ensures GetMaskingKeyOffset(MakeBasic(f)) <= GetMaskingKeyOffset(h)
  {
    OffsetOfCode(f);
    ExtendedIsShort(e);
    SmallCode(h);
  }

  lemma SmallCode(h: BasicHeader)
    ensures GetBasicSize(h) <= 125 ==> GetBasicSize(h) as bv64 <= PAYLOAD_SIZE_BASIC
    ensures GetBasicSize(h) <= 125 || GetBasicSize(h) == CODE_16BIT || GetBasicSize(h) == CODE_64BIT
  {}

  /** What a reader makes of a byte stream: the first two bytes fix the length of the header. */
  function ReadHeader(s: seq<Byte>): (r: (BasicHeader, seq<Byte>, nat))
    requires |s| >= 2 && |s| >= GetHeaderLen(BasicHeader(s[0], s[1]))
    ensures |r.1| == 12
  {
    var h := BasicHeader(s[0], s[1]);
    (h, Filled(s[2..GetHeaderLen(h)]), GetHeaderLen(h))
  }

  /** A header on the wire, followed by anything, is read back with its own length, size and key. */
  lemma WireRoundTrip(f: Fields, key: seq<Byte>, rest: seq<Byte>)
    requires |key| == 4 && f.op <= 0x0F
    ensures var h := MakeBasic(f);
      var e := if f.mask then MakeExtendedWithKey(f.size, key) else MakeExtended(f.size);
      var s := PrepareHeader(h, e);
      && |s| == GetHeaderLen(h)
      && var (h', e', n) := ReadHeader(s + rest);
      && h' == h && n == |s|
      && GetPayloadSize(h', e') == f.size
      && GetMaskingKey(h', e') == if f.mask then key else [0, 0, 0, 0]
  {
    var h := MakeBasic(f);
    var part := NetworkBytes(f.size)[PayloadOffset(f.size)..];
    var all := part + if f.mask then key else [];
    var e := if f.mask then MakeExtendedWithKey(f.size, key) else MakeExtended(f.size);
    SecondByte(f);
    OffsetOfCode(f);
    assert all <= e && |all| == GetHeaderLen(h) - 2;
    var s := PrepareHeader(h, e);
    assert (s + rest)[2..GetHeaderLen(h)] == all;
    SizeReadBack(f, Filled(all));
    if f.mask { KeyReadBack(f, key, Filled(all)); }
  }

  // ---------- The format on the wire, byte by byte ----------

  /** The number that up to eight bytes stand for in base 256, the most significant first. */
  function BigEndian(s: seq<Byte>): bv64 {
    if s == [] then 0 else BigEndian(s[..|s| - 1]) * 256 + s[|s| - 1] as bv64
  }

  lemma OneMoreByte(s: seq<Byte>, n: nat, next: nat)
    requires n < |s| && next == n + 1
    ensures BigEndian(s[..next]) == BigEndian(s[..n]) * 256 + s[n] as bv64
  {
    assert s[..next][..n] == s[..n];
  }

  lemma TwoDigits(a: bv64, b: bv64)
    requires a < 256 && b < 256
    ensures a * 256 + b == (a << 8) | b
  {}

  lemma ExtendedIsBigEndian(e: seq<Byte>)
    requires |e| == 12
    ensures GetExtendedSize(e) == BigEndian(e[..2])
  {
    OneMoreByte(e, 0, 1);
    OneMoreByte(e, 1, 2);
    TwoDigits(e[0] as bv64, e[1] as bv64);
  }

  lemma JumboIsBigEndian(e: seq<Byte>)
    requires |e| == 12
    ensures GetJumboSize(e) == BigEndian(e[..8])
  {
    OneMoreByte(e, 0, 1);
    OneMoreByte(e, 1, 2);
    OneMoreByte(e, 2, 3);
    OneMoreByte(e, 3, 4);
    OneMoreByte(e, 4, 5);
    OneMoreByte(e, 5, 6);
    OneMoreByte(e, 6, 7);
    OneMoreByte(e, 7, 8);
    EightDigits(e[0], e[1], e[2], e[3], e[4], e[5], e[6], e[7]);
  }

  lemma EightDigits(a: bv8, b: bv8, c: bv8, d: bv8, e: bv8, f: bv8, g: bv8, h: bv8)
    ensures (((((((a as bv64 * 256 + b as bv64) * 256 + c as bv64) * 256 + d as bv64) * 256 + e as bv64) * 256
              + f as bv64) * 256 + g as bv64) * 256 + h as bv64)
         == ((a as bv64) << 56) | ((b as bv64) << 48) | ((c as bv64) << 40) | ((d as bv64) << 32)
            | ((e as bv64) << 24) | ((f as bv64) << 16) | ((g as bv64) << 8) | (h as bv64)
  {}

  lemma MaskIsTopBit(b: bv8)
    ensures b & 0x80 == 0x80 <==> b >= 0x80
  {}

  /** The first two bytes fix the length: two, then the size bytes, then the key. */
  lemma HeaderLength(h: BasicHeader)
    ensures GetHeaderLen(h) ==
      2 + (if h.b1 & 0x7F == 126 then 2 else if h.b1 & 0x7F == 127 then 8 else 0) + if h.b1 >= 0x80 then 4 else 0
  {
    MaskIsTopBit(h.b1);
  }

  /** The size that any header states: a small one itself, else two or eight bytes in network byte order. */
  lemma SizeFormat(h: BasicHeader, e: seq<Byte>)
    requires |e| == 12
    ensures var code := h.b1 & 0x7F;
      GetPayloadSize(h, e) ==
        if code <= 125 then code as bv64 else if code == 126 then BigEndian(e[..2]) else BigEndian(e[..8])
  {
    ExtendedIsBigEndian(e);
    JumboIsBigEndian(e);
  }

  function Wire(f: Fields, key: seq<Byte>): (s: seq<Byte>)
    requires |key| == 4
  {
    PrepareHeader(MakeBasic(f), if f.mask then MakeExtendedWithKey(f.size, key) else MakeExtended(f.size))
  }

  /** The two fixed bytes as sums of flag bits, opcode and size code. */
  ghost predicate FixedAre(f: Fields, b0: Byte, b1: Byte) {
    && b0 == (if f.fin then 0x80 else 0) + (if f.rsv1 then 0x40 else 0) + (if f.rsv2 then 0x20 else 0)
             + (if f.rsv3 then 0x10 else 0) + f.op
    && b1 == (if f.mask then 0x80 else 0)
             + (if f.size <= 125 then f.size as bv8 else if f.size <= 0xFFFF then 126 else 127)
  }

  lemma FixedBytes(f: Fields)
    requires f.op <= 0x0F
    ensures FixedAre(f, MakeBasic(f).b0, MakeBasic(f).b1)
  {
    SecondSum(f.mask, SizeCode(f.size));
  }

  lemma SecondSum(mask: bool, code: bv8)
    requires code <= 127
    ensures Flag(mask, 0x80) | code == (if mask then 0x80 else 0) + code
  {}

  /** The size bytes are the size in base 256. */
  lemma SizeBytes(size: bv64)
    ensures size <= 0xFFFF ==> BigEndian(NetworkBytes(size)[6..]) == size
    ensures BigEndian(NetworkBytes(size)) == size
  {
    var n := NetworkBytes(size);
    if size <= 0xFFFF {
      ExtendedBytes(size);
      ExtendedIsBigEndian(Filled(n[6..]));
      assert Filled(n[6..])[..2] == n[6..];
    }
    JumboBytes(size);
    JumboIsBigEndian(Filled(n));
    assert Filled(n)[..8] == n;
  }

  /** None, two or eight bytes for the size. */
  function SizeDigits(size: bv64): nat {
    if size <= 125 then 0 else if size <= 0xFFFF then 2 else 8
  }

  function SizePart(size: bv64): (part: seq<Byte>) {
    NetworkBytes(size)[PayloadOffset(size)..]
  }

  /** The size bytes, told by their number. */
  lemma SizeField(size: bv64)
    ensures |SizePart(size)| == SizeDigits(size) && (SizeDigits(size) > 0 ==> BigEndian(SizePart(size)) == size)
  {
    SizeBytes(size);
    if size > 0xFFFF { assert SizePart(size) == NetworkBytes(size); }
  }

  /** Where the parts of a header stand. */
  lemma Layout(s: seq<Byte>, b0: Byte, b1: Byte, part: seq<Byte>, tail: seq<Byte>, n: nat, end: nat)
    requires s == [b0, b1] + part + tail && n == |part| && end == 2 + n
    ensures |s| == end + |tail| && s[0] == b0 && s[1] == b1 && s[2..end] == part && s[end..] == tail
  {}

  lemma FilledBytes(h: BasicHeader, all: seq<Byte>)
    requires |all| <= 12 && GetHeaderLen(h) == 2 + |all|
    ensures PrepareHeader(h, Filled(all)) == [h.b0, h.b1] + all
  {
    assert Filled(all)[..|all|] == all;
  }

  lemma LengthOf(f: Fields)
    ensures GetHeaderLen(MakeBasic(f)) == 2 + (8 - PayloadOffset(f.size)) + if f.mask then 4 else 0
  {
    SecondByte(f);
    OffsetOfCode(f);
  }

  lemma WireBytes(f: Fields, key: seq<Byte>)
    requires |key| == 4
    ensures Wire(f, key) == [MakeBasic(f).b0, MakeBasic(f).b1] + SizePart(f.size) + if f.mask then key else []
  {
    var h, part, tail := MakeBasic(f), SizePart(f.size), if f.mask then key else [];
    LengthOf(f);
    FilledBytes(h, part + tail);
    if !f.mask { assert part + tail == part; }
    assert [h.b0, h.b1] + (part + tail) == [h.b0, h.b1] + part + tail;
  }

  /** The bytes of a header with `n` bytes for the size. */
  ghost predicate Formatted(s: seq<Byte>, f: Fields, key: seq<Byte>, n: nat) {
    && |s| == 2 + n + (if f.mask then 4 else 0) && FixedAre(f, s[0], s[1])
    && (n > 0 ==> BigEndian(s[2..2 + n]) == f.size) && (f.mask ==> s[2 + n..] == key)
  }

  lemma Assembled(s: seq<Byte>, f: Fields, key: seq<Byte>, b0: Byte, b1: Byte, part: seq<Byte>, tail: seq<Byte>, n: nat)
    requires |key| == 4 && s == [b0, b1] + part + tail && tail == (if f.mask then key else []) && |part| == n
    requires FixedAre(f, b0, b1) && (n > 0 ==> BigEndian(part) == f.size)
    ensures Formatted(s, f, key, n)
  {
    Layout(s, b0, b1, part, tail, n, 2 + n);
  }

  /**
   Every byte of a header on the wire: the flag bits and the opcode, the mask bit and the
   size code, the size in network byte order in none, two or eight bytes, the key if there
   is one, and nothing more (section 5.2 of RFC 6455).
   */
  lemma WireFormat(f: Fields, key: seq<Byte>)
    requires |key| == 4 && f.op <= 0x0F
    ensures Formatted(Wire(f, key), f, key, SizeDigits(f.size))
  {
    SizeField(f.size);
    WireBytes(f, key);
    FixedBytes(f);
    Assembled(Wire(f, key), f, key, MakeBasic(f).b0, MakeBasic(f).b1, SizePart(f.size), if f.mask then key else [],
              SizeDigits(f.size));
  }

  // ---------- Setters ----------

  function SetBit(b: bv8, bit: bv8, value: bool): bv8 {
    if value then b | bit else b & !bit
  }

  /** `set_fin` .. `set_masked`: the bit reads back as set, and no other bit moves. */
  lemma SetterLaws(b: bv8, v: bool)
    ensures var r := SetBit(b, 0x80, v); (r & 0x80 == 0x80) == v && r & 0x7F == b & 0x7F
    ensures var r := SetBit(b, 0x40, v); (r & 0x40 == 0x40) == v && r & 0xBF == b & 0xBF
    ensures var r := SetBit(b, 0x20, v); (r & 0x20 == 0x20) == v && r & 0xDF == b & 0xDF
    ensures var r := SetBit(b, 0x10, v); (r & 0x10 == 0x10) == v && r & 0xEF == b & 0xEF
  {}
}
