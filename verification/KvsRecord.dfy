/** Layout of one record of the host key-value file. The header is the 32-byte struct line_info of an
    LP64 little-endian host: magic 0-1, kvs_type 2, padding 3-7, nval 8-15, key 16-30, padding 31.
    A string or blob record continues with blob_size payload bytes. */
module KvsRecord {
  import opened Bytes
  import opened KvsMap

  const HDR := 32
  const MAX_KEY_LEN := 14
  const TYPE_STR: byte := 0x21
  const TYPE_BLOB: byte := 0x42
  const TYPE_ANY: byte := 0xff
  const MAX_WASTE := 1000

  // a header, or a whole record, whose front is the header
  type LineInfo = h: seq<byte> | |h| >= 32 witness Zeros(32)

  function U16(lo: byte, hi: byte): int { lo + 256 * hi }

  function KvsType(h: LineInfo): byte { h[2] }
  function BlobLen(h: LineInfo): int { U16(h[8], h[9]) }
  function BlobSize(h: LineInfo): int { U16(h[10], h[11]) }
  function KeyField(h: LineInfo): seq<byte> { h[16..31] }
  function KeyOf(h: LineInfo): seq<byte> { CStr(KeyField(h)) }
  predicate MagicOk(h: LineInfo) { U16(h[0], h[1]) == 0xbeef }

  // kvs_type & 0x60
  predicate HasPayload(t: byte) { (t / 32) % 4 != 0 }

  function LiSize(h: LineInfo): int { HDR + if HasPayload(h[2]) then BlobSize(h) else 0 }
  predicate LiTypeInt(h: LineInfo) { !HasPayload(h[2]) && h[2] % 8 != 0 }
  predicate LiIsUsed(h: LineInfo) { h[2] < 128 && h[2] != 0 }
  predicate LiMatchKey(h: LineInfo, key: seq<byte>)
    requires 0 !in key
  {
    LiIsUsed(h) && StrNCmpEq(KeyField(h), key + [0], MAX_KEY_LEN)
  }

  // SET_BIT(li.kvs_type, 7)
  function SetUnused(h: LineInfo): (r: LineInfo) {
    if h[2] < 128 then h[2 := h[2] + 128] else h
  }

  predicate IntType(t: byte) {
    t == 0x01 || t == 0x11 || t == 0x02 || t == 0x12 || t == 0x04 || t == 0x14
  }
  predicate DataType(t: byte) { t == TYPE_STR || t == TYPE_BLOB }

  predicate ValidKey(key: seq<byte>) { |key| <= MAX_KEY_LEN && 0 !in key }

  function PadKey(key: seq<byte>): (r: seq<byte>)
    requires ValidKey(key)
    ensures |r| == 15 && CStr(r) == key
  {
    CStrOfTerminated(key, Zeros(15 - |key|));
    key + Zeros(15 - |key|)
  }

  /** The struct line_info literal that the setters write. */
  function MakeHeader(t: byte, nval: seq<byte>, key: seq<byte>): (h: LineInfo)
    requires |nval| == 8 && ValidKey(key)
    ensures |h| == HDR && MagicOk(h) && KvsType(h) == t && h[8..16] == nval && KeyField(h) == PadKey(key)
    ensures BlobLen(h) == U16(nval[0], nval[1]) && BlobSize(h) == U16(nval[2], nval[3])
  {
    [0xef, 0xbe, t, 0, 0, 0, 0, 0] + nval + PadKey(key) + [0]
  }

  function LenNval(len: int, size: int): (r: seq<byte>)
    requires 0 <= len < 0x10000 && 0 <= size < 0x10000
    ensures |r| == 8 && U16(r[0], r[1]) == len && U16(r[2], r[3]) == size
  {
    [len % 256, len / 256, size % 256, size / 256, 0, 0, 0, 0]
  }

  // ---------------------------------------------------------------- integers

  // number of values of the type: 2^8, 2^16, 2^32
  function Modulus(t: byte): int {
    if t % 16 == 1 then 0x100 else if t % 16 == 2 then 0x1_0000 else 0x1_0000_0000
  }

  predicate InRange(t: byte, v: int) {
    if t >= 16 then -Modulus(t) <= 2 * v < Modulus(t) else 0 <= v < Modulus(t)
  }

  function Le32(u: int): (r: seq<byte>)
    requires 0 <= u < 0x1_0000_0000
    ensures |r| == 8
  {
    [u % 256, u / 0x100 % 256, u / 0x1_0000 % 256, u / 0x100_0000, 0, 0, 0, 0]
  }

  function Of32(b: seq<byte>): (u: int)
    requires |b| == 8
    ensures 0 <= u < 0x1_0000_0000
  {
    U16(b[0], b[1]) + 0x1_0000 * U16(b[2], b[3])
  }

  lemma Le32RoundTrip(u: int)
    requires 0 <= u < 0x1_0000_0000
    ensures Of32(Le32(u)) == u
  {
    var a, b, c := u / 0x100, u / 0x1_0000, u / 0x100_0000;
    assert u == u % 256 + 0x100 * a;
    assert b == a / 256 && a == a % 256 + 0x100 * b;
    assert c == b / 256 && b == b % 256 + 0x100 * c;
  }

  /** The union with its val_ member set: two's complement, little-endian. */
  function EncodeInt(t: byte, v: int): (r: seq<byte>)
    requires InRange(t, v)
    ensures |r| == 8
  {
    Le32(if v < 0 then v + Modulus(t) else v)
  }

  /** Reading the val_ member of the union: only the bytes of its width count. */
  function DecodeInt(t: byte, nval: seq<byte>): (v: int)
    requires |nval| == 8
  {
    var u := Of32(nval) % Modulus(t);
    if t >= 16 && 2 * u >= Modulus(t) then u - Modulus(t) else u
  }

  lemma ModSmall(u: int, m: int)
    requires 0 <= u < m
    ensures u % m == u
  {
  }

  lemma IntRoundTrip(t: byte, v: int)
    requires InRange(t, v)
    ensures DecodeInt(t, EncodeInt(t, v)) == v
  {
    hide Of32, Le32, Modulus;
    var u := if v < 0 then v + Modulus(t) else v;
    ModulusBound(t);
    Le32RoundTrip(u);
    ModSmall(u, Modulus(t));
  }

  /** The bytes of the union are the value in two's complement, least significant byte first. */
  lemma IntBytes(t: byte, v: int)
    requires InRange(t, v)
    ensures var b := EncodeInt(t, v);
            0x100_0000 * (b[3] as int) + 0x1_0000 * (b[2] as int) + 0x100 * (b[1] as int) + b[0] as int
            == v + if v >= 0 then 0 else Modulus(t)
  {
    hide Modulus;
    ModulusBound(t);
    var u := if v < 0 then v + Modulus(t) else v;
    var a, b, c := u / 0x100, u / 0x1_0000, u / 0x100_0000;
    assert u == u % 256 + 0x100 * a;
    assert b == a / 256 && a == a % 256 + 0x100 * b;
    assert c == b / 256 && b == b % 256 + 0x100 * c;
  }

  /** The six integer types: signed ones have bit 4 set, and the low bits are the number of bytes. */
  lemma Ranges(t: byte, v: int)
    requires IntType(t)
    ensures InRange(t, v) <==>
            if t == 0x01 then 0 <= v <= 255 else if t == 0x11 then -128 <= v <= 127
            else if t == 0x02 then 0 <= v <= 65535 else if t == 0x12 then -32768 <= v <= 32767
            else if t == 0x04 then 0 <= v <= 4294967295 else -2147483648 <= v <= 2147483647
  {
  }

  lemma ModulusBound(t: byte)
    ensures 0 < Modulus(t) <= 0x1_0000_0000
  {
  }

  // ---------------------------------------------------------------- records

  datatype Value = IntV(t: byte, v: int) | DataV(t: byte, data: seq<byte>)

  // the type code with bit 7 cleared
  function BaseType(c: LineInfo): byte { if c[2] < 128 then c[2] else c[2] - 128 }

  /** A record of a store that only the setters and erase have written. */
  predicate WF(c: seq<byte>): (ok: bool)
    ensures ok ==> |c| >= HDR
  {
    && |c| >= HDR
    && MagicOk(c)
    && (IntType(BaseType(c)) || DataType(BaseType(c)))
    && |c| == LiSize(c)
    && (HasPayload(c[2]) ==> BlobLen(c) <= BlobSize(c) <= BlobLen(c) + MAX_WASTE)
    && (LiIsUsed(c) ==> ValidKey(KeyOf(c)) && KeyField(c) == PadKey(KeyOf(c)))
  }

  function ValueOf(c: seq<byte>): Value
    requires WF(c)
  {
    if DataType(c[2]) then DataV(c[2], c[HDR..HDR + BlobLen(c)]) else IntV(c[2], DecodeInt(c[2], c[8..16]))
  }

  /** What a record contributes to the store. */
  function View(c: seq<byte>): Slot<seq<byte>, Value>
    requires WF(c)
  {
    if LiIsUsed(c) then Used(KeyOf(c), ValueOf(c)) else Free
  }

  /** Setting bit 7 turns a record into a free slot of the same kind and size, whatever its key bytes become. */
  lemma UnusedSlot(c: seq<byte>, k0: byte)
    requires WF(c)
    ensures WF(SetUnused(c)) && View(SetUnused(c)) == Free
    ensures WF(SetUnused(c)[16 := k0]) && View(SetUnused(c)[16 := k0]) == Free
  {
  }

  lemma UsedKey(c: seq<byte>)
    requires WF(c) && LiIsUsed(c)
    ensures var k := KeyOf(c); ValidKey(k) && KeyField(c) == k + Zeros(15 - |k|)
    ensures KeyField(c[..HDR]) == KeyField(c) && KeyOf(c[..HDR]) == KeyOf(c)
  {
  }

  /** li_matchKey finds exactly the used records whose key is the first 14 characters of the argument. */
  lemma MatchKeyMeaning(c: seq<byte>, key: seq<byte>)
    requires WF(c) && 0 !in key
    ensures LiMatchKey(c[..HDR], key) <==> LiIsUsed(c) && KeyOf(c) == Take(key, MAX_KEY_LEN)
  {
    hide WF, KeyOf, KeyField, StrNCmpEq, Take;
    if LiIsUsed(c) {
      UsedKey(c);
      var k := KeyOf(c);
      TakeShort(k, MAX_KEY_LEN);
      StrNCmpEqMeaning(k, Zeros(15 - |k|), key, MAX_KEY_LEN);
    }
  }

  /** The header of a string of 2 bytes in a slot of 5, under the key "ab". */
  lemma KnownHeader()
    ensures MakeHeader(TYPE_STR, LenNval(2, 5), [97, 98]) ==
            [0xef, 0xbe, 0x21, 0, 0, 0, 0, 0, 2, 0, 5, 0, 0, 0, 0, 0, 97, 98] + Zeros(14)
  {
    assert PadKey([97, 98]) == [97, 98] + Zeros(13);
  }

  // and what is read from it
  lemma KnownFields()
    ensures var h := MakeHeader(TYPE_STR, LenNval(2, 5), [97, 98]);
            BlobLen(h) == 2 && BlobSize(h) == 5 && KeyOf(h) == [97, 98] && LiSize(h) == 37
  {
    hide MakeHeader, LenNval, PadKey, KeyOf, KeyField, BlobLen, BlobSize;
    KeyIs(MakeHeader(TYPE_STR, LenNval(2, 5), [97, 98]), [97, 98]);
  }

  lemma IntHeader(t: byte, nval: seq<byte>, key: seq<byte>)
    requires IntType(t) && |nval| == 8 && ValidKey(key)
    ensures var c := MakeHeader(t, nval, key); WF(c) && View(c) == Used(key, IntV(t, DecodeInt(t, nval)))
  {
  }

  /** An integer record as the setters write it. */
  lemma IntRecord(t: byte, v: int, key: seq<byte>)
    requires IntType(t) && InRange(t, v) && ValidKey(key)
    ensures var c := MakeHeader(t, EncodeInt(t, v), key); WF(c) && View(c) == Used(key, IntV(t, v))
  {
    var n := EncodeInt(t, v);
    IntHeader(t, n, key);
    IntRoundTrip(t, v);
  }

  /** A string or blob record as the writer leaves it, with what remains of the old payload behind it. */
  lemma DataRecord(t: byte, data: seq<byte>, key: seq<byte>, rest: seq<byte>)
    requires DataType(t) && |data| + |rest| < 0x10000 && ValidKey(key) && |rest| <= MAX_WASTE
    ensures var c := MakeHeader(t, LenNval(|data|, |data| + |rest|), key) + data + rest;
            WF(c) && View(c) == Used(key, DataV(t, data))
  {
    hide MakeHeader, LenNval, CStr, PadKey, ValidKey, KeyOf, KeyField, MagicOk, BlobLen, BlobSize;
    var h := MakeHeader(t, LenNval(|data|, |data| + |rest|), key);
    var c := h + data + rest;
    SameFields(h, data + rest);
    assert c == h + (data + rest);
    KeyIs(h, key);
    assert c[HDR..HDR + |data|] == data;
  }

  lemma SameFields(h: LineInfo, rest: seq<byte>)
    requires |h| == HDR
    ensures var c := h + rest;
            && KvsType(c) == KvsType(h) && BlobLen(c) == BlobLen(h) && BlobSize(c) == BlobSize(h)
            && MagicOk(c) == MagicOk(h) && KeyField(c) == KeyField(h) && KeyOf(c) == KeyOf(h)
  {
    hide CStr;
    assert KeyField(h + rest) == KeyField(h);
  }

  lemma KeyIs(h: LineInfo, key: seq<byte>)
    requires ValidKey(key) && KeyField(h) == PadKey(key)
    ensures KeyOf(h) == key
  {
  }
}
