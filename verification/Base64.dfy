/** The base64 codec of utils_misc (section 5.2 of RFC 1521): what the text stands for, independently of
    how the two methods of Base64Codec compute it. */
module Base64 {
  import opened Bytes

  const SP: byte := 0x20
  const CR: byte := 0x0d
  const LF: byte := 0x0a
  const PAD: byte := 0x3d

  // base64_enc_map, as the ranges that the table consists of
  function EncMap(v: int): (c: byte)
    requires 0 <= v < 64
    ensures Symbol(c)
  {
    if v < 26 then 65 + v else if v < 52 then 97 + (v - 26) else if v < 62 then 48 + (v - 52)
    else if v == 62 then 43 else 47
  }

  // base64_dec_map, extended with 127 above its 128 entries: 64 marks the pad, 127 an illegal character
  function DecMap(c: byte): (v: byte)
    ensures v < 64 ==> EncMap(v) == c
    ensures v < 64 <==> Symbol(c)
    ensures v == 64 <==> c == PAD
  {
    if 65 <= c <= 90 then c - 65 else if 97 <= c <= 122 then 26 + (c - 97) else if 48 <= c <= 57 then 52 + (c - 48)
    else if c == 43 then 62 else if c == 47 then 63 else if c == PAD then 64 else 127
  }

  predicate Symbol(c: byte) { 65 <= c <= 90 || 97 <= c <= 122 || 48 <= c <= 57 || c == 43 || c == 47 }
  predicate Layout(c: byte) { c == SP || c == CR || c == LF }

  // table 1 of section 5.2
  const UPPER := "ABCDEFGHIJKLMNOPQRSTUVWXYZ"
  const LOWER := "abcdefghijklmnopqrstuvwxyz"
  const DIGITS := "0123456789"
  const ALPHABET := UPPER + LOWER + DIGITS + "+/"

  lemma Letters(v: nat)
    requires v < 26
    ensures |UPPER| == 26 && UPPER[v] as int == 65 + v
    ensures |LOWER| == 26 && LOWER[v] as int == 97 + v
  {
    assert v == 0 || v == 1 || v == 2 || v == 3 || v == 4 || v == 5 || v == 6 || v == 7 || v == 8 || v == 9 || v == 10
      || v == 11 || v == 12 || v == 13 || v == 14 || v == 15 || v == 16 || v == 17 || v == 18 || v == 19 || v == 20
      || v == 21 || v == 22 || v == 23 || v == 24 || v == 25;
  }

  lemma Digits(v: nat)
    requires v < 10
    ensures |DIGITS| == 10 && DIGITS[v] as int == 48 + v
  {
    assert v == 0 || v == 1 || v == 2 || v == 3 || v == 4 || v == 5 || v == 6 || v == 7 || v == 8 || v == 9;
  }

  /** The two maps are the table and its inverse. */
  lemma MapsAreTable(v: nat)
    requires v < 64
    ensures |ALPHABET| == 64 && EncMap(v) == ALPHABET[v] as int && DecMap(EncMap(v)) == v
  {
    Letters(if v < 26 then v else if 26 <= v < 52 then v - 26 else 0);
    Digits(if 52 <= v < 62 then v - 52 else 0);
  }

  /** The symbols are the characters of the table. */
  lemma SymbolsAreTable(c: byte)
    ensures |ALPHABET| == 64
    ensures Symbol(c) <==> exists v :: 0 <= v < 64 && ALPHABET[v] as int == c
    ensures Symbol(c) ==> ALPHABET[DecMap(c)] as int == c
  {
    hide EncMap;
    MapsAreTable(0);
    if Symbol(c) {
      MapsAreTable(DecMap(c));
    }
    if v :| 0 <= v < 64 && ALPHABET[v] as int == c {
      MapsAreTable(v);
    }
  }

  // ---------------------------------------------------------------- layout

  /** The text without its spaces and line ends. */
  function Strip(s: seq<byte>): (t: seq<byte>) {
    if s == [] then []
    else Strip(s[..|s| - 1]) + if Layout(s[|s| - 1]) then [] else [s[|s| - 1]]
  }

  /** How many spaces stand directly in front of position i. */
  function SpaceRun(s: seq<byte>, i: nat): (n: nat)
    requires i <= |s|
    ensures n <= i
  {
    if i > 0 && s[i - 1] == SP then 1 + SpaceRun(s, i - 1) else 0
  }

  /** A CR needs its LF, and spaces may stand in front of a line end or at the end only. The decoder
      counts them in 32 bits, so that it overlooks runs of a multiple of 2^32 spaces. */
  predicate LayoutOk(s: seq<byte>) { CrOk(s) && RunsOk(s) }

  predicate CrOk(s: seq<byte>) {
    forall i :: 0 <= i < |s| && s[i] == CR ==> i + 1 < |s| && s[i + 1] == LF
  }

  predicate RunsOk(s: seq<byte>) {
    forall i :: 0 <= i < |s| && !Layout(s[i]) ==> SpaceRun(s, i) % 0x1_0000_0000 == 0
  }

  function Pads(t: seq<byte>): (n: nat)
    ensures n <= |t|
  {
    if t == [] then 0 else Pads(t[..|t| - 1]) + if t[|t| - 1] == PAD then 1 else 0
  }

  /** Alphabet characters, then at most two pads. */
  predicate SymbolsOk(t: seq<byte>) {
    && Pads(t) <= 2
    && (forall i :: 0 <= i < |t| ==> Symbol(t[i]) || t[i] == PAD)
    && (forall i, j :: 0 <= i < j < |t| && t[i] == PAD ==> t[j] == PAD)
  }

  predicate Legal(s: seq<byte>) { LayoutOk(s) && SymbolsOk(Strip(s)) }

  // ---------------------------------------------------------------- meaning

  function Sextet(c: byte): (v: int)
    ensures 0 <= v < 64
  {
    if DecMap(c) < 64 then DecMap(c) else 0
  }

  /** The bytes of four symbols; each pad drops one from the end. */
  function Quartet(a: byte, b: byte, c: byte, d: byte): (r: seq<byte>)
    ensures |r| <= 3
  {
    var full: seq<byte> := [Sextet(a) * 4 + Sextet(b) / 16, Sextet(b) % 16 * 16 + Sextet(c) / 4,
        Sextet(c) % 4 * 64 + Sextet(d)];
    var pads := (if a == PAD then 1 else 0) + (if b == PAD then 1 else 0) + (if c == PAD then 1 else 0) +
        (if d == PAD then 1 else 0);
    if pads <= 3 then full[..3 - pads] else []
  }

  function Decoded(t: seq<byte>): seq<byte> {
    if |t| < 4 then [] else Quartet(t[0], t[1], t[2], t[3]) + Decoded(t[4..])
  }

  function Encoded(s: seq<byte>): seq<byte> {
    if |s| == 0 then []
    else if |s| < 3 then Tail(s)
    else Triple(s[0], s[1], s[2]) + Encoded(s[3..])
  }

  // the padded quartet of the last one or two bytes
  function Tail(s: seq<byte>): (r: seq<byte>)
    requires |s| == 1 || |s| == 2
    ensures |r| == 4
  {
    if |s| == 1 then [EncMap(s[0] / 4), EncMap(s[0] % 4 * 16), PAD, PAD]
    else [EncMap(s[0] / 4), EncMap(s[0] % 4 * 16 + s[1] / 16), EncMap(s[1] % 16 * 4), PAD]
  }

  function Triple(a: byte, b: byte, c: byte): (r: seq<byte>)
    ensures |r| == 4
  {
    [EncMap(a / 4), EncMap(a % 4 * 16 + b / 16), EncMap(b % 16 * 4 + c / 64), EncMap(c % 64)]
  }

  // ---------------------------------------------------------------- round trips

  lemma SextetOfSymbol(v: int)
    requires 0 <= v < 64
    ensures Sextet(EncMap(v)) == v && EncMap(v) != PAD && !Layout(EncMap(v))
  {
  }

  lemma SymbolOfSextet(c: byte)
    requires Symbol(c)
    ensures EncMap(Sextet(c)) == c && c != PAD && !Layout(c)
  {
  }

  lemma Join4(x: int, y: int)
    requires 0 <= y < 4
    ensures (x * 4 + y) / 4 == x && (x * 4 + y) % 4 == y
  {
  }

  lemma Join16(x: int, y: int)
    requires 0 <= y < 16
    ensures (x * 16 + y) / 16 == x && (x * 16 + y) % 16 == y
  {
  }

  lemma Join64(x: int, y: int)
    requires 0 <= y < 64
    ensures (x * 64 + y) / 64 == x && (x * 64 + y) % 64 == y
  {
  }

  lemma Cut4(v: int, m: nat)
    requires 0 <= v < 4 * m
    ensures 0 <= v / 4 < m && 0 <= v % 4 < 4 && v / 4 * 4 + v % 4 == v
  {
  }

  lemma Cut16(v: int, m: nat)
    requires 0 <= v < 16 * m
    ensures 0 <= v / 16 < m && 0 <= v % 16 < 16 && v / 16 * 16 + v % 16 == v
  {
  }

  lemma Cut64(v: int, m: nat)
    requires 0 <= v < 64 * m
    ensures 0 <= v / 64 < m && 0 <= v % 64 < 64 && v / 64 * 64 + v % 64 == v
  {
  }

  lemma TripleQuartet(a: byte, b: byte, c: byte)
    ensures var r := Triple(a, b, c); Quartet(r[0], r[1], r[2], r[3]) == [a, b, c]
  {
    hide EncMap, DecMap, Sextet, Layout, Symbol;
    Cut4(a, 64);
    Cut16(b, 16);
    Cut64(c, 4);
    Join16(a % 4, b / 16);
    Join4(b % 16, c / 64);
    SextetOfSymbol(a / 4);
    SextetOfSymbol(a % 4 * 16 + b / 16);
    SextetOfSymbol(b % 16 * 4 + c / 64);
    SextetOfSymbol(c % 64);
  }

  /** The last one or two bytes. */
  lemma TailQuartet(s: seq<byte>)
    requires |s| == 1 || |s| == 2
    ensures var r := Encoded(s); |r| == 4 && Quartet(r[0], r[1], r[2], r[3]) == s
  {
    hide EncMap, Sextet, Quartet;
    if |s| == 1 {
      TailOne(s[0]);
    } else {
      TailTwo(s[0], s[1]);
    }
  }

  lemma TailOne(a: byte)
    ensures Quartet(EncMap(a / 4), EncMap(a % 4 * 16), PAD, PAD) == [a]
  {
    hide EncMap, DecMap, Sextet, Layout;
    Cut4(a, 64);
    Join16(a % 4, 0);
    SextetOfSymbol(a / 4);
    SextetOfSymbol(a % 4 * 16);
  }

  lemma TailTwo(a: byte, b: byte)
    ensures Quartet(EncMap(a / 4), EncMap(a % 4 * 16 + b / 16), EncMap(b % 16 * 4), PAD) == [a, b]
  {
    hide EncMap, DecMap, Sextet, Layout;
    Cut4(a, 64);
    Cut16(b, 16);
    Join16(a % 4, b / 16);
    Join4(b % 16, 0);
    SextetOfSymbol(a / 4);
    SextetOfSymbol(a % 4 * 16 + b / 16);
    SextetOfSymbol(b % 16 * 4);
  }

  lemma {:induction false} DecodeEncode(s: seq<byte>)
    ensures Decoded(Encoded(s)) == s
  {
    hide Quartet, Triple;
    if |s| >= 3 {
      DecodeEncode(s[3..]);
      TripleQuartet(s[0], s[1], s[2]);
      var e := Encoded(s);
      assert e[4..] == Encoded(s[3..]);
      assert e[..4] == Triple(s[0], s[1], s[2]);
      assert s == [s[0], s[1], s[2]] + s[3..];
    } else if |s| > 0 {
      TailQuartet(s);
      assert Decoded(Encoded(s)[4..]) == [];
    }
  }

  lemma {:induction false} EncodedLength(s: seq<byte>)
    ensures |Encoded(s)| == 4 * ((|s| + 2) / 3)
  {
    hide EncMap, Triple;
    if |s| >= 3 {
      EncodedLength(s[3..]);
    }
  }

  lemma {:induction false} PadsConcat(a: seq<byte>, b: seq<byte>)
    ensures Pads(a + b) == Pads(a) + Pads(b)
  {
    if b == [] {
      assert a + b == a;
    } else {
      assert (a + b)[..|a + b| - 1] == a + b[..|b| - 1];
      PadsConcat(a, b[..|b| - 1]);
    }
  }

  lemma NoPads(t: seq<byte>)
    requires forall i :: 0 <= i < |t| ==> t[i] != PAD
    ensures Pads(t) == 0
  {
  }

  lemma {:induction false} OnlyPads(t: seq<byte>)
    requires forall i :: 0 <= i < |t| ==> t[i] == PAD
    ensures Pads(t) == |t|
  {
    if t != [] {
      OnlyPads(t[..|t| - 1]);
    }
  }

  /** The pads of a legal text are its last characters, at most two. */
  lemma PadsAtEnd(t: seq<byte>, i: nat)
    requires SymbolsOk(t) && i < |t|
    ensures t[i] == PAD <==> |t| - Pads(t) <= i
  {
    hide Pads;
    PadsConcat(t[..i], t[i..]);
    assert t == t[..i] + t[i..];
    if t[i] == PAD {
      OnlyPads(t[i..]);
    } else {
      NoPads(t[..i + 1]);
      PadsConcat(t[..i + 1], t[i + 1..]);
      assert t == t[..i + 1] + t[i + 1..];
    }
  }

  /** Four symbols in front of the rest, none of them a pad while a whole quartet follows. */
  lemma FirstQuartet(t: seq<byte>)
    requires SymbolsOk(t) && |t| >= 4
    ensures SymbolsOk(t[4..]) && Pads(t) <= 2
    ensures |t| >= 6 ==> Symbol(t[0]) && Symbol(t[1]) && Symbol(t[2]) && Symbol(t[3]) && Pads(t[4..]) == Pads(t)
  {
    hide DecMap, Pads;
    assert t == t[..4] + t[4..];
    PadsConcat(t[..4], t[4..]);
    if |t| >= 6 {
      PadsAtEnd(t, 0);
      PadsAtEnd(t, 1);
      PadsAtEnd(t, 2);
      PadsAtEnd(t, 3);
      NoPads(t[..4]);
    }
  }

  /** The number of bytes in terms of full quartets, leftover symbols and pads. */
  lemma {:induction false} DecodedLength(t: seq<byte>)
    requires SymbolsOk(t)
    ensures var q, r, j := |t| / 4, |t| % 4, Pads(t); |Decoded(t)| == 3 * q - j + (if j < r then j else r)
  {
    hide SymbolsOk, Pads, DecMap, Quartet, Decoded, Sextet;
    if |t| >= 6 {
      FirstQuartet(t);
      DecodedLength(t[4..]);
      LongLength(t);
      Join4(|t| / 4 - 1, |t| % 4);
    } else if |t| >= 4 {
      FirstQuartet(t);
      ShortLength(t);
    } else {
      assert Decoded(t) == [] by {
        NothingDecoded(t);
      }
    }
  }

  lemma NothingDecoded(t: seq<byte>)
    requires |t| < 4
    ensures Decoded(t) == []
  {
  }

  lemma LongLength(t: seq<byte>)
    requires |t| >= 4 && Symbol(t[0]) && Symbol(t[1]) && Symbol(t[2]) && Symbol(t[3])
    ensures |Decoded(t)| == 3 + |Decoded(t[4..])|
  {
  }

  lemma ShortLength(t: seq<byte>)
    requires SymbolsOk(t) && 4 <= |t| < 6
    ensures |Decoded(t)| == if |t| == 4 then 3 - Pads(t) else if Pads(t) == 0 then 3 else 4 - Pads(t)
  {
    hide SymbolsOk, Pads, DecMap, Sextet;
    FirstQuartet(t);
    PadsAtEnd(t, 0);
    PadsAtEnd(t, 1);
    PadsAtEnd(t, 2);
    PadsAtEnd(t, 3);
    assert Decoded(t[4..]) == [];
  }

  /** The length that the decoder announces for n characters with j pads, as its source computes it. */
  function Announced(n: nat, j: nat): int { 6 * (n / 8) + (6 * (n % 8) + 7) / 8 - j }

  // eight symbols at a time, and a rest of r
  lemma Eighths(q: nat, r: nat, j: nat)
    requires r < 8
    ensures var n := 8 * q + r;
            && n / 8 == q && n % 8 == r
            && Announced(n, j) == 3 * (n / 4) + n % 4 - j
            && Announced(n, 0) == (6 * n + 7) / 8 <= n
  {
    var n := 8 * q + r;
    assert n / 8 == q && n % 8 == r;
    assert n / 4 == 2 * q + r / 4 && n % 4 == r % 4;
    assert (6 * n + 7) / 8 == 6 * q + (6 * r + 7) / 8;
  }

  /** The announced length is never too small; it is exact iff there are no more leftover symbols than pads.
      The split formula equals floor((6n + 7) / 8), stays below n + 1 and never goes below zero. */
  lemma AnnouncedLength(t: seq<byte>)
    requires SymbolsOk(t)
    ensures var n, j := |t|, Pads(t);
            && Announced(n, j) == 3 * (n / 4) + n % 4 - j
            && Announced(n, 0) == (6 * n + 7) / 8 <= n
            && 0 <= |Decoded(t)| <= Announced(n, j)
            && (|Decoded(t)| == Announced(n, j) <==> n % 4 <= j)
  {
    hide SymbolsOk, Pads, Decoded, Announced;
    DecodedLength(t);
    Eighths(|t| / 8, |t| % 8, Pads(t));
  }

  // the bits of the last symbol before the pads that no byte uses
  predicate DiscardedZero(t: seq<byte>) {
    var n := |t|;
    && (n >= 2 && t[n - 1] == PAD && t[n - 2] != PAD ==> Sextet(t[n - 2]) % 4 == 0)
    && (n >= 3 && t[n - 1] == PAD && t[n - 2] == PAD ==> Sextet(t[n - 3]) % 16 == 0)
  }

  lemma QuartetTriple(a: byte, b: byte, c: byte, d: byte)
    requires Symbol(a) && Symbol(b) && Symbol(c) && Symbol(d)
    ensures var q := Quartet(a, b, c, d); |q| == 3 && Triple(q[0], q[1], q[2]) == [a, b, c, d]
  {
    hide EncMap, DecMap, Sextet, Symbol;
    SymbolOfSextet(a);
    SymbolOfSextet(b);
    SymbolOfSextet(c);
    SymbolOfSextet(d);
    Regroup(Sextet(a), Sextet(b), Sextet(c), Sextet(d));
  }

  /** Six bits four times, eight bits three times. */
  lemma Regroup(a: int, b: int, c: int, d: int)
    requires 0 <= a < 64 && 0 <= b < 64 && 0 <= c < 64 && 0 <= d < 64
    ensures var x, y, z := a * 4 + b / 16, b % 16 * 16 + c / 4, c % 4 * 64 + d;
            x / 4 == a && x % 4 * 16 + y / 16 == b && y % 16 * 4 + z / 64 == c && z % 64 == d
  {
    Cut16(b, 4);
    Cut4(c, 16);
    Join4(a, b / 16);
    Join16(b % 16, c / 4);
    Join64(c % 4, d);
  }

  lemma LastQuartet(t: seq<byte>)
    requires |t| == 4 && Symbol(t[0]) && Symbol(t[1]) && t[3] == PAD && (Symbol(t[2]) || t[2] == PAD)
    ensures Encoded(Quartet(t[0], t[1], t[2], t[3])) == t <==> DiscardedZero(t)
  {
    hide EncMap, DecMap, Sextet, Symbol, Encoded, Quartet;
    var b, c := Sextet(t[1]), Sextet(t[2]);
    if t[2] == PAD {
      OneLeft(t[0], t[1]);
      Rounded(t[1], b / 16 * 16);
      Cut16(b, 4);
      assert t == [t[0], t[1], PAD, PAD];
    } else {
      TwoLeft(t[0], t[1], t[2]);
      Rounded(t[2], c / 4 * 4);
      Cut4(c, 16);
      PadIsNoSymbol(t[2]);
      assert t == [t[0], t[1], t[2], PAD];
    }
  }

  lemma PadIsNoSymbol(c: byte)
    requires Symbol(c)
    ensures c != PAD
  {
  }

  lemma Rounded(c: byte, v: int)
    requires Symbol(c) && 0 <= v < 64
    ensures EncMap(v) == c <==> v == Sextet(c)
  {
    hide EncMap, DecMap, Sextet, Symbol;
    SymbolOfSextet(c);
    SextetOfSymbol(v);
  }

  lemma OneLeft(a: byte, b: byte)
    requires Symbol(a) && Symbol(b)
    ensures Encoded(Quartet(a, b, PAD, PAD)) == [a, EncMap(Sextet(b) / 16 * 16), PAD, PAD]
  {
    hide EncMap, DecMap, Sextet, Symbol;
    SymbolOfSextet(a);
    PadIsNoSymbol(b);
    Cut16(Sextet(b), 4);
    Join4(Sextet(a), Sextet(b) / 16);
  }

  lemma TwoLeft(a: byte, b: byte, c: byte)
    requires Symbol(a) && Symbol(b) && Symbol(c)
    ensures Encoded(Quartet(a, b, c, PAD)) == [a, b, EncMap(Sextet(c) / 4 * 4), PAD]
  {
    hide EncMap, DecMap, Sextet, Symbol;
    SymbolOfSextet(a);
    SymbolOfSextet(b);
    PadIsNoSymbol(c);
    Cut16(Sextet(b), 4);
    Cut4(Sextet(c), 16);
    Join4(Sextet(a), Sextet(b) / 16);
    Join16(Sextet(b) % 16, Sextet(c) / 4);
  }

  /** Encoding what an accepted text decodes to gives the text back iff it consists of whole quartets and
      the bits that decoding drops are zero. */
  lemma {:induction false} EncodeDecode(t: seq<byte>)
    requires SymbolsOk(t)
    ensures Encoded(Decoded(t)) == t <==> |t| % 4 == 0 && DiscardedZero(t)
  {
    hide SymbolsOk, Pads, Sextet, Quartet, Encoded, Decoded;
    if |t| % 4 != 0 {
      EncodedWhole(Decoded(t));
    } else if |t| == 4 {
      EncodeDecodeOne(t);
    } else if |t| >= 8 {
      FirstQuartet(t);
      EncodeDecode(t[4..]);
      TripleStep(t);
      var e := Encoded(Decoded(t[4..]));
      assert t == t[..4] + t[4..];
      assert e == (t[..4] + e)[4..];
    } else {
      EncodeDecodeEmpty();
    }
  }

  lemma EncodedWhole(s: seq<byte>)
    ensures |Encoded(s)| % 4 == 0
  {
    hide Encoded;
    EncodedLength(s);
    Join4((|s| + 2) / 3, 0);
  }

  lemma EncodeDecodeOne(t: seq<byte>)
    requires SymbolsOk(t) && |t| == 4
    ensures Encoded(Decoded(t)) == t <==> DiscardedZero(t)
  {
    hide SymbolsOk, Pads, Sextet, Quartet, Encoded, Decoded;
    OneQuartet(t);
    if t[3] == PAD {
      LastQuartet(t);
    } else {
      TripleStep(t);
      assert t[4..] == [];
      EncodeDecodeEmpty();
    }
  }

  lemma EncodeDecodeEmpty()
    ensures Encoded(Decoded([])) == []
  {
  }

  lemma TripleStep(t: seq<byte>)
    requires |t| >= 4 && Symbol(t[0]) && Symbol(t[1]) && Symbol(t[2]) && Symbol(t[3])
    ensures Encoded(Decoded(t)) == t[..4] + Encoded(Decoded(t[4..]))
  {
    hide Quartet, Triple, Symbol;
    QuartetTriple(t[0], t[1], t[2], t[3]);
    assert Decoded(t)[3..] == Decoded(t[4..]);
  }

  lemma OneQuartet(t: seq<byte>)
    requires SymbolsOk(t) && |t| == 4
    ensures Decoded(t) == Quartet(t[0], t[1], t[2], t[3]) && Symbol(t[0]) && Symbol(t[1])
    ensures t[3] == PAD ==> Symbol(t[2]) || t[2] == PAD
    ensures t[3] != PAD ==> Symbol(t[2]) && Symbol(t[3]) && t[2] != PAD
  {
    PadsAtEnd(t, 0);
    PadsAtEnd(t, 1);
    assert Decoded(t[4..]) == [];
  }

  // ---------------------------------------------------------------- layout does not matter

  lemma {:induction false} StripConcat(a: seq<byte>, b: seq<byte>)
    ensures Strip(a + b) == Strip(a) + Strip(b)
  {
    if b == [] {
      assert a + b == a;
    } else {
      assert (a + b)[..|a + b| - 1] == a + b[..|b| - 1];
      StripConcat(a, b[..|b| - 1]);
    }
  }

  lemma {:induction false} StripNothing(s: seq<byte>)
    requires forall i :: 0 <= i < |s| ==> !Layout(s[i])
    ensures Strip(s) == s
  {
    if s != [] {
      StripNothing(s[..|s| - 1]);
    }
  }

  lemma {:induction false} StripAll(s: seq<byte>)
    requires forall i :: 0 <= i < |s| ==> Layout(s[i])
    ensures Strip(s) == []
  {
    if s != [] {
      StripAll(s[..|s| - 1]);
    }
  }

  lemma {:induction false} StrippedHasNoLayout(s: seq<byte>)
    ensures forall i :: 0 <= i < |Strip(s)| ==> !Layout(Strip(s)[i])
  {
    if s != [] {
      StrippedHasNoLayout(s[..|s| - 1]);
    }
  }

  /** A legal text and the same text without its layout are both legal and stand for the same bytes. */
  lemma LayoutIgnored(s: seq<byte>)
    requires Legal(s)
    ensures Strip(Strip(s)) == Strip(s) && Legal(Strip(s))
  {
    hide Strip, SymbolsOk;
    StrippedHasNoLayout(s);
    StripNothing(Strip(s));
    NoLayoutIsOk(Strip(s));
  }

  lemma NoLayoutIsOk(t: seq<byte>)
    requires forall i :: 0 <= i < |t| ==> !Layout(t[i])
    ensures LayoutOk(t)
  {
  }

  lemma {:induction false} SpaceRunBehind(x: seq<byte>, b: seq<byte>, k: nat)
    requires k <= |b|
    ensures SpaceRun(x + b, |x| + k) == if SpaceRun(b, k) == k then k + SpaceRun(x, |x|) else SpaceRun(b, k)
  {
    if k == 0 {
      SpaceRunPrefix(x, b, |x|);
    } else {
      SpaceRunBehind(x, b, k - 1);
    }
  }

  lemma {:induction false} SpaceRunPrefix(x: seq<byte>, b: seq<byte>, i: nat)
    requires i <= |x|
    ensures SpaceRun(x + b, i) == SpaceRun(x, i)
  {
    if i > 0 {
      SpaceRunPrefix(x, b, i - 1);
    }
  }

  function Spaces(n: nat): (s: seq<byte>)
    ensures |s| == n && forall i :: 0 <= i < n ==> s[i] == SP
  {
    seq(n, _ => SP)
  }

  predicate LineEnd(e: seq<byte>) { e == [LF] || e == [CR, LF] }
  predicate EndsIn(a: seq<byte>, c: byte) { a != [] && a[|a| - 1] == c }

  /** A line end starts the counting of spaces anew. */
  lemma InsertedRuns(a: seq<byte>, e: seq<byte>, b: seq<byte>)
    requires EndsIn(e, LF) && RunsOk(a + b) && forall i :: 0 <= i < |e| ==> Layout(e[i])
    ensures RunsOk(a + e + b) <==> RunsOk(b)
  {
    hide Layout, SpaceRun;
    var s, t := a + b, a + e + b;
    forall k | 0 <= k < |b|
      ensures t[|a + e| + k] == b[k] && SpaceRun(t, |a + e| + k) == SpaceRun(b, k)
    {
      RunBehindLineEnd(a, e, b, k);
    }
    if RunsOk(b) {
      forall i | 0 <= i < |t| && !Layout(t[i])
        ensures SpaceRun(t, i) % 0x1_0000_0000 == 0
      {
        if i < |a| {
          RunBeforeLineEnd(a, e, b, i);
        } else if i >= |a + e| {
          assert t[i] == b[i - |a + e|];
        }
      }
    }
  }

  lemma RunsOfRest(a: seq<byte>, b: seq<byte>)
    requires RunsOk(a + b) && (!EndsIn(a, SP) || |a + b| < 0x1_0000_0000)
    ensures RunsOk(b)
  {
    forall k | 0 <= k < |b| && !Layout(b[k])
      ensures SpaceRun(b, k) % 0x1_0000_0000 == 0
    {
      assert (a + b)[|a| + k] == b[k];
      SpaceRunBehind(a, b, k);
    }
  }

  lemma RunBeforeLineEnd(a: seq<byte>, e: seq<byte>, b: seq<byte>, i: nat)
    requires i < |a|
    ensures SpaceRun(a + e + b, i) == SpaceRun(a + b, i) && (a + b)[i] == (a + e + b)[i]
  {
  }

  lemma RunBehindLineEnd(a: seq<byte>, e: seq<byte>, b: seq<byte>, k: nat)
    requires EndsIn(e, LF) && k < |b|
    ensures SpaceRun(a + e + b, |a + e| + k) == SpaceRun(b, k)
    ensures (a + e + b)[|a + e| + k] == b[k]
  {
    SpaceRunBehind(a + e, b, k);
  }

  /** A line end, with or without spaces in front of it, may be inserted exactly anywhere but between a CR and
      its LF, or inside a run of spaces whose second part stands in front of a symbol and is no multiple of
      2^32 long. The second exception needs a text of 2^32 characters. */
  lemma InsertLineEnd(a: seq<byte>, b: seq<byte>, spaces: nat, e: seq<byte>)
    requires Legal(a + b) && LineEnd(e)
    ensures Strip(a + (Spaces(spaces) + e) + b) == Strip(a + b)
    ensures Legal(a + (Spaces(spaces) + e) + b) <==> (!EndsIn(a, CR) || (spaces == 0 && e == [LF])) && RunsOk(b)
    ensures !EndsIn(a, SP) || |a + b| < 0x1_0000_0000 ==> RunsOk(b)
  {
    hide Layout, SpaceRun, SymbolsOk, RunsOk, CrOk;
    var ins := Spaces(spaces) + e;
    SpacesLineEnd(spaces, e);
    InsertedStrip(a, ins, b);
    InsertedRuns(a, ins, b);
    InsertedCrs(a, ins, b);
    if !EndsIn(a, SP) || |a + b| < 0x1_0000_0000 {
      RunsOfRest(a, b);
    }
  }

  lemma SpacesLineEnd(n: nat, e: seq<byte>)
    requires LineEnd(e)
    ensures var ins := Spaces(n) + e;
            && CrOk(ins) && EndsIn(ins, LF) && (forall i :: 0 <= i < |ins| ==> Layout(ins[i]))
            && (ins[0] == LF <==> n == 0 && e == [LF])
  {
  }

  lemma InsertedStrip(a: seq<byte>, ins: seq<byte>, b: seq<byte>)
    requires forall i :: 0 <= i < |ins| ==> Layout(ins[i])
    ensures Strip(a + ins + b) == Strip(a + b)
  {
    hide Strip;
    StripConcat(a + ins, b);
    StripConcat(a, ins);
    StripConcat(a, b);
    StripAll(ins);
  }

  lemma InsertedCrs(a: seq<byte>, ins: seq<byte>, b: seq<byte>)
    requires CrOk(a + b) && ins != [] && CrOk(ins)
    ensures CrOk(a + ins + b) <==> !EndsIn(a, CR) || ins[0] == LF
  {
    var s, t := a + b, a + ins + b;
    if EndsIn(a, CR) {
      assert t[|a| - 1] == CR && t[|a|] == ins[0];
    }
    if !EndsIn(a, CR) || ins[0] == LF {
      forall i | 0 <= i < |t| && t[i] == CR
        ensures i + 1 < |t| && t[i + 1] == LF
      {
        if i + 1 < |a| {
          assert s[i] == CR && s[i + 1] == t[i + 1];
        } else if i < |a| {
          assert t[i + 1] == ins[0];
        } else if i < |a + ins| {
          assert ins[i - |a|] == CR;
        } else {
          assert s[i - |ins|] == CR && s[i - |ins| + 1] == LF;
        }
      }
    }
  }

  /** Below 2^32 characters the layout rule is local: no space directly in front of a symbol. */
  lemma LayoutBelow4G(s: seq<byte>)
    requires |s| < 0x1_0000_0000
    ensures RunsOk(s) <==> forall i :: 0 < i < |s| && !Layout(s[i]) ==> s[i - 1] != SP
  {
  }

  /** "A", then 2^32 spaces, then "AAA": accepted, although spaces stand inside the line. */
  lemma HugeRunOverlooked()
    ensures var s := [65] + Spaces(0x1_0000_0000) + [65, 65, 65];
            Legal(s) && s[0x1_0000_0000] == SP && !Layout(s[0x1_0000_0001])
  {
    hide Strip, Pads;
    var n := 0x1_0000_0000;
    var x, b: seq<byte> := [65] + Spaces(n), [65, 65, 65];
    var s := x + b;
    StripConcat(x, b);
    StripConcat([65], Spaces(n));
    StripAll(Spaces(n));
    StripNothing([65]);
    StripNothing(b);
    assert Strip(s) == [65, 65, 65, 65];
    NoPads(Strip(s));
    SpaceRunBehind([65], Spaces(n), n);
    SpacesRun(n, n);
    forall i | 0 <= i < |s| && !Layout(s[i])
      ensures SpaceRun(s, i) % n == 0
    {
      if i > n {
        SpaceRunBehind(x, b, i - n - 1);
      }
    }
  }

  lemma {:induction false} SpacesRun(n: nat, i: nat)
    requires i <= n
    ensures SpaceRun(Spaces(n), i) == i
  {
    if i > 0 {
      SpacesRun(n, i - 1);
    }
  }

  /** What the encoder writes is legal as it stands. */
  lemma EncodedLegal(s: seq<byte>)
    ensures Legal(Encoded(s)) && Strip(Encoded(s)) == Encoded(s)
  {
    hide Encoded, Strip, SymbolsOk, LayoutOk;
    EncodedSymbols(s);
    StripNothing(Encoded(s));
    NoLayoutIsOk(Encoded(s));
  }

  lemma {:induction false} EncodedSymbols(s: seq<byte>)
    ensures SymbolsOk(Encoded(s))
    ensures forall i :: 0 <= i < |Encoded(s)| ==> !Layout(Encoded(s)[i])
  {
    hide EncMap;
    if |s| >= 3 {
      EncodedSymbols(s[3..]);
      var q := Triple(s[0], s[1], s[2]);
      NoPads(q);
      PadsConcat(q, Encoded(s[3..]));
    } else if |s| > 0 {
      var t := Encoded(s);
      NoPads(t[..2]);
      assert Pads(t) == (if t[2] == PAD then 1 else 0) + 1 by {
        assert t[..3][..2] == t[..2] && t[..|t| - 1] == t[..3];
      }
    }
  }

  // ---------------------------------------------------------------- groups of 24 bits

  function ByteAt(s: seq<byte>, i: nat): (b: nat)
    ensures b < 256
  {
    if i < |s| then s[i] else 0
  }

  // input group q, filled up with zero bits at the end
  function Group(s: seq<byte>, q: nat): (w: nat)
    ensures w < 0x100_0000
  {
    (ByteAt(s, 3 * q) * 256 + ByteAt(s, 3 * q + 1)) * 256 + ByteAt(s, 3 * q + 2)
  }

  // the four 6-bit parts of a group, from the left
  function Sixth(w: nat, j: nat): (v: nat)
    ensures v < 64
  {
    (if j == 0 then w / 0x4_0000 else if j == 1 then w / 0x1000 else if j == 2 then w / 0x40 else w) % 64
  }

  lemma SixthsOf(a: byte, b: byte, c: byte)
    ensures var w := (a * 256 + b) * 256 + c;
            && Sixth(w, 0) == a / 4 && Sixth(w, 1) == a % 4 * 16 + b / 16
            && Sixth(w, 2) == b % 16 * 4 + c / 64 && Sixth(w, 3) == c % 64
  {
    var w := (a * 256 + b) * 256 + c;
    Cut4(a, 64);
    Cut16(b, 16);
    Cut64(c, 4);
    assert w == a / 4 * 0x4_0000 + (a % 4 * 0x1_0000 + b * 256 + c);
    assert w == (a * 16 + b / 16) * 0x1000 + (b % 16 * 256 + c);
    assert w == (a * 1024 + b * 4 + c / 64) * 64 + c % 64;
    assert w / 0x4_0000 == a / 4 && w / 0x1000 == a * 16 + b / 16 && w / 0x40 == a * 1024 + b * 4 + c / 64;
    assert a * 16 + b / 16 == a / 4 * 64 + (a % 4 * 16 + b / 16);
    assert a * 1024 + b * 4 + c / 64 == (a * 16 + b / 16) * 64 + (b % 16 * 4 + c / 64);
    Join64(a / 4, a % 4 * 16 + b / 16);
    Join64(a * 16 + b / 16, b % 16 * 4 + c / 64);
  }

  /** Character k of an encoding is the table entry of 6-bit part k of the input, or a pad where that has ended. */
  lemma {:induction false} EncodedAt(s: seq<byte>, k: nat)
    requires k < |Encoded(s)|
    ensures |ALPHABET| == 64
    ensures Encoded(s)[k] == if 6 * k < 8 * |s| then ALPHABET[Sixth(Group(s, k / 4), k % 4)] as int else PAD
  {
    hide EncMap, ALPHABET, Sixth;
    MapsAreTable(0);
    if k >= 4 {
      EncodedAt(s[3..], k - 4);
      NextGroup(s, k);
    } else {
      FirstGroup(s, k);
    }
  }

  lemma NextGroup(s: seq<byte>, k: nat)
    requires k >= 4 && |s| >= 3
    ensures k / 4 == (k - 4) / 4 + 1 && k % 4 == (k - 4) % 4
    ensures Group(s, k / 4) == Group(s[3..], (k - 4) / 4)
  {
  }

  lemma FirstGroup(s: seq<byte>, k: nat)
    requires k < 4 && s != []
    ensures |ALPHABET| == 64 && k < |Encoded(s)|
    ensures Encoded(s)[k] == if 6 * k < 8 * |s| then ALPHABET[Sixth(Group(s, 0), k)] as int else PAD
  {
    hide EncMap, ALPHABET, Sixth;
    var a, b, c := ByteAt(s, 0), ByteAt(s, 1), ByteAt(s, 2);
    SixthsOf(a, b, c);
    MapsAreTable(Sixth(Group(s, 0), k));
    FirstChars(s);
  }

  lemma FirstChars(s: seq<byte>)
    requires s != []
    ensures var e, a, b, c := Encoded(s), ByteAt(s, 0), ByteAt(s, 1), ByteAt(s, 2);
            && |e| >= 4 && e[0] == EncMap(a / 4) && e[1] == EncMap(a % 4 * 16 + b / 16)
            && e[2] == (if |s| > 1 then EncMap(b % 16 * 4 + c / 64) else PAD)
            && e[3] == (if |s| > 2 then EncMap(c % 64) else PAD)
  {
    hide EncMap;
  }

  // the number of symbol i in the table, and 0 for a pad and behind the end
  function SymbolAt(t: seq<byte>, i: nat): (v: nat)
    ensures v < 64
  {
    if i < |t| then Sextet(t[i]) else 0
  }

  // four symbols as one group
  function Joined(t: seq<byte>, q: nat): (w: nat)
    ensures w < 0x100_0000
  {
    ((SymbolAt(t, 4 * q) * 64 + SymbolAt(t, 4 * q + 1)) * 64 + SymbolAt(t, 4 * q + 2)) * 64 + SymbolAt(t, 4 * q + 3)
  }

  function Third(w: nat, j: nat): (v: nat)
    ensures v < 256
  {
    (if j == 0 then w / 0x1_0000 else if j == 1 then w / 0x100 else w) % 256
  }

  lemma ThirdsOf(a: nat, b: nat, c: nat, d: nat)
    requires a < 64 && b < 64 && c < 64 && d < 64
    ensures var w := ((a * 64 + b) * 64 + c) * 64 + d;
            Third(w, 0) == a * 4 + b / 16 && Third(w, 1) == b % 16 * 16 + c / 4 && Third(w, 2) == c % 4 * 64 + d
  {
    var w := ((a * 64 + b) * 64 + c) * 64 + d;
    Cut16(b, 4);
    Cut4(c, 16);
    var x, y, z := a * 4 + b / 16, b % 16 * 16 + c / 4, c % 4 * 64 + d;
    assert w == x * 0x1_0000 + (y * 256 + z);
    ThreeBytes(x, y, z);
  }

  lemma ThreeBytes(x: nat, y: nat, z: nat)
    requires x < 256 && y < 256 && z < 256
    ensures var w := x * 0x1_0000 + (y * 256 + z); Third(w, 0) == x && Third(w, 1) == y && Third(w, 2) == z
  {
    var w := x * 0x1_0000 + (y * 256 + z);
    assert w / 0x1_0000 == x;
    assert w == (x * 256 + y) * 256 + z;
    assert w / 0x100 == x * 256 + y;
  }

  /** Byte k of a decoding is 8-bit part k of the groups that the symbols make. */
  lemma {:induction false} DecodedAt(t: seq<byte>, k: nat)
    requires SymbolsOk(t) && k < |Decoded(t)|
    ensures Decoded(t)[k] == Third(Joined(t, k / 3), k % 3)
  {
    hide SymbolsOk, DecMap, Third, Sextet, Symbol, Pads, Quartet, Decoded, Joined;
    DecodedSome(t);
    if k >= 3 {
      FirstQuartet(t);
      FirstBytes(t);
      WholeFirst(t);
      DecodedAt(t[4..], k - 3);
      NextJoined(t, k);
    } else {
      DecodedFirst(t, k);
    }
  }

  lemma DecodedSome(t: seq<byte>)
    ensures Decoded(t) != [] ==> |t| >= 4
  {
  }

  lemma DecodedFirst(t: seq<byte>, k: nat)
    requires SymbolsOk(t) && |t| >= 4 && k < 3 && k < |Decoded(t)|
    ensures Decoded(t)[k] == Third(Joined(t, 0), k)
  {
    hide SymbolsOk, DecMap, Third, Sextet, Symbol, Pads, Quartet, Decoded, SymbolAt;
    FirstBytes(t);
    AtMostOne(t);
    ThirdsOf(SymbolAt(t, 0), SymbolAt(t, 1), SymbolAt(t, 2), SymbolAt(t, 3));
    var r := Quartet(t[0], t[1], t[2], t[3]);
    assert |r| == 3 || Decoded(t) == r + [] == r;
    assert Decoded(t)[k] == r[k];
  }

  lemma NextJoined(t: seq<byte>, k: nat)
    requires k >= 3 && |t| >= 4
    ensures k / 3 == (k - 3) / 3 + 1 && k % 3 == (k - 3) % 3
    ensures Joined(t, k / 3) == Joined(t[4..], (k - 3) / 3)
  {
    hide Sextet;
  }

  lemma FirstBytes(t: seq<byte>)
    requires |t| >= 4
    ensures var r, a, b, c, d := Quartet(t[0], t[1], t[2], t[3]), SymbolAt(t, 0), SymbolAt(t, 1), SymbolAt(t, 2),
                SymbolAt(t, 3);
            && Decoded(t) == r + Decoded(t[4..])
            && r <= [a * 4 + b / 16, b % 16 * 16 + c / 4, c % 4 * 64 + d]
  {
    hide Sextet;
  }

  // only the last quartet can have pads
  lemma WholeFirst(t: seq<byte>)
    requires SymbolsOk(t) && |Decoded(t)| > 3
    ensures |t| >= 8 && |Quartet(t[0], t[1], t[2], t[3])| == 3
  {
    hide SymbolsOk, Pads, Sextet, DecMap, Decoded;
    DecodedLength(t);
    FirstQuartet(t);
    NoPadInQuartet(t[0], t[1], t[2], t[3]);
  }

  lemma NoPadInQuartet(a: byte, b: byte, c: byte, d: byte)
    ensures Symbol(a) && Symbol(b) && Symbol(c) && Symbol(d) ==> |Quartet(a, b, c, d)| == 3
  {
    hide Sextet;
  }

  lemma AtMostOne(t: seq<byte>)
    requires SymbolsOk(t) && |t| >= 4
    ensures |Quartet(t[0], t[1], t[2], t[3])| < 3 ==> Decoded(t[4..]) == []
  {
    hide SymbolsOk, Pads, Sextet, DecMap;
    FirstQuartet(t);
    NoPadInQuartet(t[0], t[1], t[2], t[3]);
  }

  /** Sextet is the place in the table. */
  lemma SextetIsPlace(c: byte)
    ensures |ALPHABET| == 64
    ensures Symbol(c) ==> ALPHABET[Sextet(c)] as int == c
    ensures c == PAD ==> Sextet(c) == 0
  {
    hide ALPHABET;
    SymbolsAreTable(c);
  }

  /** "Man" and its beginnings. */
  lemma ManIsTWFu()
    ensures Encoded([77, 97, 110]) == [84, 87, 70, 117] && Decoded([84, 87, 70, 117]) == [77, 97, 110]
    ensures Encoded([77, 97]) == [84, 87, 69, 61] && Encoded([77]) == [84, 81, 61, 61]
  {
    hide Encoded, Decoded, Triple, Tail;
    ManParts();
    EncodedTriple([77, 97, 110]);
    TailEncoded([77, 97]);
    TailEncoded([77]);
    DecodeEncode([77, 97, 110]);
  }

  lemma ManParts()
    ensures Triple(77, 97, 110) == [84, 87, 70, 117] && Tail([77, 97]) == [84, 87, 69, 61]
    ensures Tail([77]) == [84, 81, 61, 61]
  {
  }

  lemma EncodedTriple(s: seq<byte>)
    requires |s| == 3
    ensures Encoded(s) == Triple(s[0], s[1], s[2])
  {
    hide EncMap, Triple;
    assert Encoded(s[3..]) == [];
  }

  lemma TailEncoded(s: seq<byte>)
    requires |s| == 1 || |s| == 2
    ensures Encoded(s) == Tail(s)
  {
  }

  // ---------------------------------------------------------------- legal texts

  /** What the symbols of a text are, with its layout left in place. */
  predicate SymbolsPlaced(s: seq<byte>) {
    && Pads(s) <= 2
    && (forall i :: 0 <= i < |s| ==> s[i] == 32 || s[i] == 13 || s[i] == 10 || s[i] == 61 || Symbol(s[i]))
    && (forall i, j :: 0 <= i < j < |s| && s[i] == 61 ==> !Symbol(s[j]))
  }

  lemma {:induction false} PadsIn(s: seq<byte>)
    ensures Pads(s) > 0 <==> PAD in s
  {
    if s != [] {
      PadsIn(s[..|s| - 1]);
      assert s == s[..|s| - 1] + [s[|s| - 1]];
    }
  }

  lemma {:induction false} StripPlaced(s: seq<byte>)
    ensures Pads(Strip(s)) == Pads(s) && (SymbolsOk(Strip(s)) <==> SymbolsPlaced(s))
  {
    hide SymbolsOk, SymbolsPlaced;
    if s == [] {
      NothingPlaced();
    } else {
      var a, c := s[..|s| - 1], s[|s| - 1];
      StripPlaced(a);
      assert s == a + [c];
      PlacedStep(a, c);
      if !Layout(c) {
        SymbolsOkStep(Strip(a), c);
      } else {
        assert Strip(s) == Strip(a) + [] == Strip(a);
      }
    }
  }

  lemma NothingPlaced()
    ensures SymbolsOk(Strip([])) && SymbolsPlaced([])
  {
  }

  lemma PlacedStep(a: seq<byte>, c: byte)
    ensures SymbolsPlaced(a + [c]) <==>
            && SymbolsPlaced(a)
            && (Layout(c) || (c == PAD && Pads(a) < 2) || (Symbol(c) && Pads(a) == 0))
    ensures Pads(a + [c]) == Pads(a) + if c == PAD then 1 else 0
  {
    hide Symbol;
    var s := a + [c];
    assert s[..|a|] == a;
    PadsIn(a);
    PadsOnly(c);
    assert forall i :: 0 <= i < |a| ==> s[i] == a[i];
    if PAD in a {
      var i :| 0 <= i < |a| && a[i] == PAD;
      assert s[i] == PAD && s[|a|] == c;
    }
  }

  lemma PadsOnly(c: byte)
    ensures c == PAD ==> !Symbol(c)
    ensures Layout(c) ==> !Symbol(c) && c != PAD
  {
  }

  lemma SymbolsOkStep(t: seq<byte>, c: byte)
    requires !Layout(c)
    ensures SymbolsOk(t + [c]) <==>
            SymbolsOk(t) && ((c == PAD && Pads(t) < 2) || (Symbol(c) && Pads(t) == 0))
  {
    hide Symbol;
    var s := t + [c];
    assert s[..|t|] == t;
    PadsIn(t);
    PadsOnly(c);
    assert forall i :: 0 <= i < |t| ==> s[i] == t[i];
    if PAD in t {
      var i :| 0 <= i < |t| && t[i] == PAD;
      assert s[i] == PAD && s[|t|] == c;
    }
  }

  /** The legal texts below 2^32 characters: only characters of the table, spaces, line ends and at most two pads;
      no symbol behind a pad; no CR without its LF; no space directly in front of a symbol or a pad. */
  lemma LegalBelow4G(s: seq<byte>)
    requires |s| < 0x1_0000_0000
    ensures Legal(s) <==>
            && SymbolsPlaced(s)
            && (forall i :: 0 <= i < |s| && s[i] == 13 ==> i + 1 < |s| && s[i + 1] == 10)
            && (forall i :: 0 < i < |s| && s[i - 1] == 32 ==> s[i] == 32 || s[i] == 13 || s[i] == 10)
  {
    hide SymbolsPlaced, SymbolsOk, Strip, RunsOk;
    StripPlaced(s);
    LayoutBelow4G(s);
  }
}
