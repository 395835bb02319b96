/** mbedtls_base64_encode and mbedtls_base64_decode, proved against the meaning in Base64. */
module Base64Codec {
  import opened Bytes
  import opened Base64

  const SIZE_T_MAX := 0xffff_ffff_ffff_ffff

  datatype Status = Success | BufferTooSmall | InvalidCharacter

  // ---------------------------------------------------------------- encoder

  lemma EncodedStep(s: seq<byte>, i: nat)
    requires i % 3 == 0 && i + 3 <= |s|
    ensures Encoded(s[..i + 3]) == Encoded(s[..i]) + Triple(s[i], s[i + 1], s[i + 2])
  {
    hide Encoded, Triple;
    EncodedConcat(s[..i], s[i..i + 3]);
    assert s[..i + 3] == s[..i] + s[i..i + 3];
    EncodedTriple(s[i..i + 3]);
  }

  lemma {:induction false} EncodedConcat(a: seq<byte>, b: seq<byte>)
    requires |a| % 3 == 0
    ensures Encoded(a + b) == Encoded(a) + Encoded(b)
  {
    hide EncMap, Triple;
    if a == [] {
      assert a + b == b;
    } else {
      EncodedConcat(a[3..], b);
      assert (a + b)[3..] == a[3..] + b;
    }
  }

  method PutTriple(dst: array<byte>, p: nat, c1: byte, c2: byte, c3: byte) returns (q: nat)
    requires p + 4 <= dst.Length
    modifies dst
    ensures q == p + 4 && dst[..q] == old(dst[..p]) + Triple(c1, c2, c3) && dst[q..] == old(dst[q..])
  {
    hide EncMap;
    dst[p] := EncMap(c1 / 4);
    dst[p + 1] := EncMap(c1 % 4 * 16 + c2 / 16);
    dst[p + 2] := EncMap(c2 % 16 * 4 + c3 / 64);
    dst[p + 3] := EncMap(c3 % 64);
    q := p + 4;
    assert dst[..q] == old(dst[..p]) + Triple(c1, c2, c3);
  }

  method PutTail(dst: array<byte>, p: nat, src: seq<byte>, i: nat) returns (q: nat)
    requires p + 4 <= dst.Length && i < |src| <= i + 2
    modifies dst
    ensures q == p + 4 && dst[..q] == old(dst[..p]) + Tail(src[i..]) && dst[q..] == old(dst[q..])
  {
    hide EncMap;
    ghost var t := src[i..];
    assert t[0] == src[i] && (|t| == 2 ==> t[1] == src[i + 1]);
    var c1 := src[i];
    var c2: byte := if i + 1 < |src| then src[i + 1] else 0;
    dst[p] := EncMap(c1 / 4);
    dst[p + 1] := EncMap(c1 % 4 * 16 + c2 / 16);
    dst[p + 2] := if i + 1 < |src| then EncMap(c2 % 16 * 4) else PAD;
    dst[p + 3] := PAD;
    q := p + 4;
    assert dst[..q] == old(dst[..p]) + Tail(t);
  }

  /** Whole triples. */
  method PutTriples(dst: array<byte>, src: seq<byte>) returns (i: nat, p: nat)
    requires |Encoded(src)| <= dst.Length
    modifies dst
    ensures i == |src| / 3 * 3 && p == i / 3 * 4 <= |Encoded(src)|
    ensures dst[..p] == Encoded(src[..i]) && dst[p..] == old(dst[p..])
  {
    hide Encoded, Triple, Tail;
    EncodedLength(src);
    var n := |src| / 3 * 3;
    i, p := 0, 0;
    assert src[..0] == [] && Encoded([]) == [] by {
      EncodedLength([]);
    }
    while i < n
      invariant 0 <= i <= n && i % 3 == 0 && p == i / 3 * 4
      invariant dst[..p] == Encoded(src[..i])
      invariant dst[p..] == old(dst[p..])
    {
      var c1, c2, c3 := src[i], src[i + 1], src[i + 2];
      EncodedStep(src, i);
      ghost var rest := dst[p..];
      p := PutTriple(dst, p, c1, c2, c3);
      assert dst[p..] == rest[4..];
      i := i + 3;
    }
  }

  /** The two copying parts: whole triples, then the padded rest. */
  method PutAll(dst: array<byte>, src: seq<byte>) returns (p: nat)
    requires |Encoded(src)| <= dst.Length
    modifies dst
    ensures p == |Encoded(src)| && dst[..p] == Encoded(src) && dst[p..] == old(dst[p..])
  {
    hide Encoded, Triple, Tail;
    EncodedLength(src);
    var i;
    i, p := PutTriples(dst, src);
    EncodedConcat(src[..i], src[i..]);
    assert src == src[..i] + src[i..];
    if i < |src| {
      ghost var rest := dst[p..];
      p := PutTail(dst, p, src, i);
      assert dst[p..] == rest[4..];
      TailEncoded(src[i..]);
    } else {
      EncodedLength(src[i..]);
    }
  }

  /** *olen is always set; it counts the terminating NUL only when the buffer is too small. */
  method Encode(dst: array?<byte>, dlen: nat, src: seq<byte>) returns (status: Status, olen: nat)
    requires dst != null ==> dlen <= dst.Length
    requires |src| <= SIZE_T_MAX
    modifies dst
    ensures olen <= SIZE_T_MAX
    ensures var need := |Encoded(src)| + 1;
            status == if src == [] || (need <= SIZE_T_MAX && need <= dlen && dst != null) then Success
                else BufferTooSmall
    ensures status == BufferTooSmall ==>
              olen == if |Encoded(src)| + 1 <= SIZE_T_MAX then |Encoded(src)| + 1 else SIZE_T_MAX
    ensures status == Success ==> olen == |Encoded(src)|
    ensures status == Success && src != [] ==> dst[..olen] == Encoded(src) && dst[olen] == 0
    ensures dst != null && (src == [] || status != Success) ==> dst[..] == old(dst[..])
    ensures dst != null && src != [] && status == Success ==> dst[olen + 1..] == old(dst[olen + 1..])
  {
    hide Encoded;
    EncodedLength(src);
    if |src| == 0 {
      return Success, 0;
    }
    var n := |src| / 3 + if |src| % 3 != 0 then 1 else 0;
    if n > (SIZE_T_MAX - 1) / 4 {
      return BufferTooSmall, SIZE_T_MAX;
    }
    n := n * 4;
    if dlen < n + 1 || dst == null {
      return BufferTooSmall, n + 1;
    }
    var p := PutAll(dst, src);
    dst[p] := 0;
    return Success, p;
  }

  // ---------------------------------------------------------------- decoder, first pass

  lemma SymbolsPrefix(a: seq<byte>, b: seq<byte>)
    requires SymbolsOk(a + b)
    ensures SymbolsOk(a)
  {
    hide Pads, DecMap;
    PadsConcat(a, b);
    var t := a + b;
    assert forall i :: 0 <= i < |a| ==> t[i] == a[i];
  }

  /** Which character may follow legal symbols. */
  lemma SymbolsStep(t: seq<byte>, c: byte)
    requires SymbolsOk(t)
    ensures Pads(t + [c]) == Pads(t) + if c == PAD then 1 else 0
    ensures SymbolsOk(t + [c]) <==> if c == PAD then Pads(t) < 2 else Symbol(c) && Pads(t) == 0
  {
    assert (t + [c])[..|t|] == t;
    if c != PAD && Pads(t) > 0 {
      var i := |t| - Pads(t);
      PadsAtEnd(t, i);
      assert (t + [c])[i] == PAD && (t + [c])[|t|] == c;
    } else if c != PAD {
      forall i | 0 <= i < |t|
        ensures t[i] != PAD
      {
        PadsAtEnd(t, i);
      }
    }
  }

  lemma StripStep(s: seq<byte>, i: nat)
    requires i < |s|
    ensures Strip(s[..i + 1]) == if Layout(s[i]) then Strip(s[..i]) else Strip(s[..i]) + [s[i]]
  {
    assert s[..i + 1][..i] == s[..i];
  }

  predicate LayoutUpTo(s: seq<byte>, i: nat)
    requires i <= |s|
  {
    && (forall k :: 0 <= k < i && s[k] == CR ==> k + 1 < |s| && s[k + 1] == LF)
    && (forall k :: 0 <= k < i && !Layout(s[k]) ==> SpaceRun(s, k) % 0x1_0000_0000 == 0)
  }

  /** What the first pass has established in front of position i. */
  predicate Checked(s: seq<byte>, i: nat, n: nat, j: nat)
    requires i <= |s|
  {
    && LayoutUpTo(s, i)
    && SymbolsOk(Strip(s[..i])) && n == |Strip(s[..i])| && j == Pads(Strip(s[..i]))
  }

  lemma CheckedStart(s: seq<byte>)
    ensures Checked(s, 0, 0, 0)
  {
  }

  lemma CheckedEnd(s: seq<byte>, n: nat, j: nat)
    requires Checked(s, |s|, n, j)
    ensures Legal(s) && n == |Strip(s)| && j == Pads(Strip(s))
  {
    assert s[..|s|] == s;
  }

  /** A space, an LF or the CR of a CRLF changes nothing. */
  lemma CheckedLayout(s: seq<byte>, i: nat, n: nat, j: nat)
    requires i < |s| && Checked(s, i, n, j) && Layout(s[i])
    requires s[i] == CR ==> i + 1 < |s| && s[i + 1] == LF
    ensures Checked(s, i + 1, n, j)
  {
    hide SymbolsOk, Pads, SpaceRun, Strip;
    StripStep(s, i);
  }

  /** Any other character is accepted or refused as the four tests of the loop say. */
  lemma CheckedChar(s: seq<byte>, i: nat, n: nat, j: nat, x: nat)
    requires i < |s| && Checked(s, i, n, j) && s[i] != SP && s[i] != LF
    requires s[i] == CR ==> !(i + 1 < |s| && s[i + 1] == LF)
    requires x == SpaceRun(s, i) % 0x1_0000_0000
    ensures var c := s[i]; var j' := if c == PAD then j + 1 else j;
            if x != 0 || j' > 2 || DecMap(c) == 127 || (DecMap(c) < 64 && j' != 0) then !Legal(s)
            else Checked(s, i + 1, n + 1, j')
  {
    hide SpaceRun, Strip, SymbolsOk, Pads;
    var c, t := s[i], Strip(s[..i]);
    SymbolsStep(t, c);
    StripStep(s, i);
    if s[i] != CR {
      assert s == s[..i + 1] + s[i + 1..];
      StripConcat(s[..i + 1], s[i + 1..]);
      if SymbolsOk(Strip(s)) {
        SymbolsPrefix(t + [c], Strip(s[i + 1..]));
      }
    }
  }

  /** Counts the spaces in front of the next other character; the counter wraps at 32 bits. */
  method CheckSpaces(src: seq<byte>, from: nat, ghost n: nat, ghost j: nat) returns (i: nat, x: nat)
    requires from < |src| && Checked(src, from, n, j) && SpaceRun(src, from) == 0
    ensures from <= i <= |src| && Checked(src, i, n, j) && (i < |src| ==> src[i] != SP)
    ensures SpaceRun(src, i) == i - from && x == (i - from) % 0x1_0000_0000
  {
    hide Checked, DecMap, Strip;
    i, x := from, 0;
    while i < |src| && src[i] == SP
      invariant from <= i <= |src| && Checked(src, i, n, j)
      invariant SpaceRun(src, i) == i - from && x == (i - from) % 0x1_0000_0000
    {
      CheckedLayout(src, i, n, j);
      i := i + 1;
      x := (x + 1) % 0x1_0000_0000;
    }
  }

  /** Accepts exactly the legal texts, and counts their symbols and pads. */
  method CheckPass(src: seq<byte>) returns (ok: bool, n: nat, j: nat)
    ensures ok <==> Legal(src)
    ensures ok ==> n == |Strip(src)| && j == Pads(Strip(src))
  {
    hide Checked, Legal, DecMap, Strip;
    var i := 0;
    n, j := 0, 0;
    CheckedStart(src);
    while i < |src|
      invariant i <= |src| && Checked(src, i, n, j) && (i < |src| ==> SpaceRun(src, i) == 0)
    {
      var x;
      i, x := CheckSpaces(src, i, n, j);
      if i == |src| {
        break;
      }
      if |src| - i >= 2 && src[i] == CR && src[i + 1] == LF {
        CheckedLayout(src, i, n, j);
        i := i + 1;
        continue;
      }
      if src[i] == LF {
        CheckedLayout(src, i, n, j);
        i := i + 1;
        continue;
      }
      CheckedChar(src, i, n, j, x);
      if x != 0 {
        return false, n, j;
      }
      if src[i] == PAD {
        j := j + 1;
        if j > 2 {
          return false, n, j;
        }
      }
      if DecMap(src[i]) == 127 {
        return false, n, j;
      }
      if DecMap(src[i]) < 64 && j != 0 {
        return false, n, j;
      }
      n := n + 1;
      i := i + 1;
    }
    CheckedEnd(src, n, j);
    ok := true;
  }

  // ---------------------------------------------------------------- decoder, second pass

  /** The value of up to four sextets. */
  function Acc(t: seq<byte>): int {
    if t == [] then 0 else Acc(t[..|t| - 1]) * 64 + Sextet(t[|t| - 1])
  }

  // 64^n
  function Window(n: nat): int {
    if n == 0 then 1 else if n == 1 then 0x40 else if n == 2 then 0x1000 else if n == 3 then 0x4_0000 else 0x100_0000
  }

  lemma AccStep0(x: int, v: int)
    requires 0 <= v < 64
    ensures (x * 64 + v) % 0x1_0000_0000 % 0x40 == v
  {
  }

  lemma AccStep1(x: int, v: int)
    requires 0 <= v < 64
    ensures (x * 64 + v) % 0x1_0000_0000 % 0x1000 == x % 0x40 * 64 + v
  {
    var q, w := x / 0x40, (x * 64 + v) / 0x1_0000_0000;
    assert (x * 64 + v) % 0x1_0000_0000 == 0x1000 * (q - 0x10_0000 * w) + (x % 0x40 * 64 + v);
  }

  lemma AccStep2(x: int, v: int)
    requires 0 <= v < 64
    ensures (x * 64 + v) % 0x1_0000_0000 % 0x4_0000 == x % 0x1000 * 64 + v
  {
    var q, w := x / 0x1000, (x * 64 + v) / 0x1_0000_0000;
    assert (x * 64 + v) % 0x1_0000_0000 == 0x4_0000 * (q - 0x4000 * w) + (x % 0x1000 * 64 + v);
  }

  lemma AccStep3(x: int, v: int)
    requires 0 <= v < 64
    ensures (x * 64 + v) % 0x1_0000_0000 % 0x100_0000 == x % 0x4_0000 * 64 + v
  {
    var q, w := x / 0x4_0000, (x * 64 + v) / 0x1_0000_0000;
    assert (x * 64 + v) % 0x1_0000_0000 == 0x100_0000 * (q - 0x100 * w) + (x % 0x4_0000 * 64 + v);
  }

  /** The accumulator is never reset and wraps at 32 bits, but its low bits are the last sextets. */
  lemma AccStep(x: int, v: int, n: nat)
    requires n < 4 && 0 <= v < 64
    ensures (x * 64 + v) % 0x1_0000_0000 % Window(n + 1) == x % Window(n) * 64 + v
  {
    if n == 0 {
      AccStep0(x, v);
    } else if n == 1 {
      AccStep1(x, v);
    } else if n == 2 {
      AccStep2(x, v);
    } else {
      AccStep3(x, v);
    }
  }

  /** The three bytes cut out of the accumulator. */
  lemma AccBytes(x: int, v0: int, v1: int, v2: int, v3: int)
    requires 0 <= v0 < 64 && 0 <= v1 < 64 && 0 <= v2 < 64 && 0 <= v3 < 64
    requires x % 0x100_0000 == ((v0 * 64 + v1) * 64 + v2) * 64 + v3
    ensures x / 0x1_0000 % 256 == v0 * 4 + v1 / 16
    ensures x / 0x100 % 256 == v1 % 16 * 16 + v2 / 4
    ensures x % 256 == v2 % 4 * 64 + v3
  {
    var b0, b1, b2 := v0 * 4 + v1 / 16, v1 % 16 * 16 + v2 / 4, v2 % 4 * 64 + v3;
    assert ((v0 * 64 + v1) * 64 + v2) * 64 + v3 == 0x1_0000 * b0 + 0x100 * b1 + b2;
    CutBytes(x, b0, b1, b2);
  }

  lemma CutBytes(x: int, b0: int, b1: int, b2: int)
    requires 0 <= b0 < 256 && 0 <= b1 < 256 && 0 <= b2 < 256
    requires x % 0x100_0000 == 0x1_0000 * b0 + 0x100 * b1 + b2
    ensures x / 0x1_0000 % 256 == b0 && x / 0x100 % 256 == b1 && x % 256 == b2
  {
    var q := x / 0x100_0000;
    assert x == 0x100 * (0x1_0000 * q + 0x100 * b0 + b1) + b2;
    assert x / 0x100 == 0x100 * (0x100 * q + b0) + b1;
    assert x == 0x1_0000 * (0x100 * q + b0) + (0x100 * b1 + b2);
    assert x / 0x1_0000 == 0x100 * q + b0;
  }

  lemma {:induction false} DecodedConcat(a: seq<byte>, b: seq<byte>)
    requires |a| % 4 == 0
    ensures Decoded(a + b) == Decoded(a) + Decoded(b)
  {
    hide Quartet;
    if a == [] {
      assert a + b == b;
    } else {
      var q := Quartet(a[0], a[1], a[2], a[3]);
      DecodedConcat(a[4..], b);
      assert (a + b)[4..] == a[4..] + b;
      assert q + (Decoded(a[4..]) + Decoded(b)) == (q + Decoded(a[4..])) + Decoded(b);
    }
  }

  lemma DecodedShort(t: seq<byte>)
    ensures |t| < 4 ==> Decoded(t) == []
    ensures |t| == 4 ==> Decoded(t) == Quartet(t[0], t[1], t[2], t[3])
  {
  }

  lemma DecodedStepAt(head: seq<byte>, rest: seq<byte>, c: byte)
    requires |head| % 4 == 0
    ensures |rest| < 3 ==> Decoded(head + rest + [c]) == Decoded(head + rest)
    ensures |rest| == 3 ==> Decoded(head + rest + [c]) == Decoded(head + rest) + Quartet(rest[0], rest[1], rest[2], c)
  {
    hide Quartet, Decoded;
    assert head + rest + [c] == head + (rest + [c]);
    DecodedConcat(head, rest);
    DecodedConcat(head, rest + [c]);
    DecodedShort(rest);
    DecodedShort(rest + [c]);
  }

  // state of the loop after whole quartets and a rest of fewer than four symbols
  predicate Consumed(head: seq<byte>, rest: seq<byte>, j: int, x: int) {
    |head| % 4 == 0 && |rest| < 4 && j == 3 - Pads(head + rest) && x % Window(|rest|) == Acc(rest)
  }

  /** The bytes that the loop stores when it completes a quartet. */
  function Emitted(j: int, x: int): (r: seq<byte>)
    requires 1 <= j <= 3
    ensures |r| == j
  {
    [x / 0x1_0000 % 256, x / 0x100 % 256, x % 256][..j]
  }

  /** One more symbol: three add nothing yet, the fourth one stores its quartet. */
  lemma ConsumedStep(head: seq<byte>, rest: seq<byte>, c: byte, j: int, x: int)
    requires SymbolsOk(head + rest + [c]) && Consumed(head, rest, j, x)
    ensures var j' := if DecMap(c) == 64 then j - 1 else j;
            var x' := (x * 64 + Sextet(c)) % 0x1_0000_0000;
            var t, t' := head + rest, head + rest + [c];
            && 1 <= j' <= 3
            && (|rest| < 3 ==> Consumed(head, rest + [c], j', x') && Decoded(t') == Decoded(t))
            && (|rest| == 3 ==> Consumed(t', [], j', x') && Decoded(t') == Decoded(t) + Emitted(j', x'))
  {
    hide Decoded, SymbolsOk, Quartet, DecMap, Pads, Acc, Window, Emitted, Sextet;
    PadsStep(head + rest, c);
    DecodedStepAt(head, rest, c);
    WindowStep(rest, c, x);
    assert head + rest + [c] == head + (rest + [c]);
    if |rest| == 3 {
      QuartetStep(head, rest, c, j, x);
    }
  }

  lemma WindowStep(rest: seq<byte>, c: byte, x: int)
    requires |rest| < 4 && x % Window(|rest|) == Acc(rest)
    ensures (x * 64 + Sextet(c)) % 0x1_0000_0000 % Window(|rest| + 1) == Acc(rest + [c])
  {
    hide Window, Acc, Sextet;
    AccStep(x, Sextet(c), |rest|);
    AccAppend(rest, c);
  }

  lemma QuartetStep(head: seq<byte>, rest: seq<byte>, c: byte, j: int, x: int)
    requires SymbolsOk(head + rest + [c]) && Consumed(head, rest, j, x) && |rest| == 3
    ensures var j' := if DecMap(c) == 64 then j - 1 else j;
            var x' := (x * 64 + Sextet(c)) % 0x1_0000_0000;
            var t, t' := head + rest, head + rest + [c];
            1 <= j' <= 3 && Consumed(t', [], j', x') && Decoded(t') == Decoded(t) + Emitted(j', x')
  {
    hide Decoded, SymbolsOk, Quartet, DecMap, Pads, Acc, Window, Emitted, Sextet;
    var x' := (x * 64 + Sextet(c)) % 0x1_0000_0000;
    PadsStep(head + rest, c);
    DecodedStepAt(head, rest, c);
    WindowStep(rest, c, x);
    Acc4(rest + [c]);
    WindowEnds(x');
    assert head + rest + [c] == head + (rest + [c]);
    QuartetEmitted(head, rest + [c], x');
    assert head + rest + [c] + [] == head + rest + [c];
  }

  lemma AccAppend(u: seq<byte>, c: byte)
    ensures Acc(u + [c]) == Acc(u) * 64 + Sextet(c)
  {
  }

  lemma WindowEnds(x: int)
    ensures x % Window(0) == 0 == Acc([]) && Window(4) == 0x100_0000
  {
  }

  lemma PadsStep(t: seq<byte>, c: byte)
    requires SymbolsOk(t + [c])
    ensures Pads(t + [c]) == Pads(t) + (if DecMap(c) == 64 then 1 else 0) <= 2
  {
  }

  lemma Acc4(u: seq<byte>)
    requires |u| == 4
    ensures Acc(u) == ((Sextet(u[0]) * 64 + Sextet(u[1])) * 64 + Sextet(u[2])) * 64 + Sextet(u[3])
  {
    hide Sextet;
    assert u[..3][..2] == u[..2] && u[..2][..1] == u[..1] && u[..1][..0] == [];
    assert Acc(u[..1]) == Sextet(u[0]);
    assert Acc(u[..2]) == Sextet(u[0]) * 64 + Sextet(u[1]);
    assert Acc(u[..3]) == (Sextet(u[0]) * 64 + Sextet(u[1])) * 64 + Sextet(u[2]);
  }

  lemma QuartetEmitted(head: seq<byte>, q: seq<byte>, x: int)
    requires SymbolsOk(head + q) && |q| == 4 && x % 0x100_0000 == Acc(q)
    ensures 1 <= 3 - Pads(head + q) <= 3
    ensures Quartet(q[0], q[1], q[2], q[3]) == Emitted(3 - Pads(head + q), x)
  {
    hide Pads, DecMap, Sextet, Acc;
    var s, m := head + q, |head|;
    Acc4(q);
    AccBytes(x, Sextet(q[0]), Sextet(q[1]), Sextet(q[2]), Sextet(q[3]));
    PadsAtEnd(s, m);
    PadsAtEnd(s, m + 1);
    PadsAtEnd(s, m + 2);
    PadsAtEnd(s, m + 3);
  }

  /** One symbol of the text: the accumulator takes it, and every fourth one stores a quartet. */
  method TakeSymbol(dst: array<byte>, p0: nat, c: byte, n0: nat, j0: int, x0: int, ghost head0: seq<byte>,
                    ghost rest0: seq<byte>)
    returns (p: nat, n: nat, j: int, x: int, ghost head: seq<byte>, ghost rest: seq<byte>)
    requires SymbolsOk(head0 + rest0 + [c]) && Consumed(head0, rest0, j0, x0) && n0 == |rest0| < 4
    requires p0 == |Decoded(head0 + rest0)| && |Decoded(head0 + rest0 + [c])| <= dst.Length
    requires p0 <= dst.Length && dst[..p0] == Decoded(head0 + rest0)
    modifies dst
    ensures head + rest == head0 + rest0 + [c] && Consumed(head, rest, j, x) && n == |rest| < 4
    ensures p0 <= p == |Decoded(head + rest)| <= dst.Length && dst[..p] == Decoded(head + rest)
    ensures forall k :: p <= k < dst.Length ==> dst[k] == old(dst[k])
  {
    hide Decoded, SymbolsOk, Consumed, DecMap, Sextet, Emitted, Pads;
    p, n, j, x, head, rest := p0, n0 + 1, j0, x0, head0, rest0 + [c];
    ConsumedStep(head0, rest0, c, j, x);
    assert head + rest == head0 + rest0 + [c];
    if DecMap(c) == 64 {
      j := j - 1;
    }
    x := (x * 64 + Sextet(c)) % 0x1_0000_0000;
    if n == 4 {
      n := 0;
      p := Emit(dst, p, j, x);
      head, rest := head0 + rest0 + [c], [];
      assert head + rest == head;
    }
  }

  method DecodePass(dst: array<byte>, src: seq<byte>) returns (p: nat)
    requires Legal(src) && |Decoded(Strip(src))| <= dst.Length
    modifies dst
    ensures p == |Decoded(Strip(src))| && dst[..p] == Decoded(Strip(src)) && dst[p..] == old(dst[p..])
  {
    hide Strip, Decoded, SymbolsOk, Consumed, DecMap, Sextet, LayoutOk, Layout, Emitted, Pads, Legal;
    LegalSymbols(src);
    ghost var head: seq<byte>, rest: seq<byte> := [], [];
    var i, n, j, x := 0, 0, 3, 0;
    p := 0;
    ConsumedNothing(src);
    while i < |src|
      invariant i <= |src| && Strip(src[..i]) == head + rest && Consumed(head, rest, j, x) && n == |rest| < 4
      invariant p == |Decoded(head + rest)| <= dst.Length && dst[..p] == Decoded(head + rest)
      invariant forall k :: p <= k < dst.Length ==> dst[k] == old(dst[k])
    {
      var c := src[i];
      StripStep(src, i);
      i := i + 1;
      LayoutChar(c);
      if c == CR || c == LF || c == SP {
        continue;
      }
      StrippedPrefix(src, i);
      p, n, j, x, head, rest := TakeSymbol(dst, p, c, n, j, x, head, rest);
    }
    assert src[..i] == src;
  }

  lemma LegalSymbols(src: seq<byte>)
    requires Legal(src)
    ensures SymbolsOk(Strip(src))
  {
  }

  lemma LayoutChar(c: byte)
    ensures Layout(c) <==> c == CR || c == LF || c == SP
  {
  }

  lemma ConsumedNothing(src: seq<byte>)
    ensures Consumed([], [], 3, 0) && Strip(src[..0]) == [] && Decoded(Strip(src[..0])) == []
  {
  }

  /** Every prefix of a legal text has legal symbols and decodes to a prefix of the bytes. */
  lemma StrippedPrefix(src: seq<byte>, i: nat)
    requires SymbolsOk(Strip(src)) && i <= |src|
    ensures SymbolsOk(Strip(src[..i])) && |Decoded(Strip(src[..i]))| <= |Decoded(Strip(src))|
  {
    hide Strip, Decoded, SymbolsOk;
    assert src == src[..i] + src[i..];
    StripConcat(src[..i], src[i..]);
    SymbolsPrefix(Strip(src[..i]), Strip(src[i..]));
    DecodedPrefix(Strip(src[..i]), Strip(src[i..]));
  }

  lemma {:induction false} DecodedPrefix(a: seq<byte>, b: seq<byte>)
    ensures |Decoded(a)| <= |Decoded(a + b)|
  {
    hide Quartet;
    if |a| >= 4 {
      DecodedPrefix(a[4..], b);
      assert (a + b)[4..] == a[4..] + b;
    }
  }

  method Emit(dst: array<byte>, p: nat, j: int, x: int) returns (q: nat)
    requires 1 <= j <= 3 && p + j <= dst.Length
    modifies dst
    ensures q == p + j && dst[..q] == old(dst[..p]) + Emitted(j, x)
    ensures forall k :: q <= k < dst.Length ==> dst[k] == old(dst[k])
  {
    q := p;
    if j > 0 {
      dst[q] := x / 0x1_0000 % 256;
      q := q + 1;
    }
    if j > 1 {
      dst[q] := x / 0x100 % 256;
      q := q + 1;
    }
    if j > 2 {
      dst[q] := x % 256;
      q := q + 1;
    }
    assert dst[..q] == old(dst[..p]) + Emitted(j, x);
  }

  /** *olen is not set when the text is refused. */
  method Decode(dst: array?<byte>, dlen: nat, src: seq<byte>) returns (status: Status, olen: Option<nat>)
    requires dst != null ==> dlen <= dst.Length
    modifies dst
    ensures var t := Strip(src); var need := Announced(|t|, Pads(t));
            if !Legal(src) then status == InvalidCharacter && olen == None
            else if t == [] then status == Success && olen == Some(0)
            else if dst == null || dlen < need then status == BufferTooSmall && olen == Some(need)
            else status == Success && olen == Some(|Decoded(t)|) && |Decoded(t)| <= need <= dlen
    ensures status == Success && Strip(src) != [] ==>
              dst[..olen.value] == Decoded(Strip(src)) && dst[olen.value..] == old(dst[olen.value..])
    ensures dst != null && (status != Success || Strip(src) == []) ==> dst[..] == old(dst[..])
  {
    hide Strip, Decoded, SymbolsOk, LayoutOk, Pads;
    var ok, n, j := CheckPass(src);
    if !ok {
      return InvalidCharacter, None;
    }
    AnnouncedLength(Strip(src));
    if n == 0 {
      return Success, Some(0);
    }
    n := 6 * (n / 8) + (6 * (n % 8) + 7) / 8;
    n := n - j;
    if dst == null || dlen < n {
      return BufferTooSmall, Some(n);
    }
    var p := DecodePass(dst, src);
    return Success, Some(p);
  }

  /** The decoder takes the encoder's text, announces exactly the length of the encoder's input and gives it back. */
  lemma CodecRoundTrip(src: seq<byte>)
    ensures var text := Encoded(src);
            && Legal(text) && Decoded(Strip(text)) == src
            && Announced(|Strip(text)|, Pads(Strip(text))) == |src|
  {
    hide Encoded, Decoded, Strip, SymbolsOk, LayoutOk, Pads;
    DecodeEncode(src);
    EncodedLegal(src);
    EncodedWhole(src);
    AnnouncedLength(Encoded(src));
  }
}
