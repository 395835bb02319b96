/** Vocabulary shared by the models: bytes, optional values and C strings. */
module Bytes {
  type byte = x: int | 0 <= x < 256

  datatype Option<+T> = None | Some(value: T)

  /** The C string that starts a buffer: everything before the first NUL. */
  function CStr(s: seq<byte>): (r: seq<byte>)
    ensures 0 !in r && |r| <= |s| && r <= s
    ensures |r| < |s| ==> s[|r|] == 0
  {
    if s == [] || s[0] == 0 then [] else [s[0]] + CStr(s[1..])
  }

  function Zeros(n: nat): (r: seq<byte>)
    ensures |r| == n && forall i :: 0 <= i < n ==> r[i] == 0
  {
    seq(n, _ => 0)
  }

  /** A C string is what precedes the first NUL, whatever follows it. */
  lemma {:induction false} CStrOfTerminated(s: seq<byte>, rest: seq<byte>)
    requires 0 !in s
    requires rest == [] || rest[0] == 0
    ensures CStr(s + rest) == s
  {
    if s != [] {
      assert s[0] in s;
      assert (s + rest)[1..] == s[1..] + rest;
      CStrOfTerminated(s[1..], rest);
    } else {
      assert s + rest == rest;
    }
  }

  /** Nothing behind a NUL counts. */
  lemma {:induction false} CStrBefore(s: seq<byte>, rest: seq<byte>)
    requires rest != [] && rest[0] == 0
    ensures CStr(s + rest) == CStr(s)
  {
    if s == [] {
      assert s + rest == rest;
    } else {
      assert (s + rest)[1..] == s[1..] + rest;
      CStrBefore(s[1..], rest);
    }
  }

  /** strncmp(a, b, n) == 0, where b ends in a NUL and a holds at least n bytes. */
  predicate StrNCmpEq(a: seq<byte>, b: seq<byte>, n: nat)
    requires n <= |a| && 0 in b
    decreases n
  {
    n == 0 || (a[0] == b[0] && (a[0] == 0 || StrNCmpEq(a[1..], b[1..], n - 1)))
  }

  function Take(s: seq<byte>, n: nat): (r: seq<byte>)
  {
    if |s| <= n then s else s[..n]
  }

  lemma TakeShort(s: seq<byte>, n: nat)
    ensures |s| <= n ==> Take(s, n) == s
  {
  }

  lemma TakePrefix(s: seq<byte>, n: nat)
    requires n <= |s|
    ensures Take(s, n) == s[..n]
  {
  }

  lemma TakeStep(x: seq<byte>, y: seq<byte>, n: nat)
    requires x != [] && y != [] && n > 0
    ensures Take(x, n) == Take(y, n) <==> x[0] == y[0] && Take(x[1..], n - 1) == Take(y[1..], n - 1)
  {
    assert Take(x, n) == [x[0]] + Take(x[1..], n - 1);
    assert Take(y, n) == [y[0]] + Take(y[1..], n - 1);
    assert Take(x[1..], n - 1) == Take(x, n)[1..] && Take(y[1..], n - 1) == Take(y, n)[1..];
  }

  lemma TakeEnds(x: seq<byte>, y: seq<byte>, n: nat)
    requires n == 0 || x == [] || y == []
    ensures Take(x, n) == Take(y, n) <==> n == 0 || x == y
  {
  }

  /** strncmp over NUL-terminated text compares the first n characters and nothing else. */
  lemma {:induction false} StrNCmpEqMeaning(x: seq<byte>, pad: seq<byte>, y: seq<byte>, n: nat)
    requires 0 !in x && 0 !in y
    requires pad == [] || pad[0] == 0
    requires n <= |x + pad|
    ensures StrNCmpEq(x + pad, y + [0], n) <==> Take(x, n) == Take(y, n)
    decreases n
  {
    hide Take;
    var a, b := x + pad, y + [0];
    assert b[|y|] == 0;
    if n == 0 {
      TakeEnds(x, y, n);
    } else if x == [] || y == [] {
      TakeEnds(x, y, n);
      assert x != [] ==> x[0] in x;
      assert y != [] ==> y[0] in y;
      assert x == [] ==> a[0] == 0;
    } else {
      assert x[0] in x && y[0] in y;
      assert a[1..] == x[1..] + pad && b[1..] == y[1..] + [0];
      StrNCmpEqMeaning(x[1..], pad, y[1..], n - 1);
      TakeStep(x, y, n);
    }
  }

  /** The bytes of a text. */
  function Ascii(s: string): (r: seq<byte>)
    ensures |r| == |s| && forall i :: 0 <= i < |s| && s[i] < '\U{80}' ==> r[i] == s[i] as int
  {
    seq(|s|, i requires 0 <= i < |s| => s[i] as int % 128)
  }

  lemma AsciiSlice(s: string, lo: nat, hi: nat)
    requires lo <= hi <= |s|
    ensures Ascii(s)[lo..hi] == Ascii(s[lo..hi])
  {
  }

  lemma AsciiConcat(a: string, b: string)
    ensures Ascii(a + b) == Ascii(a) + Ascii(b)
  {
  }
}
