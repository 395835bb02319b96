/** The command line parser: cuts a line into keys and values by writing NULs into it. The tokens are named
    by their positions in the line; what they say is read from the line as it was before the call. */
module CliParser {
  import opened Bytes
  import opened CliReader

  const SPACE: byte := 32
  const EQUALS: byte := 61

  // a key text[ks..ke] and perhaps a value text[vs..ve]
  datatype Param = Param(ks: nat, ke: nat, val: Option<(nat, nat)>) {
    function End(): nat {
      if val.Some? then val.value.1 else ke
    }

    predicate Within(n: nat) {
      ks <= ke <= End() <= n && (val.Some? ==> ke < val.value.0 <= val.value.1)
    }
  }

  datatype Parsed = Parsed(params: Option<seq<Param>>, mid: Option<(nat, nat)>)

  // ---------------------------------------------------------------- tokens

  predicate StopsWord(c: byte) {
    c == SPACE || c == EQUALS
  }

  function SkipSpaces(s: seq<byte>, i: nat): (j: nat)
    requires i <= |s|
    ensures i <= j <= |s| && (j < |s| ==> s[j] != SPACE)
    ensures forall k :: i <= k < j ==> s[k] == SPACE
    decreases |s| - i
  {
    if i < |s| && s[i] == SPACE then SkipSpaces(s, i + 1) else i
  }

  function WordEnd(s: seq<byte>, i: nat): (j: nat)
    requires i <= |s|
    ensures i <= j <= |s| && (j < |s| ==> StopsWord(s[j]))
    ensures forall k :: i <= k < j ==> !StopsWord(s[k])
    decreases |s| - i
  {
    if i < |s| && !StopsWord(s[i]) then WordEnd(s, i + 1) else i
  }

  function NextQuote(s: seq<byte>, i: nat): (j: nat)
    requires i <= |s|
    ensures i <= j <= |s| && (j < |s| ==> s[j] == QUOTE)
    ensures forall k :: i <= k < j ==> s[k] != QUOTE
    decreases |s| - i
  {
    if i < |s| && s[i] != QUOTE then NextQuote(s, i + 1) else i
  }

  // the value that begins after '=', and where parsing goes on
  function Value(s: seq<byte>, c: nat): (r: Option<(nat, nat)>)
    requires c <= |s|
    ensures r.Some? ==> c <= r.value.0 <= r.value.1 <= |s|
  {
    if c < |s| && (s[c] == SEMICOLON || s[c] == SPACE) then None
    else
      var quoted := c < |s| && s[c] == QUOTE;
      var v := if quoted then c + 1 else c;
      if v == |s| then None
      else if !quoted then Some((v, WordEnd(s, v)))
      else
        var q := NextQuote(s, v);
        if q == |s| then None else Some((v, q))
  }

  /** The parameter whose key starts at i. */
  function ParamAt(s: seq<byte>, i: nat): (r: Option<Param>)
    requires i < |s| && s[i] != SPACE
    ensures r.Some? ==> r.value.Within(|s|) && r.value.ks == i && After(s, r.value) > i
  {
    var e := WordEnd(s, i);
    if e == |s| || s[e] == SPACE then Some(Param(i, e, None))
    else
      var v := Value(s, e + 1);
      if v.None? then None else Some(Param(i, e, v))
  }

  /** What stands behind '=': nothing, ';', a space and an open quote are refused; a quoted value is everything up to
      the next quote, and a plain one everything up to a space, an '=' or the end. */
  lemma ValueMeaning(s: seq<byte>, c: nat)
    requires c <= |s|
    ensures Value(s, c) == None <==>
            || c == |s| || s[c] == 59 || s[c] == 32
            || (s[c] == 34 && forall k :: c < k < |s| ==> s[k] != 34)
    ensures var v := Value(s, c);
            v.Some? ==>
              var lo, hi := v.value.0, v.value.1;
              if s[c] == 34 then
                lo == c + 1 && hi < |s| && s[hi] == 34 && forall k :: lo <= k < hi ==> s[k] != 34
              else
                && lo == c && (hi < |s| ==> s[hi] == 32 || s[hi] == 61)
                && forall k :: lo <= k < hi ==> s[k] != 32 && s[k] != 61
  {
    hide WordEnd, NextQuote;
  }

  /** A parameter: the key is everything up to a space, an '=' or the end, and a value belongs to it exactly if an
      '=' follows. */
  lemma ParamMeaning(s: seq<byte>, i: nat)
    requires i < |s| && s[i] != 32
    ensures var e := WordEnd(s, i);
            && (forall k :: i <= k < e ==> s[k] != 32 && s[k] != 61) && (e < |s| ==> s[e] == 32 || s[e] == 61)
            && (ParamAt(s, i) == None <==> e < |s| && s[e] == 61 && Value(s, e + 1) == None)
            && (ParamAt(s, i).Some? ==>
                  var p := ParamAt(s, i).value;
                  && p.ks == i && p.ke == e && p.val == (if e < |s| && s[e] == 61 then Value(s, e + 1) else None)
                  // the character behind a value is passed, and the one behind a lone key is not
                  && After(s, p) == p.End() + (if p.val.Some? && p.End() < |s| then 1 else 0)
                  // key "mid"
                  && (IsMid(s, p) <==> p.val.Some? && s[i..e] == [109, 105, 100]))
  {
    hide WordEnd, Value;
  }

  // parsing goes on behind the character that ends a value, but on the one that ends a lone key
  function After(s: seq<byte>, p: Param): (j: nat)
    requires p.Within(|s|)
    ensures p.End() <= j <= |s|
  {
    if p.val.Some? && p.End() < |s| then p.End() + 1 else p.End()
  }

  const MID: seq<byte> := [109, 105, 100]

  predicate IsMid(s: seq<byte>, p: Param)
    requires p.Within(|s|)
  {
    p.val.Some? && s[p.ks..p.ke] == MID
  }

  /** All parameters from i on, appended to those found so far. There must be room for one more than there are. */
  function ParseFrom(s: seq<byte>, i: nat, found: Parsed, size: nat): Parsed
    requires i <= |s| && found.params.Some?
    decreases |s| - i
  {
    if |found.params.value| >= size then found.(params := None)
    else
      var j := SkipSpaces(s, i);
      if j == |s| then found
      else
        var p := ParamAt(s, j);
        if p.None? then found.(params := None)
        else ParseFrom(s, After(s, p.value), Add(s, found, p.value), size)
  }

  function Add(s: seq<byte>, found: Parsed, p: Param): (r: Parsed)
    requires p.Within(|s|) && found.params.Some?
    ensures r.params.Some?
  {
    if IsMid(s, p) then found.(mid := p.val) else found.(params := Some(found.params.value + [p]))
  }

  function Parse(s: seq<byte>, size: nat): Parsed {
    ParseFrom(s, 0, Parsed(Some([]), None), size)
  }

  // ---------------------------------------------------------------- in place

  predicate Same(m: seq<byte>, s: seq<byte>, lo: nat, hi: nat)
    requires hi <= |s| && hi <= |m|
  {
    forall k :: lo <= k < hi ==> m[k] == s[k]
  }

  // the memory m still spells out the parameter as the line s did
  predicate Spelled(m: seq<byte>, s: seq<byte>, p: Param)
    requires |s| < |m|
  {
    && p.Within(|s|)
    && Same(m, s, p.ks, p.ke)
    && (p.val.Some? ==> Same(m, s, p.val.value.0, p.val.value.1) && m[p.val.value.1] == 0)
  }

  /** What a caller may rely on: unchanged slices of the line, in order, disjoint and NUL-terminated. */
  predicate Sliced(m: seq<byte>, s: seq<byte>, ps: seq<Param>)
    requires |s| < |m|
  {
    && (forall k :: 0 <= k < |ps| ==> Spelled(m, s, ps[k]) && m[ps[k].ke] == 0)
    && (forall k :: 0 < k < |ps| ==> ps[k - 1].End() < ps[k].ks)
  }

  // how far this is true with everything before position i parsed: a lone key may still end in its space, at i
  predicate Placed(m: seq<byte>, s: seq<byte>, ps: seq<Param>, i: nat)
    requires |s| < |m|
  {
    && (forall k :: 0 <= k < |ps| ==> PlacedAt(m, s, ps[k], i))
    && (forall k :: 0 < k < |ps| ==> ps[k - 1].End() < ps[k].ks)
  }

  predicate PlacedAt(m: seq<byte>, s: seq<byte>, p: Param, i: nat)
    requires |s| < |m|
  {
    Spelled(m, s, p) && p.End() <= i && (m[p.ke] == 0 || (p.ke == i && m[i] == SPACE))
  }

  // m holds the rest of s from i on, still untouched
  predicate Rest(m: seq<byte>, s: seq<byte>, i: nat) {
    i <= |s| < |m| && Same(m, s, i, |s|) && m[|s|] == 0
  }

  method SkipLeadingWhitespace(cl: array<byte>, ghost s: seq<byte>, i: nat) returns (j: nat)
    requires Rest(cl[..], s, i) && 0 !in s
    modifies cl
    ensures j == SkipSpaces(s, i) && Rest(cl[..], s, j)
    ensures Same(cl[..], old(cl[..]), 0, i) && forall k :: i <= k < j ==> cl[k] == 0
    ensures forall k :: j <= k < cl.Length ==> cl[k] == old(cl[k])
  {
    j := i;
    while cl[j] == SPACE
      invariant i <= j <= |s| < cl.Length && SkipSpaces(s, j) == SkipSpaces(s, i)
      invariant forall k :: 0 <= k < i || j <= k < cl.Length ==> cl[k] == old(cl[k])
      invariant forall k :: i <= k < j ==> cl[k] == 0
      invariant forall k :: j <= k < |s| ==> cl[k] == s[k]
      invariant cl[|s|] == 0
      decreases |s| - j
    {
      cl[j] := 0;
      j := j + 1;
    }
  }

  method FindNextSpaceEqEol(cl: array<byte>, ghost s: seq<byte>, i: nat) returns (j: nat)
    requires Rest(cl[..], s, i) && 0 !in s
    ensures j == WordEnd(s, i)
  {
    j := i;
    while cl[j] != 0 && cl[j] != SPACE && cl[j] != EQUALS
      invariant i <= j <= |s| && WordEnd(s, j) == WordEnd(s, i)
      decreases |s| - j
    {
      j := j + 1;
    }
    assert j < |s| ==> s[j] in s;
  }

  /** strchr(cl, '"') */
  method FindQuote(cl: array<byte>, ghost s: seq<byte>, i: nat) returns (j: Option<nat>)
    requires Rest(cl[..], s, i) && 0 !in s
    ensures j == if NextQuote(s, i) == |s| then None else Some(NextQuote(s, i))
  {
    var k := i;
    while cl[k] != 0 && cl[k] != QUOTE
      invariant i <= k <= |s| && NextQuote(s, k) == NextQuote(s, i)
      decreases |s| - k
    {
      k := k + 1;
    }
    assert k < |s| ==> s[k] in s;
    j := if cl[k] == QUOTE then Some(k) else None;
  }

  lemma KeptBySkip(m: seq<byte>, m2: seq<byte>, s: seq<byte>, ps: seq<Param>, i: nat, j: nat)
    requires Rest(m, s, i) && 0 !in s && Placed(m, s, ps, i)
    requires i <= j && Rest(m2, s, j) && Same(m2, m, 0, i) && (i < j ==> m2[i] == 0) && m2[j] != SPACE
    requires i == j ==> m2[i] == m[i]
    ensures Placed(m2, s, ps, j) && Sliced(m2, s, ps)
  {
  }

  lemma KeptByParam(m: seq<byte>, m2: seq<byte>, s: seq<byte>, ps: seq<Param>, j: nat, p: Param, next: nat)
    requires Rest(m, s, j) && 0 !in s && j < |s| < |m2| && Same(m2, m, 0, j) && j <= next
    requires Placed(m, s, ps, j) && Sliced(m, s, ps)
    requires PlacedAt(m2, s, p, next) && p.ks == j
    ensures Placed(m2, s, ps, next) && Placed(m2, s, ps + [p], next)
  {
    forall k | 0 <= k < |ps|
      ensures PlacedAt(m2, s, ps[k], next) && ps[k].End() < j
    {
      KeptByParamAt(m, m2, s, ps[k], j, next);
    }
  }

  lemma KeptByParamAt(m: seq<byte>, m2: seq<byte>, s: seq<byte>, p: Param, j: nat, next: nat)
    requires Rest(m, s, j) && 0 !in s && j < |s| < |m2| && Same(m2, m, 0, j) && j <= next
    requires PlacedAt(m, s, p, j) && m[p.ke] == 0
    ensures PlacedAt(m2, s, p, next) && p.End() < j
  {
  }

  /** What follows '=': the value, and the NUL behind it. */
  method ParseValue(cl: array<byte>, ghost s: seq<byte>, c: nat) returns (v: Option<(nat, nat)>, next: nat)
    requires Rest(cl[..], s, c) && 0 !in s
    modifies cl
    ensures v == Value(s, c) && Same(cl[..], old(cl[..]), 0, c)
    ensures v.Some? ==> next == (if v.value.1 < |s| then v.value.1 + 1 else |s|) && Rest(cl[..], s, next)
    ensures v.Some? ==> Same(cl[..], s, v.value.0, v.value.1) && cl[v.value.1] == 0
  {
    hide WordEnd, NextQuote;
    next := c;
    assert c < |s| ==> s[c] in s;
    if cl[next] == SEMICOLON || cl[next] == SPACE {
      return None, next;
    }
    var quoted := cl[next] == QUOTE;
    if quoted {
      next := next + 1;
    }
    assert next < |s| ==> s[next] in s;
    if cl[next] == 0 {
      return None, next;
    }
    var vs := next;
    if quoted {
      var q := FindQuote(cl, s, vs);
      if q == None {
        return None, next;
      }
      next := q.value;
    } else {
      next := FindNextSpaceEqEol(cl, s, vs);
    }
    v := Some((vs, next));
    assert next < |s| ==> s[next] in s;
    if cl[next] != 0 {
      cl[next] := 0;
      next := next + 1;
    }
  }

  /** The key at i, and its value when '=' follows: the body of the loop, up to the storing. */
  method ParseParam(cl: array<byte>, ghost s: seq<byte>, i: nat) returns (p: Option<Param>, next: nat)
    requires Rest(cl[..], s, i) && 0 !in s && i < |s| && s[i] != SPACE
    modifies cl
    ensures p == ParamAt(s, i)
    ensures p.Some? ==> next == After(s, p.value) && Rest(cl[..], s, next) && PlacedAt(cl[..], s, p.value, next)
    ensures Same(cl[..], old(cl[..]), 0, i)
  {
    hide WordEnd, Value;
    next := FindNextSpaceEqEol(cl, s, i);
    assert next < |s| ==> s[next] in s;
    if cl[next] == 0 || cl[next] == SPACE {
      p := Some(Param(i, next, None));
      return;
    }
    var ke := next;
    cl[ke] := 0;
    var v, after := ParseValue(cl, s, ke + 1);
    p := if v == None then None else Some(Param(i, ke, v));
    next := after;
  }

  /** strcmp(key, "mid") == 0 */
  method KeyIsMid(cl: array<byte>, ghost s: seq<byte>, p: Param, ghost i: nat) returns (r: bool)
    requires |s| < cl.Length && 0 !in s && PlacedAt(cl[..], s, p, i) && p.val.Some?
    ensures r <==> s[p.ks..p.ke] == MID
  {
    var k := p.ks;
    assert forall j :: p.ks <= j < p.ke ==> cl[j] == s[p.ks..p.ke][j - p.ks] == s[j] && s[j] in s;
    r := cl[k] == MID[0] && cl[k + 1] == MID[1] && cl[k + 2] == MID[2] && cl[k + 3] == 0;
  }

  lemma NonePlaced(m: seq<byte>, s: seq<byte>)
    requires |s| < |m|
    ensures Placed(m, s, [], 0)
  {
  }

  lemma ParseStep(s: seq<byte>, i: nat, found: Parsed, size: nat)
    requires i <= |s| && found.params.Some?
    ensures var j := SkipSpaces(s, i);
            ParseFrom(s, i, found, size) ==
            if |found.params.value| >= size then found.(params := None)
            else if j == |s| then found
            else if ParamAt(s, j) == None then found.(params := None)
            else ParseFrom(s, After(s, ParamAt(s, j).value), Add(s, found, ParamAt(s, j).value), size)
  {
  }

  /** cli_parseCommandline. n is the number of parameters, or -1. */
  method ParseCommandline(cl: array<byte>, par: array<Param>) returns (n: int, mid: Option<(nat, nat)>)
    requires 0 in cl[..]
    modifies cl, par
    ensures var s := CStr(old(cl[..]));
            var r := Parse(s, par.Length);
            && mid == r.mid
            && n == (if r.params.Some? then |r.params.value| else -1)
            && (n >= 0 ==> n < par.Length && par[..n] == r.params.value)
            && (n >= 0 ==> |s| < cl.Length && Sliced(cl[..], s, par[..n]))
  {
    hide ParseFrom, ParamAt, After, SkipSpaces, Placed, Sliced, PlacedAt, CStr;
    ghost var s := CStr(cl[..]);
    NonePlaced(cl[..], s);
    var pos, p := 0, 0;
    mid := None;
    while p < par.Length
      invariant p <= par.Length && Rest(cl[..], s, pos)
      invariant ParseFrom(s, pos, Parsed(Some(par[..p]), mid), par.Length) == Parse(s, par.Length)
      invariant Placed(cl[..], s, par[..p], pos)
      decreases |s| - pos
    {
      ghost var before, from, ps := cl[..], pos, par[..p];
      ParseStep(s, pos, Parsed(Some(ps), mid), par.Length);
      pos := SkipLeadingWhitespace(cl, s, pos);
      KeptBySkip(before, cl[..], s, ps, from, pos);
      if cl[pos] == 0 {
        return p, mid;
      }
      ghost var skipped := cl[..];
      var q, next := ParseParam(cl, s, pos);
      if q == None {
        return -1, mid;
      }
      KeptByParam(skipped, cl[..], s, ps, pos, q.value, next);
      par[p] := q.value;
      assert par[..p] == ps && par[..p + 1] == ps + [q.value];
      pos := next;
      var isMid := false;
      if q.value.val.Some? {
        isMid := KeyIsMid(cl, s, q.value, next);
      }
      if isMid {
        mid := q.value.val;
      } else {
        p := p + 1;
      }
    }
    ParseStep(s, pos, Parsed(Some(par[..p]), mid), par.Length);
    return -1, mid;
  }
}
