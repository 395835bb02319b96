/** parse_and_process_json: JSON commands are handed to handlers as C strings that are cut out of the
    text in place, by writing a NUL behind each token. */
module CliJson {
  import opened Bytes
  import opened Jsmn

  const JSON_KEY: seq<byte> := [106, 115, 111, 110]
  const PAR_LEN := 20

  // inside the text, with a character behind it
  predicate Enclosed(json: seq<byte>, t: Tok) { 0 <= t.start <= t.end < |json| }

  /** What the parser guarantees of a text: strings and primitives lie inside it, hold no NUL, and
      follow each other with at least one character in between. */
  predicate Separated(json: seq<byte>, toks: seq<Tok>) {
    && (forall i :: 0 <= i < |toks| && IsLeaf(toks[i]) ==>
          Enclosed(json, toks[i]) && 0 !in json[toks[i].start..toks[i].end])
    && (forall i, j :: 0 <= i < j < |toks| && IsLeaf(toks[i]) && IsLeaf(toks[j]) ==> toks[i].end < toks[j].start)
  }

  // ---------------------------------------------------------------- the walk over the tokens

  // what a char pointer shows; None is the null pointer
  type CharPtr = Option<seq<byte>>

  datatype Call = Handler(name: CharPtr, pairs: seq<(CharPtr, CharPtr)>) | Hook(valueTok: nat)

  /** How a walk ends: regularly, with a store behind the end of clpar par[20], with a read behind the last
      token, or with a failed assertion. After the second and the third anything may happen. */
  datatype Fate = Fine | Overrun | Outside | Aborted

  datatype Walk = Walk(calls: seq<Call>, q: nat, fate: Fate)

  function Chars(json: seq<byte>, t: Tok): CharPtr { if IsLeaf(t) then Some(Text(json, t)) else None }

  // n pairs of tokens from position b on
  function PairToks(toks: seq<Tok>, b: nat, n: nat): (ts: seq<(Tok, Tok)>)
    requires b + 2 * n <= |toks|
    ensures |ts| == n
  {
    if n == 0 then [] else PairToks(toks, b, n - 1) + [(toks[b + 2 * n - 2], toks[b + 2 * n - 1])]
  }

  function Texts(json: seq<byte>, ts: seq<(Tok, Tok)>): seq<(CharPtr, CharPtr)> {
    if ts == [] then []
    else Texts(json, ts[..|ts| - 1]) + [(Chars(json, ts[|ts| - 1].0), Chars(json, ts[|ts| - 1].1))]
  }

  datatype Filled = Filled(n: nat, fate: Fate)

  /** How many pairs go to the array behind the name, when i are there and size are asked for. */
  function Fill(toks: seq<Tok>, b: nat, i: nat, size: int): (f: Filled)
    requires b + 2 * i <= |toks|
    ensures i <= f.n && b + 2 * f.n <= |toks|
    decreases |toks| - 2 * i
  {
    if i >= size || b + 2 * i == |toks| then Filled(i, Fine)
    else if 1 + i >= PAR_LEN then Filled(i, Overrun)
    else if b + 2 * i + 1 == |toks| then Filled(i, Outside)
    else Fill(toks, b, i + 1, size)
  }

  predicate IsJsonKey(json: seq<byte>, t: Tok) { t.typ == STRING && Text(json, t) == JSON_KEY }

  /** parse_and_process_jsmn at token p. */
  function Turn(json: seq<byte>, toks: seq<Tok>, p: nat, hook: bool): (w: Walk)
    requires p < |toks|
    ensures p <= w.q <= |toks|
  {
    if p + 1 == |toks| then Walk([], p, Outside)
    else if toks[p + 1].typ == OBJECT && !IsJsonKey(json, toks[p]) then
      var f := Fill(toks, p + 2, 0, toks[p + 1].size);
      if f.fate != Fine then Walk([], p, f.fate)
      else Walk([Handler(Chars(json, toks[p]), Texts(json, PairToks(toks, p + 2, f.n)))], p + 2 + 2 * f.n, Fine)
    else
      var r := AfterKeyAndValue(toks, p);
      Walk(if toks[p + 1].typ == OBJECT && hook then [Hook(p + 1)] else [], r.q, if r.ok then Fine else Aborted)
  }

  /** The loop of parse_and_process_json: count more members from token p on. */
  function WalkFrom(json: seq<byte>, toks: seq<Tok>, p: nat, count: int, hook: bool): (w: Walk)
    requires p <= |toks|
    ensures p <= w.q <= |toks|
    decreases count
  {
    if count <= 0 || p == |toks| then Walk([], p, Fine)
    else
      var t := Turn(json, toks, p, hook);
      if t.fate != Fine then t
      else
        var r := WalkFrom(json, toks, t.q, count - 1, hook);
        Walk(t.calls + r.calls, r.q, r.fate)
  }

  // ---------------------------------------------------------------- what it means for a document

  /** Every value is one token: a string, a primitive, or an empty object or array. */
  predicate SingleTokens(ms: Members) {
    match ms case MNil => true case MCons(_, v, rest) => |Flat(v)| == 1 && SingleTokens(rest)
  }

  predicate IsCommand(json: seq<byte>, k: Tok, v: Tree) { v.Obj? && !IsJsonKey(json, k) }

  /** A member that the walk can take: a command has at most 19 pairs, and no nested values. */
  predicate Takes(json: seq<byte>, k: Tok, v: Tree) {
    IsCommand(json, k, v) ==> SingleTokens(v.members) && Count(v.members) < PAR_LEN
  }

  predicate Regular(json: seq<byte>, ms: Members) {
    match ms case MNil => true case MCons(k, v, rest) => Takes(json, k, v) && Regular(json, rest)
  }

  /** The first member that the walk cannot take is a command with 20 pairs or more. */
  predicate OverrunsFirst(json: seq<byte>, ms: Members) {
    match ms
    case MNil => false
    case MCons(k, v, rest) =>
      if Takes(json, k, v) then OverrunsFirst(json, rest) else Count(v.members) >= PAR_LEN
  }

  /** Keys and values in document order; the value of an empty object or array is a null pointer. */
  function Pairs(json: seq<byte>, ms: Members): seq<(CharPtr, CharPtr)> {
    match ms
    case MNil => []
    case MCons(k, v, rest) => [(Some(Text(json, k)), Chars(json, v.tok))] + Pairs(json, rest)
  }

  /** The calls that members make which start at token p, in document order. */
  function Calls(json: seq<byte>, ms: Members, p: nat, hook: bool): seq<Call> {
    match ms
    case MNil => []
    case MCons(k, v, rest) => CallsOf(json, k, v, p, hook) + Calls(json, rest, p + 1 + |Flat(v)|, hook)
  }

  function CallsOf(json: seq<byte>, k: Tok, v: Tree, p: nat, hook: bool): seq<Call> {
    if IsCommand(json, k, v) then [Handler(Some(Text(json, k)), Pairs(json, v.members))]
    else if v.Obj? && hook then [Hook(p + 1)]
    else []
  }

  /** Token by token: an object under exactly the four characters of "json" goes to the hook, any other object to its
      handler under exactly its name, and anything else nowhere. */
  lemma CallsMeaning(json: seq<byte>, ms: Members, p: nat, hook: bool)
    requires ms.MCons? && ms.key.typ == STRING && 0 <= ms.key.start <= ms.key.end <= |json|
    ensures var name := json[ms.key.start..ms.key.end];
            Calls(json, ms, p, hook) ==
            (if !ms.value.Obj? then []
             else if name == [106, 115, 111, 110] then (if hook then [Hook(p + 1)] else [])
             else [Handler(Some(name), Pairs(json, ms.value.members))]) +
              Calls(json, ms.rest, p + 1 + |Flat(ms.value)|, hook)
  {
    hide Pairs;
  }

  /** A command is taken with at most 19 pairs whose values are all single tokens. */
  lemma TakesMeaning(json: seq<byte>, k: Tok, v: Tree)
    requires k.typ == STRING && 0 <= k.start <= k.end <= |json|
    ensures Takes(json, k, v) <==>
            || !v.Obj? || json[k.start..k.end] == [106, 115, 111, 110]
            || (Count(v.members) <= 19 && forall i :: 0 <= i < Count(v.members) ==> SingleAt(v.members, i))
  {
    hide SingleTokens, Text;
    TextIs(json, k);
    if v.Obj? {
      SingleIff(v.members);
    }
  }

  predicate SingleAt(ms: Members, i: nat)
    requires i < Count(ms)
  {
    |Flat(Nth(ms, i).value)| == 1
  }

  lemma {:induction false} SingleIff(ms: Members)
    ensures SingleTokens(ms) <==> forall i :: 0 <= i < Count(ms) ==> SingleAt(ms, i)
  {
    hide Flat;
    if ms.MCons? {
      SingleIff(ms.rest);
      assert SingleAt(ms, 0) <==> |Flat(ms.value)| == 1;
      assert forall i :: 0 < i < Count(ms) ==> SingleAt(ms, i) == SingleAt(ms.rest, i - 1);
      assert forall i :: 0 <= i < Count(ms.rest) ==> SingleAt(ms.rest, i) == SingleAt(ms, i + 1);
    }
  }

  /** Pair i of a command is the text of key i and, if it is a string or a primitive, that of value i. */
  lemma {:induction false} PairsAt(json: seq<byte>, ms: Members, i: nat)
    requires i < Count(ms) && 0 <= Nth(ms, i).key.start <= Nth(ms, i).key.end <= |json|
    requires var t := Nth(ms, i).value.tok; IsLeaf(t) ==> 0 <= t.start <= t.end <= |json|
    ensures var k, t := Nth(ms, i).key, Nth(ms, i).value.tok;
            && |Pairs(json, ms)| == Count(ms) && Pairs(json, ms)[i].0 == Some(json[k.start..k.end])
            && Pairs(json, ms)[i].1 == if IsLeaf(t) then Some(json[t.start..t.end]) else None
    decreases ms
  {
    hide Text, Chars;
    PairsCount(json, ms);
    if i > 0 {
      PairsAt(json, ms.rest, i - 1);
    } else {
      TextIs(json, ms.key);
      CharsIs(json, ms.value.tok);
    }
  }

  lemma {:induction false} PairsCount(json: seq<byte>, ms: Members)
    ensures |Pairs(json, ms)| == Count(ms)
  {
    if ms.MCons? {
      PairsCount(json, ms.rest);
    }
  }

  lemma TextIs(json: seq<byte>, t: Tok)
    requires 0 <= t.start <= t.end <= |json|
    ensures Text(json, t) == json[t.start..t.end]
  {
  }

  lemma CharsIs(json: seq<byte>, t: Tok)
    requires IsLeaf(t) ==> 0 <= t.start <= t.end <= |json|
    ensures Chars(json, t) == if IsLeaf(t) then Some(json[t.start..t.end]) else None
  {
  }

  /** Wherever a cursor stands in a value, a value starts there that ends inside. */
  lemma {:induction false} Subtree(toks: seq<Tok>, s: nat, v: Tree, p: nat) returns (u: Tree)
    requires WF(v) && At(toks, s, Flat(v)) && s <= p < s + |Flat(v)|
    ensures WF(u) && At(toks, p, Flat(u)) && p + |Flat(u)| <= s + |Flat(v)|
    decreases v
  {
    hide At, Flat;
    u := v;
    if p > s {
      match v
      case Leaf(_) => FlatKinds(v);
      case Arr(tok, items) =>
        ArrayAt(toks, s, v);
        u := SubtreeOfItems(toks, s + 1, items, p);
      case Obj(tok, members) =>
        ObjectAt(toks, s, v);
        u := SubtreeOfMembers(toks, s + 1, members, p);
    }
  }

  lemma {:induction false} SubtreeOfItems(toks: seq<Tok>, s: nat, ts: Trees, p: nat) returns (u: Tree)
    requires WFItems(ts) && At(toks, s, FlatItems(ts)) && s <= p < s + |FlatItems(ts)|
    ensures WF(u) && At(toks, p, Flat(u)) && p + |Flat(u)| <= s + |FlatItems(ts)|
    decreases ts
  {
    hide At, Flat;
    AtSplit(toks, s, Flat(ts.head), FlatItems(ts.tail));
    if p < s + |Flat(ts.head)| {
      u := Subtree(toks, s, ts.head, p);
    } else {
      u := SubtreeOfItems(toks, s + |Flat(ts.head)|, ts.tail, p);
    }
  }

  lemma {:induction false} SubtreeOfMembers(toks: seq<Tok>, s: nat, ms: Members, p: nat) returns (u: Tree)
    requires WFMembers(ms) && At(toks, s, FlatMembers(ms)) && s <= p < s + |FlatMembers(ms)|
    ensures WF(u) && At(toks, p, Flat(u)) && p + |Flat(u)| <= s + |FlatMembers(ms)|
    decreases ms
  {
    hide At, Flat;
    MemberAt(toks, s, ms);
    if p == s {
      u := Leaf(ms.key);
      KeyAt(toks, p, ms.key);
    } else if p < s + 1 + |Flat(ms.value)| {
      u := Subtree(toks, s + 1, ms.value, p);
    } else {
      u := SubtreeOfMembers(toks, s + 1 + |Flat(ms.value)|, ms.rest, p);
    }
  }

  lemma FlatKinds(v: Tree)
    ensures v.Leaf? ==> |Flat(v)| == 1
    ensures v.Obj? ==> |Flat(v)| == 1 + |FlatMembers(v.members)|
  {
  }

  lemma ArrayAt(toks: seq<Tok>, s: nat, v: Tree)
    requires v.Arr? && At(toks, s, Flat(v))
    ensures At(toks, s + 1, FlatItems(v.items)) && |Flat(v)| == 1 + |FlatItems(v.items)|
  {
    AtSplit(toks, s, [v.tok], FlatItems(v.items));
  }

  lemma KeyAt(toks: seq<Tok>, p: nat, key: Tok)
    requires p < |toks| && toks[p] == key && key.typ == STRING
    ensures At(toks, p, Flat(Leaf(key))) && |Flat(Leaf(key))| == 1 && WF(Leaf(key))
  {
    assert toks[p..p + 1] == [key];
  }

  /** Members take at least two tokens each, and exactly two if all values are single tokens. */
  lemma {:induction false} TwoEach(ms: Members)
    ensures |FlatMembers(ms)| >= 2 * Count(ms) && (|FlatMembers(ms)| == 2 * Count(ms) <==> SingleTokens(ms))
  {
    hide Flat;
    if ms.MCons? {
      TwoEach(ms.rest);
    }
  }

  /** With enough tokens the array is filled, or overrun. */
  lemma {:induction false} FillEnough(toks: seq<Tok>, b: nat, i: nat, size: nat)
    requires i <= size && b + 2 * size <= |toks| && i < PAR_LEN
    ensures Fill(toks, b, i, size) == if size < PAR_LEN then Filled(size, Fine) else Filled(PAR_LEN - 1, Overrun)
    decreases size - i
  {
    if i < size && 1 + i < PAR_LEN {
      FillEnough(toks, b, i + 1, size);
    }
  }

  /** A turn at p, when a value starts at p + 1: it never leaves the tokens, no assertion fails, and it ends
      inside the value or behind it. */
  lemma TurnInside(json: seq<byte>, toks: seq<Tok>, p: nat, v: Tree, hook: bool)
    requires p + 1 < |toks| && WF(v) && At(toks, p + 1, Flat(v))
    ensures IsCommand(json, toks[p], v) ==>
        && p + 2 + 2 * Count(v.members) <= p + 1 + |Flat(v)| <= |toks|
        && (p + 2 + 2 * Count(v.members) == p + 1 + |Flat(v)| <==> SingleTokens(v.members))
    ensures var w := Turn(json, toks, p, hook);
            if IsCommand(json, toks[p], v) then
              w == if Count(v.members) >= PAR_LEN then Walk([], p, Overrun)
                   else Walk([Handler(Chars(json, toks[p]), Texts(json, PairToks(toks, p + 2, Count(v.members))))],
                             p + 2 + 2 * Count(v.members), Fine)
            else
              w == Walk(if v.Obj? && hook then [Hook(p + 1)] else [], p + 1 + |Flat(v)|, Fine)
  {
    hide Flat, At, Chars, Texts, PairToks, Fill, SingleTokens, AfterValue, IsJsonKey;
    ValueToken(toks, p + 1, v);
    if IsCommand(json, toks[p], v) {
      FlatKinds(v);
      ValueEnds(toks, p + 1, v);
      TwoEach(v.members);
      FillEnough(toks, p + 2, 0, Count(v.members));
    } else {
      SkipTree(toks, p + 1, v);
    }
  }

  lemma ValueToken(toks: seq<Tok>, p: nat, v: Tree)
    requires WF(v) && At(toks, p, Flat(v))
    ensures p < |toks| && toks[p] == v.tok && (v.Obj? <==> toks[p].typ == OBJECT)
    ensures v.Obj? ==> toks[p].size == Count(v.members)
  {
    assert toks[p] == toks[p..p + |Flat(v)|][0];
  }

  lemma ValueEnds(toks: seq<Tok>, p: nat, v: Tree)
    requires At(toks, p, Flat(v))
    ensures p + |Flat(v)| <= |toks|
  {
  }

  /** The cursor stands in the first of the members from s on, and no more than the others are to come. */
  predicate Lags(toks: seq<Tok>, p: nat, count: int, ms: Members, s: nat) {
    && ms.MCons? && WFMembers(ms) && At(toks, s, FlatMembers(ms)) && s + |FlatMembers(ms)| == |toks|
    && s <= p < s + 1 + |Flat(ms.value)| && count <= Count(ms.rest)
  }

  /** One turn of a walk that lags behind: it goes on lagging, in the same member or in the next. */
  lemma LagTurn(json: seq<byte>, toks: seq<Tok>, p: nat, count: int, ms: Members, s: nat, hook: bool)
      returns (ms': Members, s': nat)
    requires Lags(toks, p, count, ms, s) && count > 0
    ensures p < |toks|
    ensures var t := Turn(json, toks, p, hook);
            t.fate == Overrun || (t.fate == Fine && Lags(toks, t.q, count - 1, ms', s'))
    ensures Turn(json, toks, p, hook).q < |toks|
  {
    hide Flat, At, Turn, FlatMembers, WF;
    MemberAt(toks, s, ms);
    var e := s + 1 + |Flat(ms.value)|;
    NextMember(toks, e, ms.rest);
    ms', s' := ms.rest, e;
    if p + 1 == e {
      KeyAt(toks, e, ms.rest.key);
      TurnInside(json, toks, p, Leaf(ms.rest.key), hook);
    } else {
      var u := Subtree(toks, s + 1, ms.value, p + 1);
      TurnInside(json, toks, p, u, hook);
      if Turn(json, toks, p, hook).q < e {
        ms', s' := ms, s;
      }
    }
  }

  lemma NextMember(toks: seq<Tok>, e: nat, rest: Members)
    requires At(toks, e, FlatMembers(rest)) && Count(rest) > 0 && WFMembers(rest)
    ensures rest.MCons? && e + 1 < |toks| && toks[e] == rest.key && rest.key.typ == STRING && WFMembers(rest.rest)
    ensures |Flat(rest.value)| > 0 && e + 1 + |Flat(rest.value)| <= |toks|
  {
    hide At, FlatMembers;
    MemberAt(toks, e, rest);
    ValueEnds(toks, e + 1, rest.value);
  }

  /** A walk that lags behind never catches up: it ends in front of the last token's end, with no read outside
      the tokens and no failed assertion. */
  lemma {:induction false} NeverCatchesUp(json: seq<byte>, toks: seq<Tok>, p: nat, count: int, ms: Members, s: nat,
                                          hook: bool)
    requires Lags(toks, p, count, ms, s) && p <= |toks|
    ensures var w := WalkFrom(json, toks, p, count, hook); (w.fate == Fine || w.fate == Overrun) && w.q < |toks|
    decreases count
  {
    hide Turn, Flat, At, FlatMembers;
    LagsInside(toks, p, count, ms, s);
    if count > 0 {
      var ms', s' := LagTurn(json, toks, p, count, ms, s, hook);
      if Turn(json, toks, p, hook).fate == Fine {
        NeverCatchesUp(json, toks, Turn(json, toks, p, hook).q, count - 1, ms', s', hook);
      }
    }
  }

  lemma LagsInside(toks: seq<Tok>, p: nat, count: int, ms: Members, s: nat)
    requires Lags(toks, p, count, ms, s)
    ensures p < |toks|
  {
    hide Flat, At;
  }

  /** The pairs that are read off the tokens are those of the members, if each value is one token. */
  lemma {:induction false} PairsOfTokens(json: seq<byte>, toks: seq<Tok>, b: nat, n: nat, ms: Members)
    requires WFMembers(ms) && SingleTokens(ms) && At(toks, b + 2 * n, FlatMembers(ms))
    ensures b + 2 * (n + Count(ms)) <= |toks|
    ensures Texts(json, PairToks(toks, b, n + Count(ms))) == Texts(json, PairToks(toks, b, n)) + Pairs(json, ms)
    decreases ms
  {
    hide At, Chars, Flat, WF, Texts, PairToks, Pairs, Text;
    match ms
    case MNil =>
      TokensEnd(toks, b + 2 * n, FlatMembers(ms));
      NoMorePairs(json, Texts(json, PairToks(toks, b, n)));
    case MCons(k, v, rest) =>
      MemberAt(toks, b + 2 * n, ms);
      PairsOfTokens(json, toks, b, n + 1, rest);
      KeyChars(json, k);
      PairToksStep(toks, b, n);
      TextsStep(json, PairToks(toks, b, n), k, v.tok);
      PairsStep(json, Texts(json, PairToks(toks, b, n)), ms);
  }

  lemma NoMorePairs(json: seq<byte>, a: seq<(CharPtr, CharPtr)>)
    ensures a + Pairs(json, MNil) == a
  {
  }

  lemma TokensEnd(toks: seq<Tok>, p: nat, s: seq<Tok>)
    requires At(toks, p, s)
    ensures p <= |toks|
  {
  }

  lemma KeyChars(json: seq<byte>, k: Tok)
    requires k.typ == STRING
    ensures Chars(json, k) == Some(Text(json, k))
  {
  }

  lemma TextsStep(json: seq<byte>, ts: seq<(Tok, Tok)>, k: Tok, v: Tok)
    ensures Texts(json, ts + [(k, v)]) == Texts(json, ts) + [(Chars(json, k), Chars(json, v))]
  {
  }

  lemma PairsStep(json: seq<byte>, a: seq<(CharPtr, CharPtr)>, ms: Members)
    requires ms.MCons?
    ensures a + Pairs(json, ms) == a + [(Some(Text(json, ms.key)), Chars(json, ms.value.tok))] + Pairs(json, ms.rest)
  {
    hide Text, Chars;
  }

  /** The turn for a member, in step. */
  lemma MemberTurn(json: seq<byte>, toks: seq<Tok>, p: nat, ms: Members, hook: bool)
    requires ms.MCons? && WFMembers(ms) && At(toks, p, FlatMembers(ms))
    ensures p < |toks| && (!Takes(json, ms.key, ms.value) ==> ms.value.Obj?)
    ensures var w := Turn(json, toks, p, hook);
            if Takes(json, ms.key, ms.value) then
              w == Walk(CallsOf(json, ms.key, ms.value, p, hook), p + 1 + |Flat(ms.value)|, Fine)
            else if Count(ms.value.members) >= PAR_LEN then w == Walk([], p, Overrun)
            else w.fate == Fine && p < w.q < p + 1 + |Flat(ms.value)|
  {
    hide At, Flat, Turn, Texts, PairToks, Chars, Pairs, FlatMembers, IsJsonKey;
    MemberAt(toks, p, ms);
    TurnInside(json, toks, p, ms.value, hook);
    if IsCommand(json, ms.key, ms.value) && SingleTokens(ms.value.members) {
      ObjectAt(toks, p + 1, ms.value);
      PairsOfTokens(json, toks, p + 2, 0, ms.value.members);
      NoPairs(json, toks, p + 2, Pairs(json, ms.value.members));
      KeyChars(json, ms.key);
    }
  }

  lemma NoPairs(json: seq<byte>, toks: seq<Tok>, b: nat, s: seq<(CharPtr, CharPtr)>)
    requires b <= |toks|
    ensures Texts(json, PairToks(toks, b, 0)) + s == s
  {
  }

  /** The walk over the members of a document, from the first to the last. It never reads outside the tokens and
      no assertion fails. It reaches the end of the tokens if and only if every command has at most 19 pairs and
      no nested values, and then its calls are those of the document. */
  lemma {:induction false} DocumentWalk(json: seq<byte>, toks: seq<Tok>, p: nat, ms: Members, hook: bool)
    requires WFMembers(ms) && At(toks, p, FlatMembers(ms)) && p + |FlatMembers(ms)| == |toks|
    ensures var w := WalkFrom(json, toks, p, Count(ms), hook);
            && (w.fate == Fine || w.fate == Overrun)
            && (w.fate == Fine && w.q == |toks| <==> Regular(json, ms))
            && (Regular(json, ms) ==> w.calls == Calls(json, ms, p, hook))
            && (OverrunsFirst(json, ms) ==> w.fate == Overrun)
    decreases ms
  {
    hide At, Flat, Turn, CallsOf, Takes, IsCommand;
    match ms
    case MNil =>
    case MCons(k, v, rest) =>
      MemberAt(toks, p, ms);
      MemberTurn(json, toks, p, ms, hook);
      if Takes(json, k, v) {
        DocumentWalk(json, toks, p + 1 + |Flat(v)|, rest, hook);
      } else if Count(v.members) < PAR_LEN {
        NeverCatchesUp(json, toks, Turn(json, toks, p, hook).q, Count(rest), ms, p, hook);
      }
  }

  // ---------------------------------------------------------------- in-place strings

  // a clpar: offsets of the two strings in the text, or null pointers
  datatype Par = Par(key: Option<nat>, val: Option<nat>)

  function CharsAt(buf: seq<byte>, o: Option<nat>): CharPtr {
    if o.Some? && o.value <= |buf| then Some(CStr(buf[o.value..])) else None
  }

  /** Which texts survive: everything behind the last NUL written. */
  predicate Behind(buf: seq<byte>, orig: seq<byte>, last: int) {
    |buf| == |orig| && forall x :: 0 <= x < |buf| && x > last ==> buf[x] == orig[x]
  }

  /** Token t has been terminated and its characters are still there. */
  predicate Terminated(buf: seq<byte>, orig: seq<byte>, t: Tok, last: int) {
    && Enclosed(orig, t) && |buf| == |orig| && t.end <= last && 0 !in orig[t.start..t.end]
    && buf[t.start..t.end] == orig[t.start..t.end] && buf[t.end] == 0
  }

  lemma TerminatedText(buf: seq<byte>, orig: seq<byte>, t: Tok, last: int)
    requires Terminated(buf, orig, t, last)
    ensures CharsAt(buf, Some(t.start)) == Some(Text(orig, t))
  {
    assert buf[t.start..] == buf[t.start..t.end] + buf[t.end..];
    CStrOfTerminated(buf[t.start..t.end], buf[t.end..]);
  }

  /** Writing the next NUL keeps what has been terminated and what lies behind it. */
  lemma TerminateNext(buf: seq<byte>, orig: seq<byte>, t: Tok, last: int)
    requires Behind(buf, orig, last) && Enclosed(orig, t) && last < t.start && 0 !in orig[t.start..t.end]
    ensures var b := buf[t.end := 0]; Behind(b, orig, t.end) && Terminated(b, orig, t, t.end)
    ensures KeepsTerminated(buf, last, buf[t.end := 0], t.end, orig)
  {
  }

  // every token from p on lies behind the last NUL written
  predicate Fresh(toks: seq<Tok>, p: nat, last: int) {
    forall i :: p <= i < |toks| && IsLeaf(toks[i]) ==> last < toks[i].start
  }

  lemma FreshStep(orig: seq<byte>, toks: seq<Tok>, p: nat)
    requires Separated(orig, toks) && p < |toks| && IsLeaf(toks[p])
    ensures Fresh(toks, p + 1, toks[p].end)
    ensures Enclosed(orig, toks[p]) && 0 !in orig[toks[p].start..toks[p].end]
  {
  }

  // the pointer that was taken off token t
  predicate PtrOk(buf: seq<byte>, orig: seq<byte>, s: Option<nat>, t: Tok, last: int) {
    if IsLeaf(t) then t.start >= 0 && s == Some(t.start) && Terminated(buf, orig, t, last) else s == None
  }

  lemma PtrMeaning(buf: seq<byte>, orig: seq<byte>, s: Option<nat>, t: Tok, last: int)
    requires PtrOk(buf, orig, s, t, last)
    ensures CharsAt(buf, s) == Chars(orig, t)
  {
    hide Terminated, Text;
    if IsLeaf(t) {
      TerminatedText(buf, orig, t, last);
    }
  }

  predicate ParsOk(buf: seq<byte>, orig: seq<byte>, pars: seq<Par>, ts: seq<(Tok, Tok)>, last: int) {
    && |pars| == |ts|
    && forall i :: 0 <= i < |ts| ==>
        PtrOk(buf, orig, pars[i].key, ts[i].0, last) && PtrOk(buf, orig, pars[i].val, ts[i].1, last)
  }

  function Strings(buf: seq<byte>, pars: seq<Par>): seq<(CharPtr, CharPtr)> {
    if pars == [] then []
    else Strings(buf, pars[..|pars| - 1]) + [(CharsAt(buf, pars[|pars| - 1].key), CharsAt(buf, pars[|pars| - 1].val))]
  }

  /** What a handler reads through its pointers is what the document says. */
  lemma {:induction false} StringsMeaning(buf: seq<byte>, orig: seq<byte>, pars: seq<Par>, ts: seq<(Tok, Tok)>,
      last: int)
    requires ParsOk(buf, orig, pars, ts, last)
    ensures Strings(buf, pars) == Texts(orig, ts)
  {
    hide PtrOk, CharsAt, Chars;
    if ts != [] {
      var n := |ts| - 1;
      PtrMeaning(buf, orig, pars[n].key, ts[n].0, last);
      PtrMeaning(buf, orig, pars[n].val, ts[n].1, last);
      StringsMeaning(buf, orig, pars[..n], ts[..n], last);
    }
  }

  /** b, with one more NUL, still shows everything that has been terminated in a. */
  ghost predicate KeepsTerminated(a: seq<byte>, last: int, b: seq<byte>, next: int, orig: seq<byte>) {
    forall u :: Terminated(a, orig, u, last) ==> Terminated(b, orig, u, next)
  }

  lemma PtrKept(a: seq<byte>, last: int, b: seq<byte>, next: int, orig: seq<byte>, s: Option<nat>, t: Tok)
    requires PtrOk(a, orig, s, t, last) && KeepsTerminated(a, last, b, next, orig)
    ensures PtrOk(b, orig, s, t, next)
  {
    hide Terminated;
  }

  lemma ParsKept(a: seq<byte>, last: int, b: seq<byte>, next: int, orig: seq<byte>, pars: seq<Par>,
      ts: seq<(Tok, Tok)>)
    requires ParsOk(a, orig, pars, ts, last) && KeepsTerminated(a, last, b, next, orig)
    ensures ParsOk(b, orig, pars, ts, next)
  {
    hide PtrOk, KeepsTerminated;
    forall i | 0 <= i < |ts|
      ensures PtrOk(b, orig, pars[i].key, ts[i].0, next) && PtrOk(b, orig, pars[i].val, ts[i].1, next)
    {
      PtrKept(a, last, b, next, orig, pars[i].key, ts[i].0);
      PtrKept(a, last, b, next, orig, pars[i].val, ts[i].1);
    }
  }

  lemma KeptTwice(a: seq<byte>, la: int, b: seq<byte>, lb: int, c: seq<byte>, lc: int, orig: seq<byte>)
    requires KeepsTerminated(a, la, b, lb, orig) && KeepsTerminated(b, lb, c, lc, orig)
    ensures KeepsTerminated(a, la, c, lc, orig)
  {
    hide Terminated;
  }

  lemma KeptNothing(a: seq<byte>, last: int, orig: seq<byte>)
    ensures KeepsTerminated(a, last, a, last, orig)
  {
    hide Terminated;
  }

  lemma ParsGrow(buf: seq<byte>, orig: seq<byte>, last: int, pars: seq<Par>, ts: seq<(Tok, Tok)>, par: Par,
      t: (Tok, Tok))
    requires ParsOk(buf, orig, pars, ts, last)
    requires PtrOk(buf, orig, par.key, t.0, last) && PtrOk(buf, orig, par.val, t.1, last)
    ensures ParsOk(buf, orig, pars + [par], ts + [t], last)
  {
    hide PtrOk;
  }

  lemma NoParsYet(buf: seq<byte>, orig: seq<byte>, last: int)
    ensures ParsOk(buf, orig, [], [], last)
  {
  }

  // ---------------------------------------------------------------- code

  class Session {
    const json: array<byte>
    const hook: bool
    var log: seq<Call>
    var fate: Fate

    constructor (json: array<byte>, hook: bool)
      ensures this.json == json && this.hook == hook && log == [] && fate == Fine
    {
      this.json := json;
      this.hook := hook;
      log, fate := [], Fine;
    }

    // the text as the parser saw it, but for NULs up to last
    ghost predicate Intact(orig: seq<byte>, it: Iterator, last: int)
      reads this, json, it
    {
      Separated(orig, it.toks) && Behind(json[..], orig, last) && Fresh(it.toks, it.p, last)
    }

    /** it.getValueAsString(): terminates the token in place; null for objects and arrays. */
    method GetValueAsString(t: Tok) returns (s: Option<nat>)
      requires IsLeaf(t) ==> 0 <= t.start && 0 <= t.end < json.Length
      modifies json
      ensures s == if IsLeaf(t) then Some(t.start) else None
      ensures json[..] == if IsLeaf(t) then old(json[..])[t.end := 0] else old(json[..])
    {
      if t.typ != STRING && t.typ != PRIMITIVE {
        return None;
      }
      json[t.end] := 0;
      s := Some(t.start);
    }

    /** it++.getValueAsString(): the characters of a string or primitive can be read from now on, and so can those
        of every token that was terminated before. */
    method TakeString(it: Iterator, ghost orig: seq<byte>, ghost last0: int) returns (s: Option<nat>, ghost last: int)
      requires it.Inside() && Intact(orig, it, last0)
      modifies json, it`p
      ensures it.p == old(it.p) + 1 && Intact(orig, it, last)
      ensures PtrOk(json[..], orig, s, it.toks[old(it.p)], last)
      ensures KeepsTerminated(old(json[..]), last0, json[..], last, orig)
    {
      hide Separated, Behind, Terminated, Fresh, Enclosed, KeepsTerminated;
      var t := it.toks[it.p];
      last := last0;
      if IsLeaf(t) {
        FreshNow(it.toks, it.p, last0);
        FreshStep(orig, it.toks, it.p);
        InBuffer(json[..], orig, last0, t);
        TerminateNext(json[..], orig, t, last0);
        last := t.end;
      } else {
        FreshLater(it.toks, it.p, it.p + 1, last0);
        KeptNothing(json[..], last0, orig);
      }
      s := GetValueAsString(t);
      it.p := it.p + 1;
    }

    /** One turn of the loop over the pairs. */
    method TakePair(it: Iterator, ghost orig: seq<byte>, ghost last0: int, pars: seq<Par>, name: Option<nat>,
        ghost nameTok: Tok, ghost ts: seq<(Tok, Tok)>) returns (more: seq<Par>, ghost last: int)
      requires it.p + 1 < |it.toks| && Intact(orig, it, last0)
      requires ParsOk(json[..], orig, pars, ts, last0) && PtrOk(json[..], orig, name, nameTok, last0)
      modifies json, it`p
      ensures it.p == old(it.p) + 2 && Intact(orig, it, last) && |more| == |pars| + 1
      ensures ParsOk(json[..], orig, more, ts + [(it.toks[old(it.p)], it.toks[old(it.p) + 1])], last)
      ensures PtrOk(json[..], orig, name, nameTok, last)
    {
      hide Separated, Behind, Fresh, KeepsTerminated, ParsOk, PtrOk;
      ghost var b0, p := json[..], it.p;
      var key, val;
      ghost var last1;
      key, last1 := TakeString(it, orig, last0);
      ghost var b1 := json[..];
      val, last := TakeString(it, orig, last1);
      KeptTwice(b0, last0, b1, last1, json[..], last, orig);
      ParsKept(b0, last0, json[..], last, orig, pars, ts);
      PtrKept(b0, last0, json[..], last, orig, name, nameTok);
      PtrKept(b1, last1, json[..], last, orig, key, it.toks[p]);
      more := pars + [Par(key, val)];
      ParsGrow(json[..], orig, last, pars, ts, Par(key, val), (it.toks[p], it.toks[p + 1]));
    }

    /** An object: name and pairs are terminated in place and handed to the handler. */
    method ProcessObject(it: Iterator, ghost orig: seq<byte>, ghost last0: int) returns (ghost last: int)
      requires it.p + 1 < |it.toks| && Intact(orig, it, last0) && fate == Fine
      modifies this`log, this`fate, json, it`p
      ensures var toks, p := it.toks, old(it.p);
              var f := Fill(toks, p + 2, 0, toks[p + 1].size);
              fate == f.fate &&
              if fate != Fine then log == old(log)
              else
                && it.p == p + 2 + 2 * f.n && Intact(orig, it, last)
                && log == old(log) + [Handler(Chars(orig, toks[p]), Texts(orig, PairToks(toks, p + 2, f.n)))]
    {
      hide Separated, Behind, Fresh, ParsOk, PtrOk, Texts, PairToks, Chars, CharsAt, Strings, KeepsTerminated;
      ghost var p, ts: seq<(Tok, Tok)> := it.p, [];
      var name;
      name, last := TakeString(it, orig, last0);
      var pars: seq<Par> := [];
      var count := it.toks[it.p].size;
      FreshLater(it.toks, it.p, it.p + 1, last);
      it.p := it.p + 1;
      NoParsYet(json[..], orig, last);
      NoToks(it.toks, p + 2);
      while count > 0 && it.Inside()
        invariant it.p == p + 2 + 2 * |pars| <= |it.toks| && |pars| < PAR_LEN
        invariant count == it.toks[p + 1].size - |pars|
        invariant Fill(it.toks, p + 2, |pars|, it.toks[p + 1].size) == Fill(it.toks, p + 2, 0, it.toks[p + 1].size)
        invariant Intact(orig, it, last) && PtrOk(json[..], orig, name, it.toks[p], last)
        invariant ts == PairToks(it.toks, p + 2, |pars|) && ParsOk(json[..], orig, pars, ts, last)
        invariant log == old(log) && fate == Fine
        decreases |it.toks| - it.p
      {
        // par[par_idx], behind the name
        if 1 + |pars| >= PAR_LEN {
          fate := Overrun;
          return;
        }
        if it.p + 1 == |it.toks| {
          fate := Outside;
          return;
        }
        ghost var n := |pars|;
        pars, last := TakePair(it, orig, last, pars, name, it.toks[p], ts);
        PairToksStep(it.toks, p + 2, n);
        ts := PairToks(it.toks, p + 2, n + 1);
        count := count - 1;
      }
      StringsMeaning(json[..], orig, pars, ts, last);
      PtrMeaning(json[..], orig, name, it.toks[p], last);
      log := log + [Handler(CharsAt(json[..], name), Strings(json[..], pars))];
    }

    /** parse_and_process_jsmn: one member of the root object, or whatever stands at the cursor. */
    method ProcessMember(it: Iterator, ghost orig: seq<byte>, ghost last0: int) returns (ghost last: int)
      requires it.Inside() && Intact(orig, it, last0) && fate == Fine && !it.assertFailed
      modifies this`log, this`fate, json, it
      ensures var t := Turn(orig, it.toks, old(it.p), hook);
              && fate == t.fate && log == old(log) + t.calls
              && (fate == Fine ==> it.p == t.q && Intact(orig, it, last) && !it.assertFailed)
    {
      hide Separated, Behind, Fresh, AfterValue, Fill, Texts, PairToks, Chars;
      last := last0;
      if it.p + 1 == |it.toks| {
        // it[1] is read behind the last token
        fate := Outside;
        return;
      }
      var t := it.toks[it.p];
      var isObject := it.toks[it.p + 1].typ == OBJECT;
      KeyUntouched(json[..], orig, it.toks, it.p, last);
      assert IsLeaf(t) ==> json[t.start..t.end] == json[..][t.start..t.end];
      if isObject && t.typ == STRING && |JSON_KEY| == t.end - t.start && json[t.start..t.end] == JSON_KEY {
        if hook {
          log := log + [Hook(it.p + 1)];
        }
      } else if isObject {
        last := ProcessObject(it, orig, last);
        return;
      }
      FreshLater(it.toks, it.p, AfterKeyAndValue(it.toks, it.p).q, last);
      var _ := it.SkipKeyAndValue();
      if it.assertFailed {
        fate := Aborted;
      }
    }

    /** parse_and_process_json, for any token array that starts with an object. */
    method ProcessRoot(it: Iterator)
      requires it.toks != [] && it.p == 0 && !it.assertFailed && Separated(json[..], it.toks) && fate == Fine
      modifies this`log, this`fate, json, it
      ensures var w := WalkFrom(old(json[..]), it.toks, 1, it.toks[0].size, hook);
              fate == w.fate && log == old(log) + w.calls && (fate == Fine ==> it.p == w.q && !it.assertFailed)
    {
      hide Separated, Turn;
      ghost var orig, last := json[..], -1;
      FreshStart(orig, it.toks);
      var count := it.toks[0].size;
      it.p := it.p + 1;
      while count > 0 && it.Inside()
        invariant it.p <= |it.toks| && fate == Fine && !it.assertFailed && Intact(orig, it, last)
        invariant var w := WalkFrom(orig, it.toks, 1, it.toks[0].size, hook);
                  var r := WalkFrom(orig, it.toks, it.p, count, hook);
                  w.fate == r.fate && w.q == r.q && old(log) + w.calls == log + r.calls
        decreases count
      {
        last := ProcessMember(it, orig, last);
        if fate != Fine {
          return;
        }
        count := count - 1;
      }
    }

    /** A document that is no object is refused. Otherwise nothing is read outside the tokens and no assertion
        fails; the end of the tokens is reached if and only if every command has at most 19 pairs and no nested
        values. Then every command calls its handler once, in document order, with exactly its name and its pairs,
        although the text is overwritten on the way, and everything else is skipped whole. */
    method ProcessJson(toks: seq<Tok>, ghost root: Tree) returns (ok: bool, it: Iterator)
      requires Parsed(toks, root) && Separated(json[..], toks) && fate == Fine
      modifies this`log, this`fate, json
      ensures ok <==> toks != [] && root.Obj?
      ensures !ok ==> log == old(log) && json[..] == old(json[..]) && fate == Fine
      ensures ok ==> it.toks == toks && (fate == Fine || fate == Overrun)
      ensures ok ==> (fate == Fine && it.p == |toks| <==> Regular(old(json[..]), root.members))
      ensures ok && Regular(old(json[..]), root.members) ==>
          log == old(log) + Calls(old(json[..]), root.members, 1, hook)
      ensures ok && OverrunsFirst(old(json[..]), root.members) ==> fate == Overrun
    {
      hide Flat, WF, Separated, Calls, Regular, OverrunsFirst, WalkFrom, FlatMembers, At;
      RootKind(root);
      it := DoParse(toks);
      ok := it.toks != [];
      if ok {
        RootTokens(root);
        DocumentWalk(json[..], toks, 1, root.members, hook);
        ProcessRoot(it);
      }
    }
  }

  lemma RootTokens(root: Tree)
    requires WF(root) && root.Obj?
    ensures var toks := Flat(root);
            && toks[0].size == Count(root.members) && WFMembers(root.members)
            && At(toks, 1, FlatMembers(root.members)) && 1 + |FlatMembers(root.members)| == |toks|
  {
    WholeAt(root);
    ObjectAt(Flat(root), 0, root);
  }

  lemma NoToks(toks: seq<Tok>, b: nat)
    requires b <= |toks|
    ensures PairToks(toks, b, 0) == []
  {
  }

  lemma PairToksStep(toks: seq<Tok>, b: nat, n: nat)
    requires b + 2 * n + 2 <= |toks|
    ensures PairToks(toks, b, n + 1) == PairToks(toks, b, n) + [(toks[b + 2 * n], toks[b + 2 * n + 1])]
  {
  }

  lemma FreshStart(orig: seq<byte>, toks: seq<Tok>)
    requires Separated(orig, toks)
    ensures Fresh(toks, 1, -1)
  {
  }

  /** A string at p still reads as in the original text. */
  lemma KeyUntouched(buf: seq<byte>, orig: seq<byte>, toks: seq<Tok>, p: nat, last: int)
    requires Separated(orig, toks) && Behind(buf, orig, last) && Fresh(toks, p, last) && p < |toks|
    ensures var t := toks[p];
            IsLeaf(t) ==> 0 <= t.start <= t.end < |buf| && buf[t.start..t.end] == Text(orig, t)
  {
  }

  lemma FreshNow(toks: seq<Tok>, p: nat, last: int)
    requires Fresh(toks, p, last) && p < |toks| && IsLeaf(toks[p])
    ensures last < toks[p].start
  {
  }

  lemma FreshLater(toks: seq<Tok>, p: nat, q: nat, last: int)
    requires Fresh(toks, p, last) && p <= q
    ensures Fresh(toks, q, last)
  {
  }

  lemma InBuffer(buf: seq<byte>, orig: seq<byte>, last: int, t: Tok)
    requires Behind(buf, orig, last) && Enclosed(orig, t)
    ensures 0 <= t.start <= t.end < |buf|
  {
  }

  // ---------------------------------------------------------------- examples

  /** Strings stand between quotes, objects and arrays between brackets. */
  predicate Delimited(json: seq<byte>, toks: seq<Tok>) {
    forall i :: 0 <= i < |toks| ==> DelimitedTok(json, toks[i])
  }

  predicate DelimitedTok(json: seq<byte>, t: Tok) {
    match t.typ
    case STRING => Around(json, t.start - 1, t.end, 34, 34)
    case OBJECT => Around(json, t.start, t.end - 1, 123, 125)
    case ARRAY => Around(json, t.start, t.end - 1, 91, 93)
    case PRIMITIVE => true
  }

  // a token of one character, or an object or array
  predicate ShortTok(json: seq<byte>, t: Tok) {
    IsLeaf(t) ==> 0 <= t.start == t.end - 1 < |json| - 1 && json[t.start] != 0
  }

  predicate NextBehind(toks: seq<Tok>, i: nat)
    requires i + 1 < |toks|
  {
    toks[i].start < toks[i + 1].start && (IsLeaf(toks[i]) ==> toks[i].end < toks[i + 1].start)
  }

  lemma {:induction false} StartsGrow(toks: seq<Tok>, i: nat, j: nat)
    requires i <= j < |toks| && forall x :: 0 <= x < |toks| - 1 ==> NextBehind(toks, x)
    ensures toks[i].start <= toks[j].start
    decreases j
  {
    if i < j {
      StartsGrow(toks, i, j - 1);
      assert NextBehind(toks, j - 1);
    }
  }

  /** It is enough to look at neighbours. */
  lemma SeparatedByNeighbours(json: seq<byte>, toks: seq<Tok>)
    requires forall x :: 0 <= x < |toks| ==> ShortTok(json, toks[x])
    requires forall x :: 0 <= x < |toks| - 1 ==> NextBehind(toks, x)
    ensures Separated(json, toks)
  {
    forall i | 0 <= i < |toks| && IsLeaf(toks[i])
      ensures Enclosed(json, toks[i]) && 0 !in json[toks[i].start..toks[i].end]
    {
      assert ShortTok(json, toks[i]);
    }
    forall i, j | 0 <= i < j < |toks| && IsLeaf(toks[i]) && IsLeaf(toks[j])
      ensures toks[i].end < toks[j].start
    {
      assert NextBehind(toks, i);
      StartsGrow(toks, i + 1, j);
    }
  }

  predicate Around(json: seq<byte>, i: int, j: int, open: byte, close: byte) {
    0 <= i < j < |json| && json[i] == open && json[j] == close
  }

  // "a":"b" n times, with commas
  function PairText(n: nat): (s: seq<byte>)
    ensures |s| == if n == 0 then 0 else 8 * n - 1
  {
    if n == 0 then []
    else [34, 97, 34, 58, 34, 98, 34] + if n == 1 then [] else [44] + PairText(n - 1)
  }

  lemma {:induction false} PairTextAt(n: nat, i: nat)
    requires i < n
    ensures var s := PairText(n); 8 * i + 6 < |s| && s[8 * i..8 * i + 7] == [34, 97, 34, 58, 34, 98, 34]
    decreases n
  {
    if i == 0 {
      assert PairText(n)[..7] == [34, 97, 34, 58, 34, 98, 34];
    } else {
      PairTextAt(n - 1, i - 1);
      assert PairText(n) == [34, 97, 34, 58, 34, 98, 34, 44] + PairText(n - 1);
    }
  }

  // the members of that text, which starts at p
  function PairMembers(n: nat, p: nat): Members {
    if n == 0 then MNil
    else MCons(Tok(STRING, p + 1, p + 2, 1), Leaf(Tok(STRING, p + 5, p + 6, 0)), PairMembers(n - 1, p + 8))
  }

  // token i of these members
  function PairTok(p: nat, i: nat): Tok { Tok(STRING, p + 4 * i + 1, p + 4 * i + 2, if i % 2 == 0 then 1 else 0) }

  lemma {:induction false} PairTokens(n: nat, p: nat)
    ensures WFMembers(PairMembers(n, p)) && Count(PairMembers(n, p)) == n
    ensures FlatMembers(PairMembers(n, p)) == seq(2 * n, i requires 0 <= i < 2 * n => PairTok(p, i))
  {
    if n > 0 {
      PairTokens(n - 1, p + 8);
      var k, v, rest := Tok(STRING, p + 1, p + 2, 1), Tok(STRING, p + 5, p + 6, 0), PairMembers(n - 1, p + 8);
      assert Flat(Leaf(v)) == [v];
      assert FlatMembers(PairMembers(n, p)) == [k, v] + FlatMembers(rest);
      assert PairTok(p, 0) == k && PairTok(p, 1) == v;
      assert forall i :: 2 <= i < 2 * n ==> PairTok(p, i) == PairTok(p + 8, i - 2);
    }
  }

  // {"x":{"a":"b", ...}} with 20 pairs
  function TwentyText(): seq<byte> { [123, 34, 120, 34, 58, 123] + PairText(20) + [125, 125] }

  function TwentyToks(): seq<Tok> {
    [Tok(OBJECT, 0, 167, 1), Tok(STRING, 2, 3, 1), Tok(OBJECT, 5, 166, 20)] +
    seq(40, i requires 0 <= i < 40 => PairTok(6, i))
  }

  lemma TwentyTok(i: nat)
    requires i < 43
    ensures ShortTok(TwentyText(), TwentyToks()[i]) && DelimitedTok(TwentyText(), TwentyToks()[i])
    ensures i < 42 ==> NextBehind(TwentyToks(), i)
  {
    hide PairText;
    TwentyOrder(i);
    assert |TwentyText()| == 167;
    if i >= 3 {
      TwentyQuotes(i - 3);
    }
  }

  lemma TwentyOrder(i: nat)
    requires i < 43
    ensures i < 42 ==> NextBehind(TwentyToks(), i)
  {
  }

  // the three characters around token i of the members
  lemma TwentyQuotes(i: nat)
    requires i < 40
    ensures var json := TwentyText();
            && |json| == 167 && json[6 + 4 * i] == 34 && json[8 + 4 * i] == 34
            && json[7 + 4 * i] == if i % 2 == 0 then 97 else 98
  {
    hide PairText;
    PairTextAt(20, i / 2);
    var at, k := 8 * (i / 2), 4 * (i % 2);
    var t := PairText(20);
    var s := t[at..at + 7];
    assert at + k == 4 * i;
    assert t[4 * i] == s[k] && t[4 * i + 1] == s[k + 1] && t[4 * i + 2] == s[k + 2];
    assert TwentyText()[6..165] == t;
  }

  /** A command with 20 pairs leaves the array. */
  lemma TwentyPairs() returns (json: seq<byte>, root: Tree)
    ensures json == TwentyText()
    ensures WF(root) && root.Obj? && Separated(json, Flat(root)) && Delimited(json, Flat(root))
    ensures OverrunsFirst(json, root.members)
  {
    hide WF, Flat, FlatMembers, TwentyText, PairMembers, TwentyToks, ShortTok, DelimitedTok, NextBehind;
    json := TwentyText();
    var key, pairs := Tok(STRING, 2, 3, 1), PairMembers(20, 6);
    PairTokens(20, 6);
    var obj := Obj(Tok(OBJECT, 5, 166, 20), pairs);
    root := Obj(Tok(OBJECT, 0, 167, 1), MCons(key, obj, MNil));
    OneMember(root, key, obj);
    TwentyIs(Flat(root), FlatMembers(pairs));
    forall i | 0 <= i < 43
      ensures ShortTok(json, TwentyToks()[i]) && DelimitedTok(json, TwentyToks()[i])
      ensures i < 42 ==> NextBehind(TwentyToks(), i)
    {
      TwentyTok(i);
    }
    SeparatedByNeighbours(json, TwentyToks());
    TwentyKey(key);
  }

  lemma TwentyIs(toks: seq<Tok>, inner: seq<Tok>)
    requires inner == seq(40, i requires 0 <= i < 40 => PairTok(6, i))
    requires toks == [Tok(OBJECT, 0, 167, 1), Tok(STRING, 2, 3, 1), Tok(OBJECT, 5, 166, 20)] + inner
    ensures toks == TwentyToks() && |TwentyToks()| == 43
  {
  }

  lemma TwentyKey(key: Tok)
    requires key == Tok(STRING, 2, 3, 1)
    ensures !IsJsonKey(TwentyText(), key)
  {
    hide PairText;
    assert |Text(TwentyText(), key)| <= 1;
  }

  lemma OneMember(root: Tree, key: Tok, obj: Tree)
    requires root == Obj(root.tok, MCons(key, obj, MNil)) && key.typ == STRING
    requires root.tok.typ == OBJECT && root.tok.size == 1
    requires obj.Obj? && obj.tok.typ == OBJECT && obj.tok.size == Count(obj.members) && WFMembers(obj.members)
    ensures WF(root) && Flat(root) == [root.tok, key, obj.tok] + FlatMembers(obj.members)
  {
    assert FlatMembers(MNil) == [] && WFMembers(MNil);
    assert FlatMembers(root.members) == [key] + (Flat(obj) + []);
    assert Flat(obj) + [] == [obj.tok] + FlatMembers(obj.members);
  }

  // {"x":{"a":["b"]},"y":{"c":"d"}}
  const LOST: seq<byte> := [123, 34, 120, 34, 58, 123, 34, 97, 34, 58, 91, 34, 98, 34, 93, 125, 44,
                            34, 121, 34, 58, 123, 34, 99, 34, 58, 34, 100, 34, 125, 125]

  function LostTree(): Tree {
    var b, d := Leaf(Tok(STRING, 12, 13, 0)), Leaf(Tok(STRING, 27, 28, 0));
    var x := Obj(Tok(OBJECT, 5, 16, 1), MCons(Tok(STRING, 7, 8, 1), Arr(Tok(ARRAY, 10, 15, 1), TCons(b, TNil)), MNil));
    var y := Obj(Tok(OBJECT, 21, 30, 1), MCons(Tok(STRING, 23, 24, 1), d, MNil));
    Obj(Tok(OBJECT, 0, 31, 2), MCons(Tok(STRING, 2, 3, 1), x, MCons(Tok(STRING, 18, 19, 1), y, MNil)))
  }

  function LostToks(): seq<Tok> {
    [Tok(OBJECT, 0, 31, 2), Tok(STRING, 2, 3, 1), Tok(OBJECT, 5, 16, 1), Tok(STRING, 7, 8, 1), Tok(ARRAY, 10, 15, 1),
     Tok(STRING, 12, 13, 0), Tok(STRING, 18, 19, 1), Tok(OBJECT, 21, 30, 1), Tok(STRING, 23, 24, 1),
     Tok(STRING, 27, 28, 0)]
  }

  lemma LostTokens(root: Tree)
    requires root == LostTree()
    ensures WF(root) && Flat(root) == LostToks()
  {
    hide Flat, FlatMembers, FlatItems, WF, WFMembers, WFItems;
    var x, y := root.members.value, root.members.rest.value;
    var a, c := x.members.value, y.members.value;
    FlatLeaf(a.items.head);
    FlatLeaf(c);
    FlatArray(a);
    FlatObject(x, 1);
    FlatObject(y, 1);
    FlatObject(root, 2);
  }

  lemma LostParts(root: Tree)
    requires root == LostTree()
    ensures root.Obj? && root.members.MCons? && root.members.rest.MCons? && root.members.rest.value.Obj?
    ensures Text(LOST, root.members.rest.key) == [121] && |LostToks()| == 10
  {
    assert LOST[18] == 121;
    OneChar(LOST, 18);
  }

  lemma LostTok(i: nat)
    requires i < 10
    ensures ShortTok(LOST, LostToks()[i]) && DelimitedTok(LOST, LostToks()[i])
    ensures i < 9 ==> NextBehind(LostToks(), i)
  {
    assert i == 0 || i == 1 || i == 2 || i == 3 || i == 4 || i == 5 || i == 6 || i == 7 || i == 8 || i == 9;
  }

  lemma FlatLeaf(v: Tree)
    requires v.Leaf? && IsLeaf(v.tok)
    ensures Flat(v) == [v.tok] && WF(v)
  {
  }

  lemma FlatArray(v: Tree)
    requires v.Arr? && v.items.TCons? && v.items.tail == TNil && v.tok.typ == ARRAY && v.tok.size == 1
    requires WF(v.items.head)
    ensures Flat(v) == [v.tok] + Flat(v.items.head) && WF(v)
  {
    hide Flat, WF;
    assert FlatItems(TNil) == [] && WFItems(TNil) && Length(TNil) == 0;
    assert Length(v.items) == 1 && WFItems(v.items);
    FlatOf(v);
    assert Flat(v.items.head) + [] == Flat(v.items.head);
  }

  // an object of one or two members
  lemma FlatObject(v: Tree, n: nat)
    requires v.Obj? && v.tok.typ == OBJECT && v.tok.size == n && 1 <= n <= 2 && v.members.MCons?
    requires v.members.key.typ == STRING && WF(v.members.value)
    requires n == 1 ==> v.members.rest == MNil
    requires n == 2 ==> v.members.rest.MCons? && v.members.rest.rest == MNil && v.members.rest.key.typ == STRING
    requires n == 2 ==> WF(v.members.rest.value)
    ensures WF(v)
    ensures Flat(v) == [v.tok] + ([v.members.key] + Flat(v.members.value) +
        if n == 1 then [] else [v.members.rest.key] + Flat(v.members.rest.value))
  {
    hide Flat, WF;
    assert FlatMembers(MNil) == [] && WFMembers(MNil);
    FlatOf(v);
    assert Count(v.members.rest) == n - 1 && WFMembers(v.members.rest);
    if n == 2 {
      assert FlatMembers(v.members.rest) == [v.members.rest.key] + (Flat(v.members.rest.value) + []);
    } else {
      assert Flat(v.members.value) + [] == Flat(v.members.value);
    }
  }

  lemma FlatOf(v: Tree)
    ensures v.Arr? ==> Flat(v) == [v.tok] + FlatItems(v.items)
    ensures v.Arr? ==> (WF(v) <==> v.tok.typ == ARRAY && v.tok.size == Length(v.items) && WFItems(v.items))
    ensures v.Obj? ==> Flat(v) == [v.tok] + FlatMembers(v.members)
    ensures v.Obj? ==> (WF(v) <==> v.tok.typ == OBJECT && v.tok.size == Count(v.members) && WFMembers(v.members))
  {
  }

  lemma OneChar(json: seq<byte>, i: nat)
    requires i < |json|
    ensures json[i..i + 1] == [json[i]]
  {
  }

  lemma LostTexts()
    ensures |LostToks()| == 10
    ensures Text(LOST, LostToks()[1]) == [120] && Text(LOST, LostToks()[3]) == [97]
  {
    assert LOST[2] == 120 && LOST[7] == 97;
    OneChar(LOST, 2);
    OneChar(LOST, 7);
  }

  lemma LostPair()
    ensures |LostToks()| == 10
    ensures Texts(LOST, PairToks(LostToks(), 3, 1)) == [(Some([97]), None)]
  {
    hide Text;
    LostTexts();
    var toks := LostToks();
    NoToks(toks, 3);
    PairToksStep(toks, 3, 0);
    TextsStep(LOST, [], toks[3], toks[4]);
  }

  lemma LostTurns()
    ensures WalkFrom(LOST, LostToks(), 1, 2, true) == Walk([Handler(Some([120]), [(Some([97]), None)])], 7, Fine)
  {
    hide Text, Texts, PairToks;
    LostTexts();
    LostPair();
    var toks := LostToks();
    assert Fill(toks, 3, 0, 1) == Filled(1, Fine) by {
      assert Fill(toks, 3, 1, 1) == Filled(1, Fine);
    }
    assert Turn(LOST, toks, 1, true) == Walk([Handler(Some([120]), [(Some([97]), None)])], 5, Fine);
    assert AfterValue(toks, 6) == Step(7, true);
    assert Turn(LOST, toks, 5, true) == Walk([], 7, Fine);
    hide Turn;
    assert WalkFrom(LOST, toks, 7, 0, true) == Walk([], 7, Fine);
    assert WalkFrom(LOST, toks, 5, 1, true) == Walk([], 7, Fine);
  }

  /** The handler of x gets a null pointer, and command y is never called. */
  lemma LostCommand() returns (json: seq<byte>, root: Tree)
    ensures json == LOST
    ensures WF(root) && root.Obj? && Separated(json, Flat(root)) && Delimited(json, Flat(root))
    ensures root.members.MCons? && root.members.rest.MCons? && root.members.rest.value.Obj?
    ensures Text(json, root.members.rest.key) == [121]
    ensures WalkFrom(json, Flat(root), 1, 2, true) == Walk([Handler(Some([120]), [(Some([97]), None)])], 7, Fine)
  {
    hide LostTree, LostToks, WF, Flat, ShortTok, DelimitedTok, NextBehind;
    json := LOST;
    root := LostTree();
    LostParts(root);
    LostTokens(root);
    LostTurns();
    forall i | 0 <= i < 10
      ensures ShortTok(json, LostToks()[i]) && DelimitedTok(json, LostToks()[i])
      ensures i < 9 ==> NextBehind(LostToks(), i)
    {
      LostTok(i);
    }
    SeparatedByNeighbours(json, LostToks());
  }
}
