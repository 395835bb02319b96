/** Walking the token array of the jsmn parser: where a value ends, and the tree that the tokens flatten. */
module Jsmn {
  import opened Bytes

  datatype TokType = OBJECT | ARRAY | STRING | PRIMITIVE

  // a token covers the text [start, end); size counts pairs of an object or items of an array
  datatype Tok = Tok(typ: TokType, start: int, end: int, size: int)

  predicate InText(json: seq<byte>, t: Tok) { 0 <= t.start <= t.end <= |json| }

  /** The characters of a token. */
  function Text(json: seq<byte>, t: Tok): seq<byte> {
    if InText(json, t) then json[t.start..t.end] else []
  }

  datatype Tree = Leaf(tok: Tok) | Arr(tok: Tok, items: Trees) | Obj(tok: Tok, members: Members)
  datatype Trees = TNil | TCons(head: Tree, tail: Trees)
  datatype Members = MNil | MCons(key: Tok, value: Tree, rest: Members)

  function Length(ts: Trees): nat {
    match ts case TNil => 0 case TCons(_, tail) => 1 + Length(tail)
  }

  function Count(ms: Members): nat {
    match ms case MNil => 0 case MCons(_, _, rest) => 1 + Count(rest)
  }

  // member i and those behind it
  function Nth(ms: Members, i: nat): (r: Members)
    requires i < Count(ms)
    ensures r.MCons?
  {
    if i == 0 then ms else Nth(ms.rest, i - 1)
  }

  predicate IsLeaf(t: Tok) { t.typ == STRING || t.typ == PRIMITIVE }

  /** The token types and sizes that the parser gives to this tree. */
  predicate WF(v: Tree) {
    match v
    case Leaf(tok) => IsLeaf(tok)
    case Arr(tok, items) => tok.typ == ARRAY && tok.size == Length(items) && WFItems(items)
    case Obj(tok, members) => tok.typ == OBJECT && tok.size == Count(members) && WFMembers(members)
  }

  predicate WFItems(ts: Trees) {
    match ts case TNil => true case TCons(v, tail) => WF(v) && WFItems(tail)
  }

  predicate WFMembers(ms: Members) {
    match ms case MNil => true case MCons(key, v, rest) => key.typ == STRING && WF(v) && WFMembers(rest)
  }

  /** The preorder token sequence. */
  function Flat(v: Tree): (s: seq<Tok>)
    ensures |s| > 0 && s[0] == v.tok
  {
    match v
    case Leaf(tok) => [tok]
    case Arr(tok, items) => [tok] + FlatItems(items)
    case Obj(tok, members) => [tok] + FlatMembers(members)
  }

  function FlatItems(ts: Trees): seq<Tok> {
    match ts case TNil => [] case TCons(v, tail) => Flat(v) + FlatItems(tail)
  }

  function FlatMembers(ms: Members): seq<Tok> {
    match ms case MNil => [] case MCons(key, v, rest) => [key] + (Flat(v) + FlatMembers(rest))
  }

  predicate At(toks: seq<Tok>, p: nat, s: seq<Tok>) {
    p + |s| <= |toks| && toks[p..p + |s|] == s
  }

  lemma AtSplit(toks: seq<Tok>, p: nat, a: seq<Tok>, b: seq<Tok>)
    requires At(toks, p, a + b)
    ensures At(toks, p, a) && At(toks, p + |a|, b)
    ensures a != [] ==> toks[p] == a[0]
  {
    var s := toks[p..p + |a + b|];
    assert s[..|a|] == a && s[|a|..] == b;
    assert a != [] ==> s[0] == a[0];
  }

  lemma WholeAt(v: Tree)
    ensures At(Flat(v), 0, Flat(v))
  {
  }

  // ---------------------------------------------------------------- skipping

  // the position behind, and whether every key that was passed was a string (the assert of the source)
  datatype Step = Step(q: nat, ok: bool)

  function AfterValue(toks: seq<Tok>, p: nat): (r: Step)
    requires p <= |toks|
    ensures p <= r.q <= |toks| && (p < |toks| ==> p < r.q)
    decreases |toks| - p, 0
  {
    if p == |toks| then Step(p, true)
    else match toks[p].typ
      case OBJECT => AfterMembers(toks, p + 1, toks[p].size)
      case ARRAY => AfterItems(toks, p + 1, toks[p].size)
      case _ => Step(p + 1, true)
  }

  function AfterKeyAndValue(toks: seq<Tok>, p: nat): (r: Step)
    requires p < |toks|
    ensures p < r.q <= |toks|
    decreases |toks| - p, 1
  {
    AfterValue(toks, p + 1)
  }

  function AfterMembers(toks: seq<Tok>, p: nat, count: int): (r: Step)
    requires p <= |toks|
    ensures p <= r.q <= |toks|
    decreases |toks| - p, 2
  {
    if count <= 0 || p == |toks| then Step(p, true)
    else
      var a := AfterKeyAndValue(toks, p);
      var b := AfterMembers(toks, a.q, count - 1);
      Step(b.q, toks[p].typ == STRING && a.ok && b.ok)
  }

  function AfterItems(toks: seq<Tok>, p: nat, count: int): (r: Step)
    requires p <= |toks|
    ensures p <= r.q <= |toks|
    decreases |toks| - p, 2
  {
    if count <= 0 || p == |toks| then Step(p, true)
    else
      var a := AfterValue(toks, p);
      var b := AfterItems(toks, a.q, count - 1);
      Step(b.q, a.ok && b.ok)
  }

  /** Where a value starts, skip_value advances by exactly its tokens and no assert fails. */
  lemma {:induction false} SkipTree(toks: seq<Tok>, p: nat, v: Tree)
    requires WF(v) && At(toks, p, Flat(v))
    ensures AfterValue(toks, p) == Step(p + |Flat(v)|, true)
    decreases v
  {
    assert toks[p] == toks[p..p + |Flat(v)|][0] == v.tok;
    match v
    case Leaf(_) =>
    case Arr(tok, items) =>
      AtSplit(toks, p, [tok], FlatItems(items));
      SkipTreeItems(toks, p + 1, items);
    case Obj(tok, members) =>
      AtSplit(toks, p, [tok], FlatMembers(members));
      SkipTreeMembers(toks, p + 1, members);
  }

  lemma {:induction false} SkipTreeItems(toks: seq<Tok>, p: nat, ts: Trees)
    requires WFItems(ts) && At(toks, p, FlatItems(ts))
    ensures AfterItems(toks, p, Length(ts)) == Step(p + |FlatItems(ts)|, true)
    decreases ts
  {
    hide Flat, At, AfterValue, WF;
    match ts
    case TNil =>
    case TCons(v, tail) =>
      AtSplit(toks, p, Flat(v), FlatItems(tail));
      SkipTree(toks, p, v);
      SkipTreeItems(toks, p + |Flat(v)|, tail);
  }

  lemma {:induction false} SkipTreeMembers(toks: seq<Tok>, p: nat, ms: Members)
    requires WFMembers(ms) && At(toks, p, FlatMembers(ms))
    ensures AfterMembers(toks, p, Count(ms)) == Step(p + |FlatMembers(ms)|, true)
    decreases ms
  {
    hide Flat, At, AfterValue, WF;
    match ms
    case MNil =>
    case MCons(key, v, rest) =>
      MemberAt(toks, p, ms);
      SkipTree(toks, p + 1, v);
      SkipTreeMembers(toks, p + 1 + |Flat(v)|, rest);
  }

  /** Where a member starts there are its key, its value and the other members, in this order. */
  lemma MemberAt(toks: seq<Tok>, p: nat, ms: Members)
    requires ms.MCons? && At(toks, p, FlatMembers(ms))
    ensures p + 1 < |toks| && toks[p] == ms.key && toks[p + 1] == ms.value.tok
    ensures At(toks, p + 1, Flat(ms.value)) && At(toks, p + 1 + |Flat(ms.value)|, FlatMembers(ms.rest))
    ensures |FlatMembers(ms)| == 1 + |Flat(ms.value)| + |FlatMembers(ms.rest)|
  {
    hide Flat;
    var f := Flat(ms.value);
    AtSplit(toks, p, [ms.key], f + FlatMembers(ms.rest));
    AtSplit(toks, p + 1, f, FlatMembers(ms.rest));
  }

  /** The members of an object start behind its token. */
  lemma ObjectAt(toks: seq<Tok>, p: nat, v: Tree)
    requires v.Obj? && At(toks, p, Flat(v))
    ensures p < |toks| && toks[p] == v.tok && At(toks, p + 1, FlatMembers(v.members))
    ensures |Flat(v)| == 1 + |FlatMembers(v.members)|
  {
  }

  /** The iterator that the source passes by reference. */
  class Iterator {
    const toks: seq<Tok>
    var p: nat
    var assertFailed: bool

    constructor (toks: seq<Tok>)
      ensures this.toks == toks && p == 0 && !assertFailed
    {
      this.toks := toks;
      p := 0;
      assertFailed := false;
    }

    predicate Inside()
      reads this
    {
      p < |toks|
    }

    // assert(it->type == JSMN_STRING)
    method AssertKey()
      requires Inside()
      modifies this`assertFailed
      ensures assertFailed == (old(assertFailed) || toks[p].typ != STRING)
    {
      if toks[p].typ != STRING {
        assertFailed := true;
      }
    }

    method SkipValue() returns (ok: bool)
      requires p <= |toks|
      modifies this
      ensures var r := AfterValue(toks, old(p));
              p == r.q && assertFailed == (old(assertFailed) || !r.ok) && ok == (old(p) < |toks|)
      decreases |toks| - p, 0
    {
      if !Inside() {
        return false;
      }
      if toks[p].typ == OBJECT {
        var count := toks[p].size;
        p := p + 1;
        while count > 0 && Inside()
          invariant old(p) < p <= |toks|
          invariant var a := AfterMembers(toks, old(p) + 1, toks[old(p)].size); var b := AfterMembers(toks, p, count);
                    a.q == b.q && (old(assertFailed) || !a.ok) == (assertFailed || !b.ok)
          decreases |toks| - p
        {
          AssertKey();
          var _ := SkipKeyAndValue();
          count := count - 1;
        }
        return true;
      }
      if toks[p].typ == ARRAY {
        var count := toks[p].size;
        p := p + 1;
        while count > 0 && Inside()
          invariant old(p) < p <= |toks|
          invariant var a := AfterItems(toks, old(p) + 1, toks[old(p)].size); var b := AfterItems(toks, p, count);
                    a.q == b.q && (old(assertFailed) || !a.ok) == (assertFailed || !b.ok)
          decreases |toks| - p
        {
          var _ := SkipValue();
          count := count - 1;
        }
        return true;
      }
      p := p + 1;
      ok := true;
    }

    method SkipKeyAndValue() returns (ok: bool)
      requires Inside()
      modifies this
      ensures var r := AfterKeyAndValue(toks, old(p));
              p == r.q && assertFailed == (old(assertFailed) || !r.ok) && ok == (old(p) + 1 < |toks|)
      decreases |toks| - p, 1
    {
      p := p + 1;
      if !Inside() {
        return false;
      }
      ok := SkipValue();
    }
  }

  /** do_parse: what the parser delivered counts only if it is an object. */
  method DoParse(toks: seq<Tok>) returns (it: Iterator)
    ensures fresh(it) && it.p == 0 && !it.assertFailed
    ensures it.toks == if toks != [] && toks[0].typ == OBJECT then toks else []
  {
    it := new Iterator(if toks != [] && toks[0].typ == OBJECT then toks else []);
  }

  /** The tokens of a tree, or none when the text could not be parsed. */
  predicate Parsed(toks: seq<Tok>, root: Tree) {
    WF(root) && (toks == [] || toks == Flat(root))
  }

  lemma RootKind(root: Tree)
    requires WF(root)
    ensures Flat(root)[0].typ == OBJECT <==> root.Obj?
  {
  }
}
