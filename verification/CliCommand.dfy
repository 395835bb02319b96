/** The way back: parameters printed as a command line are what the reader and then the parser recover. */
module CliCommand {
  import opened Bytes
  import opened CliReader
  import opened CliParser

  // a key and perhaps a value, as texts
  datatype Arg = Arg(key: seq<byte>, val: Option<seq<byte>>)

  function Between(s: seq<byte>, lo: nat, hi: nat): seq<byte> {
    if lo <= hi <= |s| then s[lo..hi] else []
  }

  function ArgOf(s: seq<byte>, p: Param): Arg {
    Arg(Between(s, p.ks, p.ke), if p.val.Some? then Some(Between(s, p.val.value.0, p.val.value.1)) else None)
  }

  function ArgsOf(s: seq<byte>, ps: seq<Param>): seq<Arg> {
    if ps == [] then [] else ArgsOf(s, ps[..|ps| - 1]) + [ArgOf(s, ps[|ps| - 1])]
  }

  /** The parameters a command handler gets of a line; None when the line is refused. */
  function Args(s: seq<byte>, size: nat): Option<seq<Arg>> {
    var r := Parse(s, size).params;
    if r.Some? then Some(ArgsOf(s, r.value)) else None
  }

  // ---------------------------------------------------------------- printing

  /** A parameter as it may be typed: its value in quotes or plain, and gap more spaces in front than needed. */
  datatype Word = Word(arg: Arg, quoted: bool, gap: nat)

  function Show(w: Word): seq<byte> {
    var a := w.arg;
    a.key + if a.val.None? then [] else if w.quoted then [EQUALS, QUOTE] + a.val.value + [QUOTE]
      else [EQUALS] + a.val.value
  }

  function Blanks(n: nat): (s: seq<byte>)
    ensures |s| == n && forall i :: 0 <= i < n ==> s[i] == SPACE
  {
    seq(n, _ => SPACE)
  }

  // how many spaces follow in front of the words, and how many at the end
  function GapOf(words: seq<Word>, tail: nat): nat { if words == [] then tail else 1 + words[0].gap }

  // the words from the first one's key on
  function Body(words: seq<Word>, tail: nat): seq<byte> {
    if words == [] then []
    else Show(words[0]) + (Blanks(GapOf(words[1..], tail)) + Body(words[1..], tail))
  }

  /** The words one after the other, and spaces in front, in between and behind. */
  function Line(words: seq<Word>, tail: nat): seq<byte> {
    Blanks(if words == [] then tail else words[0].gap) + Body(words, tail)
  }

  /** What can be typed: keys without space or '='; in quotes, any value without a quote; plain values that are not
      empty, hold no space or '=', and do not begin like something else. */
  predicate WordOk(w: Word) {
    && KeyOk(w.arg.key)
    && (w.arg.val.Some? ==> if w.quoted then QuotedOk(w.arg.val.value) else PlainOk(w.arg.val.value))
  }

  predicate KeyOk(key: seq<byte>) {
    key != [] && forall i :: 0 <= i < |key| ==> key[i] != 0 && key[i] != SPACE && key[i] != EQUALS
  }

  predicate QuotedOk(v: seq<byte>) {
    forall i :: 0 <= i < |v| ==> v[i] != 0 && v[i] != QUOTE
  }

  predicate PlainOk(v: seq<byte>) {
    && v != [] && v[0] != SEMICOLON && v[0] != QUOTE
    && forall i :: 0 <= i < |v| ==> v[i] != 0 && v[i] != SPACE && v[i] != EQUALS
  }

  predicate WordsOk(words: seq<Word>) {
    forall i :: 0 <= i < |words| ==> WordOk(words[i])
  }

  // the global option is no parameter
  predicate MidWord(w: Word) { w.arg.val.Some? && w.arg.key == MID }

  /** The parameters among the words. */
  function Params(words: seq<Word>): (args: seq<Arg>)
    ensures |args| <= |words|
  {
    if words == [] then []
    else (if MidWord(words[0]) then [] else [words[0].arg]) + Params(words[1..])
  }

  /** The value of the last global option, or else the one given. */
  function LastMid(words: seq<Word>, mid: Option<seq<byte>>): Option<seq<byte>> {
    if words == [] then mid else LastMid(words[1..], if MidWord(words[0]) then words[0].arg.val else mid)
  }

  function MidText(s: seq<byte>, mid: Option<(nat, nat)>): Option<seq<byte>> {
    if mid.Some? then Some(Between(s, mid.value.0, mid.value.1)) else None
  }

  // ---------------------------------------------------------------- parser

  lemma WordEndIs(s: seq<byte>, i: nat, e: nat)
    requires i <= e <= |s| && (e == |s| || StopsWord(s[e])) && forall k :: i <= k < e ==> !StopsWord(s[k])
    ensures WordEnd(s, i) == e
  {
  }

  lemma NextQuoteIs(s: seq<byte>, i: nat, e: nat)
    requires i <= e < |s| && s[e] == QUOTE && forall k :: i <= k < e ==> s[k] != QUOTE
    ensures NextQuote(s, i) == e
  {
  }

  lemma At(s: seq<byte>, j: nat, t: seq<byte>, rest: seq<byte>)
    requires j <= |s| && s[j..] == t + rest
    ensures j + |t| <= |s| && s[j..j + |t|] == t && s[j + |t|..] == rest
    ensures forall k :: 0 <= k < |t| ==> s[j + k] == t[k]
    ensures rest != [] ==> j + |t| < |s| && s[j + |t|] == rest[0]
  {
    assert rest != [] ==> s[j + |t|..][0] == rest[0];
  }

  lemma LoneIsFound(s: seq<byte>, j: nat, w: Word, rest: seq<byte>)
    requires WordOk(w) && w.arg.val.None? && j <= |s| && s[j..] == Show(w) + rest && (rest == [] || rest[0] == SPACE)
    ensures j < |s| && s[j] != SPACE
    ensures var p := Param(j, j + |w.arg.key|, None);
            p.Within(|s|) && ParamAt(s, j) == Some(p) && ArgOf(s, p) == w.arg && After(s, p) == j + |Show(w)|
  {
    hide WordEnd;
    assert Show(w) == w.arg.key;
    At(s, j, w.arg.key, rest);
    KeyIsFound(s, j, w.arg.key);
  }

  // the pieces of key=value at j
  lemma ValuedLayout(s: seq<byte>, j: nat, key: seq<byte>, q: seq<byte>, v: seq<byte>, rest: seq<byte>)
    requires j <= |s| && s[j..] == key + (q + v) + rest && q != []
    ensures var n := j + |key|;
            && n + |q| + |v| + |rest| == |s| && s[j..n] == key && s[n + |q|..n + |q| + |v|] == v
            && (forall k :: 0 <= k < |q| ==> s[n + k] == q[k]) && s[n + |q| + |v|..] == rest
            && (rest != [] ==> s[n + |q| + |v|] == rest[0])
  {
    var n := j + |key|;
    assert key + (q + v) + rest == key + (q + (v + rest));
    At(s, j, key, q + (v + rest));
    At(s, n, q, v + rest);
    At(s, n + |q|, v, rest);
  }

  lemma KeyIsFound(s: seq<byte>, j: nat, key: seq<byte>)
    requires KeyOk(key) && j + |key| <= |s| && s[j..j + |key|] == key
    requires j + |key| == |s| || StopsWord(s[j + |key|])
    ensures WordEnd(s, j) == j + |key| && s[j] != SPACE
  {
    hide WordEnd;
    var n := j + |key|;
    assert forall k :: j <= k < n ==> s[k] == s[j..n][k - j];
    assert s[j] == key[0];
    WordEndIs(s, j, n);
  }

  lemma QuotedValue(s: seq<byte>, c: nat, v: seq<byte>)
    requires QuotedOk(v) && c + |v| + 2 <= |s| && s[c + 1..c + 1 + |v|] == v && s[c] == QUOTE && s[c + 1 + |v|] == QUOTE
    ensures Value(s, c) == Some((c + 1, c + 1 + |v|))
  {
    hide WordEnd, NextQuote;
    assert forall k :: c + 1 <= k < c + 1 + |v| ==> s[k] == s[c + 1..c + 1 + |v|][k - c - 1];
    NextQuoteIs(s, c + 1, c + 1 + |v|);
  }

  lemma PlainValue(s: seq<byte>, c: nat, v: seq<byte>, rest: seq<byte>)
    requires PlainOk(v) && c + |v| + |rest| == |s| && s[c..c + |v|] == v
    requires rest == [] || (rest[0] == SPACE && s[c + |v|] == SPACE)
    ensures Value(s, c) == Some((c, c + |v|))
  {
    hide WordEnd, NextQuote;
    assert forall k :: c <= k < c + |v| ==> s[k] == s[c..c + |v|][k - c];
    assert s[c] == v[0];
    WordEndIs(s, c, c + |v|);
  }

  // a key and what Value found behind it
  lemma ValuedParam(s: seq<byte>, j: nat, n: nat, lo: nat, hi: nat)
    requires j < n < |s| && s[j] != SPACE && WordEnd(s, j) == n && s[n] == EQUALS && Value(s, n + 1) == Some((lo, hi))
    ensures n < lo <= hi <= |s| && ParamAt(s, j) == Some(Param(j, n, Some((lo, hi))))
  {
    hide WordEnd, Value;
  }

  lemma QuotedIsFound(s: seq<byte>, j: nat, w: Word, rest: seq<byte>)
    requires WordOk(w) && w.arg.val.Some? && w.quoted && j <= |s| && s[j..] == Show(w) + rest
    ensures j < |s| && s[j] != SPACE
    ensures var n := j + |w.arg.key|;
            var p := Param(j, n, Some((n + 2, n + 2 + |w.arg.val.value|)));
            p.Within(|s|) && ParamAt(s, j) == Some(p) && ArgOf(s, p) == w.arg && After(s, p) == j + |Show(w)|
  {
    hide WordEnd, NextQuote, Value, ParamAt, QuotedOk;
    var key, v := w.arg.key, w.arg.val.value;
    var n := j + |key|;
    assert Show(w) + rest == key + ([EQUALS, QUOTE] + v) + ([QUOTE] + rest);
    ValuedLayout(s, j, key, [EQUALS, QUOTE], v, [QUOTE] + rest);
    assert s[n] == EQUALS && s[n + 1] == QUOTE;
    KeyIsFound(s, j, key);
    QuotedValue(s, n + 1, v);
    ValuedParam(s, j, n, n + 2, n + 2 + |v|);
  }

  lemma PlainIsFound(s: seq<byte>, j: nat, w: Word, rest: seq<byte>)
    requires WordOk(w) && w.arg.val.Some? && !w.quoted && j <= |s| && s[j..] == Show(w) + rest
    requires rest == [] || rest[0] == SPACE
    ensures j < |s| && s[j] != SPACE
    ensures var n := j + |w.arg.key|;
            var p := Param(j, n, Some((n + 1, n + 1 + |w.arg.val.value|)));
            && p.Within(|s|) && ParamAt(s, j) == Some(p) && ArgOf(s, p) == w.arg
            && After(s, p) == j + |Show(w)| + if rest == [] then 0 else 1
  {
    hide WordEnd, NextQuote, Value, ParamAt, PlainOk;
    var key, v := w.arg.key, w.arg.val.value;
    var n := j + |key|;
    ValuedLayout(s, j, key, [EQUALS], v, rest);
    assert s[n] == EQUALS;
    KeyIsFound(s, j, key);
    PlainValue(s, n + 1, v, rest);
    ValuedParam(s, j, n, n + 1, n + 1 + |v|);
  }

  // whether parsing goes on behind the space that follows
  function Eats(w: Word, rest: seq<byte>): nat {
    if w.arg.val.Some? && !w.quoted && rest != [] then 1 else 0
  }

  /** A printed parameter is cut out again, quoted or plain, in front of a space or the end. */
  lemma ShownIsFound(s: seq<byte>, j: nat, w: Word, rest: seq<byte>)
    requires WordOk(w) && j <= |s| && s[j..] == Show(w) + rest && (rest == [] || rest[0] == SPACE)
    ensures j < |s| && s[j] != SPACE && ParamAt(s, j).Some?
    ensures var p := ParamAt(s, j).value;
            && ArgOf(s, p) == w.arg && After(s, p) == j + |Show(w)| + Eats(w, rest)
            && (IsMid(s, p) <==> MidWord(w)) && MidText(s, p.val) == w.arg.val
  {
    hide ParamAt, After, WordOk, Show;
    if w.arg.val.None? {
      LoneIsFound(s, j, w, rest);
    } else if w.quoted {
      QuotedIsFound(s, j, w, rest);
    } else {
      PlainIsFound(s, j, w, rest);
    }
  }

  lemma ArgsOfOne(s: seq<byte>, ps: seq<Param>, p: Param)
    ensures ArgsOf(s, ps + [p]) == ArgsOf(s, ps) + [ArgOf(s, p)]
  {
  }

  lemma BodyHead(words: seq<Word>, tail: nat)
    requires WordsOk(words)
    ensures words != [] ==> Body(words, tail) != [] && Body(words, tail)[0] == words[0].arg.key[0]
    ensures words != [] ==> Body(words, tail)[0] != SPACE && Body(words, tail)[0] != 0
    ensures words == [] ==> Body(words, tail) == []
  {
    if words != [] {
      assert WordOk(words[0]);
    }
  }

  lemma SkipSpacesIs(s: seq<byte>, i: nat, j: nat)
    requires i <= j <= |s| && (j == |s| || s[j] != SPACE) && forall k :: i <= k < j ==> s[k] == SPACE
    ensures SkipSpaces(s, i) == j
  {
  }

  // skipping n spaces in front of something else
  lemma SkipBlanks(s: seq<byte>, i: nat, n: nat, rest: seq<byte>)
    requires i <= |s| && s[i..] == Blanks(n) + rest && (rest == [] || rest[0] != SPACE)
    ensures i + n <= |s| && SkipSpaces(s, i) == i + n && s[i + n..] == rest
  {
    hide SkipSpaces;
    At(s, i, Blanks(n), rest);
    assert forall k :: i <= k < i + n ==> s[k] == Blanks(n)[k - i];
    SkipSpacesIs(s, i, i + n);
  }

  // how parsing goes on behind the first word
  lemma NextWord(s: seq<byte>, j: nat, words: seq<Word>, tail: nat, next: nat)
    requires words != [] && WordsOk(words) && j <= |s| && s[j..] == Body(words, tail)
    requires var rest := Blanks(GapOf(words[1..], tail)) + Body(words[1..], tail);
             next == j + |Show(words[0])| + Eats(words[0], rest)
    ensures next <= |s|
    ensures var k := SkipSpaces(s, next); k <= |s| && s[k..] == Body(words[1..], tail)
  {
    hide Show, SkipSpaces, WordOk;
    var n := GapOf(words[1..], tail);
    var b := Body(words[1..], tail);
    assert WordsOk(words[1..]);
    BodyHead(words[1..], tail);
    At(s, j, Show(words[0]), Blanks(n) + b);
    var m := j + |Show(words[0])|;
    if next == m {
      SkipBlanks(s, m, n, b);
    } else {
      GapNotEmpty(words[1..], tail);
      assert s[m + 1..] == s[m..][1..];
      assert (Blanks(n) + b)[1..] == Blanks(n - 1) + b;
      SkipBlanks(s, next, n - 1, b);
    }
  }

  lemma GapNotEmpty(words: seq<Word>, tail: nat)
    requires Blanks(GapOf(words, tail)) + Body(words, tail) != []
    ensures GapOf(words, tail) > 0
  {
  }

  // parsing printed parameters from i on, where the first one stands at j
  lemma {:induction false} PrintedIsParsed(s: seq<byte>, i: nat, words: seq<Word>, tail: nat, found: Parsed, size: nat)
    requires i <= |s| && WordsOk(words) && found.params.Some? && s[SkipSpaces(s, i)..] == Body(words, tail)
    ensures var r := ParseFrom(s, i, found, size);
            && (r.params.Some? <==> |found.params.value| + |Params(words)| < size)
            && (r.params.Some? ==>
                  && ArgsOf(s, r.params.value) == ArgsOf(s, found.params.value) + Params(words)
                  && MidText(s, r.mid) == LastMid(words, MidText(s, found.mid)))
    decreases |words|
  {
    hide ParamAt, After, IsMid, WordOk, ParseFrom, SkipSpaces, Show, Body, MidText, ArgsOf, Params, LastMid, Add,
      MidWord;
    ParseStep(s, i, found, size);
    var j := SkipSpaces(s, i);
    BodyHead(words, tail);
    WordsStep(words, ArgsOf(s, found.params.value), MidText(s, found.mid));
    if words != [] && |found.params.value| < size {
      BodyOpens(words, tail);
      assert WordOk(words[0]) && WordsOk(words[1..]);
      ShownIsFound(s, j, words[0], Blanks(GapOf(words[1..], tail)) + Body(words[1..], tail));
      var p := ParamAt(s, j).value;
      NextWord(s, j, words, tail, After(s, p));
      AddStep(s, found, p, words[0]);
      PrintedIsParsed(s, After(s, p), words[1..], tail, Add(s, found, p), size);
    }
  }

  // what one word adds
  lemma WordsStep(words: seq<Word>, args: seq<Arg>, mid: Option<seq<byte>>)
    ensures words == [] ==> args + Params(words) == args && Params(words) == [] && LastMid(words, mid) == mid
    ensures words != [] ==>
        var w, rest := words[0], words[1..];
        && args + Params(words) == (args + if MidWord(w) then [] else [w.arg]) + Params(rest)
        && |Params(words)| == |Params(rest)| + (if MidWord(w) then 0 else 1)
        && LastMid(words, mid) == LastMid(rest, if MidWord(w) then w.arg.val else mid)
  {
    hide MidWord;
  }

  lemma AddStep(s: seq<byte>, found: Parsed, p: Param, w: Word)
    requires p.Within(|s|) && found.params.Some? && ArgOf(s, p) == w.arg
    requires (IsMid(s, p) <==> MidWord(w)) && MidText(s, p.val) == w.arg.val
    ensures var m := Add(s, found, p);
            && |m.params.value| == |found.params.value| + (if MidWord(w) then 0 else 1)
            && ArgsOf(s, m.params.value) == ArgsOf(s, found.params.value) + (if MidWord(w) then [] else [w.arg])
            && MidText(s, m.mid) == if MidWord(w) then w.arg.val else MidText(s, found.mid)
  {
    hide IsMid, MidWord, MidText, ArgsOf;
    ArgsOfOne(s, found.params.value, p);
    assert ArgsOf(s, found.params.value) + [] == ArgsOf(s, found.params.value);
  }

  lemma BodyOpens(words: seq<Word>, tail: nat)
    requires words != []
    ensures var rest := Blanks(GapOf(words[1..], tail)) + Body(words[1..], tail);
            Body(words, tail) == Show(words[0]) + rest && (rest == [] || rest[0] == SPACE)
  {
    hide Show;
  }

  /** The parser undoes printing exactly when there is room for one more parameter than there are. Global options
      take no room, and the last of them counts. */
  lemma ParserUndoesPrinting(words: seq<Word>, tail: nat, size: nat)
    requires WordsOk(words)
    ensures var s := Line(words, tail);
            && Args(s, size) == (if |Params(words)| < size then Some(Params(words)) else None)
            && (|Params(words)| < size ==> MidText(s, Parse(s, size).mid) == LastMid(words, None))
  {
    hide ParseFrom, WordOk, SkipSpaces, Body;
    var s := Line(words, tail);
    BodyHead(words, tail);
    assert s[0..] == s;
    SkipBlanks(s, 0, if words == [] then tail else words[0].gap, Body(words, tail));
    PrintedIsParsed(s, 0, words, tail, Parsed(Some([]), None), size);
    assert [] + Params(words) == Params(words);
  }

  // config  verbose=? mid=7 text="a b"
  const SAMPLE := "config" + ("  " + ("verbose=?" + (" " + ("mid=7" + (" " + "text=\"a b\"")))))

  /** A line with a lone key, a plain and a quoted value, and the global option. */
  lemma SampleLine()
    ensures Args(Ascii(SAMPLE), 4) ==
            Some([Arg(Ascii("config"), None), Arg(Ascii("verbose"), Some(Ascii("?"))),
                  Arg(Ascii("text"), Some(Ascii("a b")))])
    ensures MidText(Ascii(SAMPLE), Parse(Ascii(SAMPLE), 4).mid) == Some(Ascii("7"))
  {
    hide Parse, MidText, Args;
    var w0 := Word(Arg(Ascii("config"), None), false, 0);
    var w1 := Word(Arg(Ascii("verbose"), Some(Ascii("?"))), false, 1);
    var w2 := Word(Arg(Ascii("mid"), Some(Ascii("7"))), false, 0);
    var w3 := Word(Arg(Ascii("text"), Some(Ascii("a b"))), true, 0);
    var words := [w0, w1, w2, w3];
    SampleShown(w0, w1, w2, w3);
    SampleBody(w0, w1, w2, w3);
    SampleParams(w0, w1, w2, w3);
    ParserUndoesPrinting(words, 0, 4);
  }

  lemma SampleShown(w0: Word, w1: Word, w2: Word, w3: Word)
    requires w0 == Word(Arg(Ascii("config"), None), false, 0)
    requires w1 == Word(Arg(Ascii("verbose"), Some(Ascii("?"))), false, 1)
    requires w2 == Word(Arg(Ascii("mid"), Some(Ascii("7"))), false, 0)
    requires w3 == Word(Arg(Ascii("text"), Some(Ascii("a b"))), true, 0)
    ensures WordOk(w0) && WordOk(w1) && WordOk(w2) && WordOk(w3)
    ensures !MidWord(w0) && !MidWord(w1) && MidWord(w2) && !MidWord(w3)
    ensures Show(w0) == Ascii("config") && Show(w1) == Ascii("verbose=?") && Show(w2) == Ascii("mid=7")
    ensures Show(w3) == Ascii("text=\"a b\"")
  {
    hide Show, WordOk, MidWord;
    SampleLone(w0);
    SamplePlain(w1);
    SampleMid(w2);
    SampleQuoted(w3);
  }

  lemma SampleLone(w: Word)
    requires w == Word(Arg(Ascii("config"), None), false, 0)
    ensures WordOk(w) && !MidWord(w) && Show(w) == Ascii("config")
  {
  }

  lemma SamplePlain(w: Word)
    requires w == Word(Arg(Ascii("verbose"), Some(Ascii("?"))), false, 1)
    ensures WordOk(w) && !MidWord(w) && Show(w) == Ascii("verbose=?")
  {
    assert |w.arg.key| == 7;
  }

  lemma SampleMid(w: Word)
    requires w == Word(Arg(Ascii("mid"), Some(Ascii("7"))), false, 0)
    ensures WordOk(w) && MidWord(w) && Show(w) == Ascii("mid=7")
  {
  }

  lemma SampleQuoted(w: Word)
    requires w == Word(Arg(Ascii("text"), Some(Ascii("a b"))), true, 0)
    ensures WordOk(w) && !MidWord(w) && Show(w) == Ascii("text=\"a b\"")
  {
    assert |w.arg.key| == 4;
  }

  lemma SampleBody(w0: Word, w1: Word, w2: Word, w3: Word)
    requires w0.gap == 0 && w1.gap == 1 && w2.gap == 0 && w3.gap == 0
    requires Show(w0) == Ascii("config") && Show(w1) == Ascii("verbose=?") && Show(w2) == Ascii("mid=7")
    requires Show(w3) == Ascii("text=\"a b\"")
    ensures Line([w0, w1, w2, w3], 0) == Ascii(SAMPLE)
  {
    hide Show, Ascii;
    BodyOpens([w3], 0);
    BodyOpens([w2, w3], 0);
    BodyOpens([w1, w2, w3], 0);
    BodyOpens([w0, w1, w2, w3], 0);
    assert [w3][1..] == [] && [w2, w3][1..] == [w3] && [w1, w2, w3][1..] == [w2, w3];
    assert [w0, w1, w2, w3][1..] == [w1, w2, w3];
    assert Body([], 0) == [] && Blanks(0) == [];
    SampleTexts();
    var t3 := Ascii("text=\"a b\"");
    assert Body([w3], 0) == t3;
    var t2 := Ascii("mid=7") + (Blanks(1) + t3);
    assert Body([w2, w3], 0) == t2;
    var t1 := Ascii("verbose=?") + (Blanks(1) + t2);
    assert Body([w1, w2, w3], 0) == t1;
    assert Body([w0, w1, w2, w3], 0) == Ascii("config") + (Blanks(2) + t1);
  }

  lemma SampleTexts()
    ensures Ascii(SAMPLE) ==
            Ascii("config") + (Blanks(2) + (Ascii("verbose=?") + (Blanks(1) + (Ascii("mid=7") + (Blanks(1) +
              Ascii("text=\"a b\""))))))
  {
    hide Ascii;
    assert Blanks(1) == Ascii(" ") && Blanks(2) == Ascii("  ");
    var t := " " + "text=\"a b\"";
    var m := " " + ("mid=7" + t);
    var v := "  " + ("verbose=?" + m);
    AsciiConcat("config", v);
    AsciiConcat("  ", "verbose=?" + m);
    AsciiConcat("verbose=?", m);
    AsciiConcat(" ", "mid=7" + t);
    AsciiConcat("mid=7", t);
    AsciiConcat(" ", "text=\"a b\"");
  }

  lemma SampleParams(w0: Word, w1: Word, w2: Word, w3: Word)
    requires !MidWord(w0) && !MidWord(w1) && MidWord(w2) && !MidWord(w3)
    ensures Params([w0, w1, w2, w3]) == [w0.arg, w1.arg, w3.arg] && LastMid([w0, w1, w2, w3], None) == w2.arg.val
  {
    hide MidWord;
    assert [w3][1..] == [] && [w2, w3][1..] == [w3] && [w1, w2, w3][1..] == [w2, w3];
    assert [w0, w1, w2, w3][1..] == [w1, w2, w3];
    assert Params([w3]) == [w3.arg] && Params([w2, w3]) == [w3.arg] && Params([w1, w2, w3]) == [w1.arg, w3.arg];
    assert LastMid([w3], w2.arg.val) == w2.arg.val;
    assert LastMid([w2, w3], None) == w2.arg.val;
  }

  // ---------------------------------------------------------------- reader

  /** Typed without line ends, backspaces or NULs, with ';' only in quotes and every quote closed. */
  predicate Typeable(s: seq<byte>) {
    && (forall i :: 0 <= i < |s| ==> s[i] != CR && s[i] != LF && s[i] != BACKSPACE && s[i] != 0)
    && SemicolonsQuoted(s) && Quotes(s) % 2 == 0
  }

  lemma {:induction false} QuotesConcat(a: seq<byte>, b: seq<byte>)
    ensures Quotes(a + b) == Quotes(a) + Quotes(b)
  {
    if b == [] {
      assert a + b == a;
    } else {
      assert (a + b)[..|a + b| - 1] == a + b[..|b| - 1];
      QuotesConcat(a, b[..|b| - 1]);
    }
  }

  lemma {:induction false} NoQuotes(s: seq<byte>)
    requires QUOTE !in s
    ensures Quotes(s) == 0
  {
    if s != [] {
      NoQuotes(s[..|s| - 1]);
    }
  }

  lemma TypeableConcat(a: seq<byte>, b: seq<byte>)
    requires Typeable(a) && Typeable(b)
    ensures Typeable(a + b)
  {
    hide Quotes;
    QuotesConcat(a, b);
    forall i | 0 <= i < |a + b| && (a + b)[i] == SEMICOLON
      ensures Quotes((a + b)[..i]) % 2 == 1
    {
      if i < |a| {
        assert (a + b)[..i] == a[..i];
      } else {
        assert (a + b)[..i] == a + b[..i - |a|];
        QuotesConcat(a, b[..i - |a|]);
      }
    }
  }

  lemma NoSemicolons(s: seq<byte>)
    requires forall i :: 0 <= i < |s| ==>
        s[i] != CR && s[i] != LF && s[i] != BACKSPACE && s[i] != 0 && s[i] != QUOTE && s[i] != SEMICOLON
    ensures Typeable(s)
  {
    NoQuotes(s);
  }

  // no control character and no quote
  predicate Typed1(c: byte) { c != 0 && c != BACKSPACE && c != LF && c != CR && c != QUOTE }

  lemma QuotedIsTypeable(v: seq<byte>)
    requires forall i :: 0 <= i < |v| ==> Typed1(v[i])
    ensures Typeable([QUOTE] + v + [QUOTE])
  {
    hide Quotes;
    var s := [QUOTE] + v + [QUOTE];
    QuotesStep([], QUOTE);
    assert [] + [QUOTE] == [QUOTE];
    QuotesConcat([QUOTE], v);
    QuotesConcat([QUOTE] + v, [QUOTE]);
    NoQuotes(v);
    forall i | 0 <= i < |s| && s[i] == SEMICOLON
      ensures Quotes(s[..i]) % 2 == 1
    {
      assert s[..i] == [QUOTE] + v[..i - 1];
      QuotesConcat([QUOTE], v[..i - 1]);
      NoQuotes(v[..i - 1]);
    }
  }

  /** Every word and every space can be typed, so the line can. */
  lemma {:induction false} BodyIsTypeable(words: seq<Word>, tail: nat)
    requires forall i :: 0 <= i < |words| ==> Typeable(Show(words[i]))
    ensures Typeable(Body(words, tail))
  {
    hide Typeable, Show;
    if words == [] {
      NoSemicolons([]);
    } else {
      var n := GapOf(words[1..], tail);
      NoSemicolons(Blanks(n));
      BodyIsTypeable(words[1..], tail);
      TypeableConcat(Blanks(n), Body(words[1..], tail));
      TypeableConcat(Show(words[0]), Blanks(n) + Body(words[1..], tail));
    }
  }

  lemma LineIsTypeable(words: seq<Word>, tail: nat)
    requires forall i :: 0 <= i < |words| ==> Typeable(Show(words[i]))
    ensures Typeable(Line(words, tail))
  {
    hide Typeable, Show, Body;
    var n := if words == [] then tail else words[0].gap;
    NoSemicolons(Blanks(n));
    BodyIsTypeable(words, tail);
    TypeableConcat(Blanks(n), Body(words, tail));
  }

  /** Words without control characters and with ';' and quotes only where they belong can be typed. */
  lemma ShownIsTypeable(w: Word)
    requires WordOk(w) && forall i :: 0 <= i < |w.arg.key| ==> Typed1(w.arg.key[i]) && w.arg.key[i] != SEMICOLON
    requires w.arg.val.Some? ==> forall i :: 0 <= i < |w.arg.val.value| ==>
        Typed1(w.arg.val.value[i]) && (w.quoted || w.arg.val.value[i] != SEMICOLON)
    ensures Typeable(Show(w))
  {
    hide Typeable;
    var a := w.arg;
    NoSemicolons(a.key);
    if a.val.Some? {
      NoSemicolons([EQUALS]);
      if w.quoted {
        QuotedIsTypeable(a.val.value);
        TypeableConcat([EQUALS], [QUOTE] + a.val.value + [QUOTE]);
        TypeableConcat(a.key, [EQUALS] + ([QUOTE] + a.val.value + [QUOTE]));
        assert Show(w) == a.key + ([EQUALS] + ([QUOTE] + a.val.value + [QUOTE]));
      } else {
        NoSemicolons(a.val.value);
        TypeableConcat([EQUALS], a.val.value);
        TypeableConcat(a.key, [EQUALS] + a.val.value);
      }
    } else {
      assert Show(w) == a.key;
    }
  }

  lemma {:induction false} TypedAsIs(s: seq<byte>, lines: seq<seq<byte>>)
    requires SemicolonsQuoted(s)
    requires forall i :: 0 <= i < |s| ==> s[i] != CR && s[i] != LF && s[i] != BACKSPACE
    ensures TypeAll(Typed([], lines), s) == Typed(s, lines)
  {
    hide Quotes;
    if s != [] {
      var n := |s| - 1;
      forall i | 0 <= i < n && s[..n][i] == SEMICOLON
        ensures Quotes(s[..n][..i]) % 2 == 1
      {
        assert s[..n][..i] == s[..i];
      }
      TypedAsIs(s[..n], lines);
    }
  }

  /** A line that can be typed, and its ';', are read back as that line. */
  lemma ReaderKeepsLine(s: seq<byte>, lines: seq<seq<byte>>)
    requires Typeable(s)
    ensures TypeAll(Typed([], lines), s + [SEMICOLON]) == Typed([], lines + [s]) && CStr(s) == s
  {
    hide Quotes;
    TypedAsIs(s, lines);
    assert (s + [SEMICOLON])[..|s|] == s;
    CStrOfTerminated(s, []);
    assert s + [] == s;
  }

  // ---------------------------------------------------------------- command loop

  const BRACE: byte := 123
  const MAX_PAR := 20

  // what becomes of a delivered line
  datatype Outcome = Json(text: seq<byte>) | Refused | Nothing | Command(args: seq<Arg>)

  function OutcomeOf(line: seq<byte>): Outcome {
    if line != [] && line[0] == BRACE then Json(line)
    else
      var args := Args(line, MAX_PAR);
      if args == None then Refused else if args.value == [] then Nothing else Command(args.value)
  }

  function Outcomes(lines: seq<seq<byte>>): seq<Outcome> {
    if lines == [] then [] else Outcomes(lines[..|lines| - 1]) + [OutcomeOf(lines[|lines| - 1])]
  }

  lemma {:induction false} OutcomesConcat(a: seq<seq<byte>>, b: seq<seq<byte>>)
    ensures Outcomes(a + b) == Outcomes(a) + Outcomes(b)
  {
    hide OutcomeOf;
    if b == [] {
      assert a + b == a;
    } else {
      assert (a + b)[..|a + b| - 1] == a + b[..|b| - 1];
      OutcomesConcat(a, b[..|b| - 1]);
    }
  }

  lemma SlicesAreCStrings(m: seq<byte>, s: seq<byte>, ps: seq<Param>, k: nat)
    requires |s| < |m| && 0 !in s && Sliced(m, s, ps) && k < |ps|
    ensures ps[k].Within(|s|) && CStr(m[ps[k].ks..]) == Between(s, ps[k].ks, ps[k].ke)
    ensures ps[k].val.Some? ==> CStr(m[ps[k].val.value.0..]) == Between(s, ps[k].val.value.0, ps[k].val.value.1)
  {
    hide CStr;
    var p := ps[k];
    SliceIsCString(m, s, p.ks, p.ke);
    if p.val.Some? {
      SliceIsCString(m, s, p.val.value.0, p.val.value.1);
    }
  }

  lemma SliceIsCString(m: seq<byte>, s: seq<byte>, lo: nat, hi: nat)
    requires lo <= hi <= |s| < |m| && 0 !in s && Same(m, s, lo, hi) && m[hi] == 0
    ensures CStr(m[lo..]) == s[lo..hi]
  {
  }

  lemma ArgsOfPrefix(s: seq<byte>, ps: seq<Param>, k: nat)
    requires k < |ps|
    ensures ArgsOf(s, ps[..k + 1]) == ArgsOf(s, ps[..k]) + [ArgOf(s, ps[k])]
  {
    assert ps[..k + 1] == ps[..k] + [ps[k]];
    ArgsOfOne(s, ps[..k], ps[k]);
  }

  /** cli_process_cmdline up to the handler: what it is called with are the C strings the parser left. */
  method ProcessCommandline(cl: array<byte>) returns (r: Outcome)
    requires 0 in cl[..]
    modifies cl
    ensures var s := CStr(old(cl[..]));
            var args := Args(s, MAX_PAR);
            r == if args == None then Refused else if args.value == [] then Nothing else Command(args.value)
  {
    hide CStr, Parse, Sliced, ArgsOf, ArgOf;
    ghost var s := CStr(cl[..]);
    var par := new Param[MAX_PAR](_ => Param(0, 0, None));
    var n, mid := ParseCommandline(cl, par);
    if n < 0 {
      return Refused;
    }
    var args := [];
    ghost var ps := par[..n];
    NoArgs(s, ps);
    for k := 0 to n
      invariant args == ArgsOf(s, ps[..k]) && |args| == k && par[..n] == ps
      invariant |s| < cl.Length && Sliced(cl[..], s, ps)
    {
      SlicesAreCStrings(cl[..], s, ps, k);
      ArgsOfPrefix(s, ps, k);
      assert par[k] == ps[k];
      var arg := ReadArg(cl, s, par[k]);
      args := args + [arg];
    }
    assert ps[..n] == ps;
    r := if n > 0 then Command(args) else Nothing;
  }

  lemma NoArgs(s: seq<byte>, ps: seq<Param>)
    ensures ArgsOf(s, ps[..0]) == []
  {
  }

  method ReadArg(cl: array<byte>, ghost s: seq<byte>, p: Param) returns (arg: Arg)
    requires p.Within(|s|) && |s| < cl.Length && CStr(cl[p.ks..]) == Between(s, p.ks, p.ke)
    requires p.val.Some? ==> CStr(cl[p.val.value.0..]) == Between(s, p.val.value.0, p.val.value.1)
    ensures arg == ArgOf(s, p)
  {
    var val := None;
    if p.val.Some? {
      val := Some(CStr(cl[p.val.value.0..]));
    }
    arg := Arg(CStr(cl[p.ks..]), val);
  }

  /** cli_loop: one line at most is read and used in place, in the buffer. */
  method ServeOne(b: LineBuffer, dev: Device)
      returns (out: seq<Outcome>, ghost read: seq<Event>, ghost lines: seq<seq<byte>>)
    requires b.Valid()
    modifies b, b.buf, dev
    ensures b.Valid() && (b.buf == null || b.buf == old(b.buf) || fresh(b.buf))
    ensures old(dev.events) == read + dev.events && (b.memory && old(dev.events) != [] ==> read != [])
    ensures Reads(old(b.Text()), read, b.Text(), lines) && out == Outcomes(Delivered(lines))
  {
    hide Reads, Outcomes, OutcomeOf, Delivered, CStr, Quotes;
    var ok;
    ok, read, lines := b.GetLine(dev);
    OutcomesOne(if ok then CStr(b.buf[..]) else []);
    out := [];
    if ok {
      var o := HandleLine(b);
      out := [o];
    }
  }

  /** cli_loop, called any number of times: whatever has been read by then has had its effect, even if memory
      ran out on the way. With enough memory every call reads something, as long as there is anything. */
  method Serve(b: LineBuffer, dev: Device, rounds: nat) returns (out: seq<Outcome>, ghost read: seq<Event>)
    requires b.Valid()
    modifies b, b.buf, dev
    ensures b.Valid() && old(dev.events) == read + dev.events
    ensures var t := TypeAll(Typed(old(b.Text()), []), Chars(read));
            b.Text() == t.text && out == Outcomes(Delivered(t.lines))
    ensures b.memory && rounds >= |old(dev.events)| ==> dev.events == []
  {
    hide Reads, Outcomes, Delivered, Quotes;
    ghost var text, lines := b.Text(), [];
    out, read := [], [];
    NothingRead(text);
    NoOutcomes();
    for i := 0 to rounds
      invariant b.Valid() && (b.buf == null || b.buf == old(b.buf) || fresh(b.buf))
      invariant old(dev.events) == read + dev.events && Reads(text, read, b.Text(), lines)
      invariant out == Outcomes(Delivered(lines))
      invariant b.memory ==> |dev.events| + i <= |old(dev.events)| || dev.events == []
    {
      ghost var was := b.Text();
      var outcomes, more, moreLines := ServeOne(b, dev);
      Associate(read, more, dev.events);
      Resume(text, read, was, lines, more, b.Text(), moreLines);
      MoreOutcomes(lines, moreLines);
      read, lines, out := read + more, lines + moreLines, out + outcomes;
    }
    ReadsMeaning(text, read, b.Text(), lines);
  }

  lemma MoreOutcomes(lines: seq<seq<byte>>, more: seq<seq<byte>>)
    ensures Outcomes(Delivered(lines + more)) == Outcomes(Delivered(lines)) + Outcomes(Delivered(more))
  {
    DeliveredConcat(lines, more);
    OutcomesConcat(Delivered(lines), Delivered(more));
  }

  method HandleLine(b: LineBuffer) returns (o: Outcome)
    requires b.Valid() && b.buf != null && b.idx == 0 && 0 in b.buf[..]
    modifies b.buf
    ensures b.Valid() && b.Text() == [] && o == OutcomeOf(CStr(old(b.buf[..])))
  {
    hide CStr, Args, Quotes;
    CStrHead(b.buf[..]);
    if b.buf[0] == BRACE {
      return Json(CStr(b.buf[..]));
    }
    o := ProcessCommandline(b.buf);
  }

  lemma NoOutcomes()
    ensures Outcomes(Delivered([])) == []
  {
  }

  lemma OutcomesOne(line: seq<byte>)
    ensures Outcomes([line]) == [OutcomeOf(line)] && Outcomes([]) == []
  {
  }

  lemma ReadsMeaning(text: seq<byte>, read: seq<Event>, now: seq<byte>, lines: seq<seq<byte>>)
    requires Reads(text, read, now, lines)
    ensures TypeAll(Typed(text, []), Chars(read)) == Typed(now, lines)
  {
  }

  // ---------------------------------------------------------------- round trip

  /** A command line, or the text of a JSON document. */
  datatype Input = Words(words: seq<Word>, tail: nat) | Document(text: seq<byte>)

  function TextOf(x: Input): seq<byte> {
    match x case Words(words, tail) => Line(words, tail) case Document(text) => text
  }

  /** Both can be typed; documents begin with a brace, and command lines do not. */
  predicate InputOk(x: Input) {
    && Typeable(TextOf(x))
    && match x
       case Words(words, _) => WordsOk(words) && (words != [] && words[0].gap == 0 ==> words[0].arg.key[0] != BRACE)
       case Document(text) => text != [] && text[0] == BRACE
  }

  // inputs typed one after the other
  function Typing(inputs: seq<Input>): seq<byte> {
    if inputs == [] then [] else Typing(inputs[..|inputs| - 1]) + (TextOf(inputs[|inputs| - 1]) + [SEMICOLON])
  }

  /** Documents go to the JSON side as they are; commands reach the handlers with their parameters, or are refused
      if there are 20 or more; lines without parameters do nothing, and empty ones are not even delivered. */
  function ExpectedOf(x: Input): seq<Outcome> {
    match x
    case Document(text) => [Json(text)]
    case Words(words, tail) =>
      if words == [] && tail == 0 then []
      else if |Params(words)| >= 20 then [Refused]
      else if Params(words) == [] then [Nothing]
      else [Command(Params(words))]
  }

  function Expected(inputs: seq<Input>): seq<Outcome> {
    if inputs == [] then [] else Expected(inputs[..|inputs| - 1]) + ExpectedOf(inputs[|inputs| - 1])
  }

  lemma PrintedOutcome(x: Input)
    requires InputOk(x)
    ensures var s := TextOf(x); ExpectedOf(x) == if s == [] then [] else [OutcomeOf(s)]
  {
    hide WordOk, Parse, ArgsOf, Body, Typeable, MidText, LastMid;
    match x
    case Document(text) =>
    case Words(words, tail) =>
      LineHead(words, tail);
      ParserUndoesPrinting(words, tail, MAX_PAR);
  }

  lemma LineHead(words: seq<Word>, tail: nat)
    requires WordsOk(words)
    ensures Line(words, tail) == [] <==> words == [] && tail == 0
    ensures Line(words, tail) != [] ==>
        Line(words, tail)[0] == if words == [] || words[0].gap > 0 then SPACE else words[0].arg.key[0]
  {
    hide WordOk, Body;
    BodyHead(words, tail);
  }

  /** Any inputs typed one after the other have exactly their outcomes, in order. */
  lemma {:induction false} CommandsServed(inputs: seq<Input>)
    requires forall i :: 0 <= i < |inputs| ==> InputOk(inputs[i])
    ensures var t := TypeAll(Typed([], []), Typing(inputs));
            t.text == [] && Outcomes(Delivered(t.lines)) == Expected(inputs)
  {
    hide OutcomeOf, TextOf, InputOk, ExpectedOf, CStr, Outcomes, Delivered, TypeAll;
    if inputs == [] {
      NothingTyped();
    } else {
      var n := |inputs| - 1;
      CommandsServed(inputs[..n]);
      TypeConcat(Typed([], []), Typing(inputs[..n]), TextOf(inputs[n]) + [SEMICOLON]);
      assert InputOk(inputs[n]);
      InputServed(TypeAll(Typed([], []), Typing(inputs[..n])).lines, inputs[n]);
    }
  }

  lemma NothingTyped()
    ensures TypeAll(Typed([], []), []) == Typed([], []) && Outcomes(Delivered([])) == []
  {
  }

  lemma InputServed(lines: seq<seq<byte>>, x: Input)
    requires InputOk(x)
    ensures TypeAll(Typed([], lines), TextOf(x) + [SEMICOLON]) == Typed([], lines + [TextOf(x)])
    ensures Outcomes(Delivered(lines + [TextOf(x)])) == Outcomes(Delivered(lines)) + ExpectedOf(x)
  {
    hide OutcomeOf, TextOf, CStr, Outcomes, Delivered, TypeAll, Typeable, ExpectedOf;
    ReaderKeepsLine(TextOf(x), lines);
    PrintedOutcome(x);
    MoreOutcomes(lines, [TextOf(x)]);
    DeliveredOne(TextOf(x));
    OutcomesOne(TextOf(x));
  }
}
