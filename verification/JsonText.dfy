/** JSON values, their compact text, and a strict parser for the part of RFC 8259 (sections 4, 5 and 7)
    that the builder uses: no white space, no escapes, integers only. */
module JsonText {
  import opened Bytes

  datatype Value = Str(s: string) | Bool(b: bool) | Int(n: int) | Obj(members: Members) | Arr(items: Items)
  datatype Members = MNil | MCons(key: string, value: Value, rest: Members)
  datatype Items = INil | ICons(head: Value, tail: Items)

  // unescaped characters of section 7
  predicate CleanChar(c: char) { c != '"' && c != '\\' && c >= ' ' }
  predicate Clean(s: string) { forall i :: 0 <= i < |s| ==> CleanChar(s[i]) }

  /** Values without characters that need an escape. */
  predicate CleanValue(v: Value) {
    match v
    case Str(s) => Clean(s)
    case Bool(_) => true
    case Int(_) => true
    case Obj(ms) => CleanMembers(ms)
    case Arr(xs) => CleanItems(xs)
  }

  predicate CleanMembers(ms: Members) {
    match ms case MNil => true case MCons(k, v, rest) => Clean(k) && CleanValue(v) && CleanMembers(rest)
  }

  predicate CleanItems(xs: Items) {
    match xs case INil => true case ICons(v, tail) => CleanValue(v) && CleanItems(tail)
  }

  // ---------------------------------------------------------------- text

  function Digit(d: int): char
    requires 0 <= d < 10
  {
    '0' + d as char
  }

  predicate IsDigit(c: char) { '0' <= c <= '9' }

  function Decimal(n: nat): (s: string)
    ensures |s| > 0 && forall i :: 0 <= i < |s| ==> IsDigit(s[i])
    ensures s[0] == '0' ==> n == 0 && s == "0"
  {
    if n < 10 then [Digit(n)] else Decimal(n / 10) + [Digit(n % 10)]
  }

  function IntText(n: int): string { if n < 0 then "-" + Decimal(-n) else Decimal(n) }

  function Quoted(s: string): string { "\"" + s + "\"" }

  function Print(v: Value): string {
    match v
    case Str(s) => Quoted(s)
    case Bool(b) => if b then "true" else "false"
    case Int(n) => IntText(n)
    case Obj(ms) => "{" + PrintMembers(ms) + "}"
    case Arr(xs) => "[" + PrintItems(xs) + "]"
  }

  function PrintMembers(ms: Members): string {
    match ms
    case MNil => ""
    case MCons(k, v, rest) => Quoted(k) + ":" + Print(v) + if rest.MNil? then "" else "," + PrintMembers(rest)
  }

  function PrintItems(xs: Items): string {
    match xs
    case INil => ""
    case ICons(v, tail) => Print(v) + if tail.INil? then "" else "," + PrintItems(tail)
  }

  lemma DigitTexts(d: nat)
    requires d < 10
    ensures Digit(d) == "0123456789"[d] && Decimal(d) == ["0123456789"[d]]
  {
    assert d == 0 || d == 1 || d == 2 || d == 3 || d == 4 || d == 5 || d == 6 || d == 7 || d == 8 || d == 9;
  }

  /** Every further digit is the number modulo ten. */
  lemma DecimalStep(n: nat, d: nat)
    requires n > 0 && d < 10
    ensures Decimal(10 * n + d) == Decimal(n) + ["0123456789"[d]]
  {
    hide Digit;
    DigitTexts(d);
    assert (10 * n + d) / 10 == n && (10 * n + d) % 10 == d;
  }

  // {"a":"x","b":true,"c":false,"d":-10,"e":["y",{}],"f":[]}
  function SampleValue(): Value {
    var f := MCons("f", Arr(INil), MNil);
    var e := MCons("e", Arr(ICons(Str("y"), ICons(Obj(MNil), INil))), f);
    Obj(MCons("a", Str("x"), MCons("b", Bool(true), MCons("c", Bool(false), MCons("d", Int(-10), e)))))
  }

  /** One text with every kind of value. */
  lemma SampleText()
    ensures Print(SampleValue()) == "{" + ("\"a\":\"x\"," + ("\"b\":true," + ("\"c\":false," + ("\"d\":-10," +
              "\"e\":[\"y\",{}],\"f\":[]")))) + "}"
  {
    hide Print, PrintMembers, PrintItems, IntText;
    var f := MCons("f", Arr(INil), MNil);
    var e := MCons("e", Arr(ICons(Str("y"), ICons(Obj(MNil), INil))), f);
    var d := MCons("d", Int(-10), e);
    var c := MCons("c", Bool(false), d);
    var b := MCons("b", Bool(true), c);
    ValueText(SampleValue());
    SampleEnd();
    SampleParts(PrintMembers(e), PrintMembers(d), PrintMembers(c), PrintMembers(b));
    OneMemberText("d", Int(-10), e);
    OneMemberText("c", Bool(false), d);
    OneMemberText("b", Bool(true), c);
    OneMemberText("a", Str("x"), b);
  }

  lemma SampleParts(e: string, d: string, c: string, b: string)
    ensures "\"" + "d" + "\":" + Print(Int(-10)) + "," + e == "\"d\":-10," + e
    ensures "\"" + "c" + "\":" + Print(Bool(false)) + "," + d == "\"c\":false," + d
    ensures "\"" + "b" + "\":" + Print(Bool(true)) + "," + c == "\"b\":true," + c
    ensures "\"" + "a" + "\":" + Print(Str("x")) + "," + b == "\"a\":\"x\"," + b
  {
    hide Print, IntText;
    ValueText(Bool(true));
    ValueText(Bool(false));
    ValueText(Int(-10));
    ValueText(Str("x"));
    SampleNumber();
    assert "\"" + "d" + "\":" + "-10" + "," == "\"d\":-10,";
    assert "\"" + "c" + "\":" + "false" + "," == "\"c\":false,";
    assert "\"" + "b" + "\":" + "true" + "," == "\"b\":true,";
    assert "\"" + "a" + "\":" + ("\"" + "x" + "\"") + "," == "\"a\":\"x\",";
  }

  lemma SampleNumber()
    ensures IntText(-10) == "-10"
  {
    DecimalStep(1, 0);
    DigitTexts(1);
  }

  lemma SampleEnd()
    ensures PrintMembers(MCons("e", Arr(ICons(Str("y"), ICons(Obj(MNil), INil))), MCons("f", Arr(INil), MNil)))
         == "\"e\":[\"y\",{}],\"f\":[]"
  {
  }

  lemma OneMemberText(k: string, v: Value, rest: Members)
    requires rest.MCons?
    ensures PrintMembers(MCons(k, v, rest)) == "\"" + k + "\":" + Print(v) + "," + PrintMembers(rest)
  {
    hide Print;
  }

  lemma ValueText(v: Value)
    ensures v == Bool(true) ==> Print(v) == "true"
    ensures v == Bool(false) ==> Print(v) == "false"
    ensures v.Int? ==> Print(v) == IntText(v.n)
    ensures v.Str? ==> Print(v) == "\"" + v.s + "\""
    ensures v.Obj? ==> Print(v) == "{" + PrintMembers(v.members) + "}"
    ensures v.Arr? ==> Print(v) == "[" + PrintItems(v.items) + "]"
  {
  }

  /** The unescaped characters: %x20-21 / %x23-5B / %x5D-10FFFF. */
  lemma CleanRanges(c: char)
    ensures CleanChar(c) <==>
            (0x20 <= c as int <= 0x21) || (0x23 <= c as int <= 0x5b) || (0x5d <= c as int)
  {
  }

  // ---------------------------------------------------------------- parser

  datatype Parsed<+T> = Parsed(value: T, rest: string)

  function ParseChars(s: string): (r: Option<Parsed<string>>)
    ensures r.Some? ==> |r.value.rest| < |s|
  {
    if s == "" then None
    else if s[0] == '"' then Some(Parsed("", s[1..]))
    else if !CleanChar(s[0]) then None
    else
      match ParseChars(s[1..])
      case None => None
      case Some(Parsed(t, rest)) => Some(Parsed([s[0]] + t, rest))
  }

  function ParseString(s: string): (r: Option<Parsed<string>>)
    ensures r.Some? ==> |r.value.rest| < |s|
  {
    if s != "" && s[0] == '"' then ParseChars(s[1..]) else None
  }

  // number of leading digits
  function DigitRun(s: string): (n: nat)
    ensures n <= |s| && forall i :: 0 <= i < n ==> IsDigit(s[i])
  {
    if s != "" && IsDigit(s[0]) then 1 + DigitRun(s[1..]) else 0
  }

  function DecimalValue(s: string): (n: nat)
    requires forall i :: 0 <= i < |s| ==> IsDigit(s[i])
  {
    if s == "" then 0
    else
      var c := s[|s| - 1];
      assert IsDigit(c);
      DecimalValue(s[..|s| - 1]) * 10 + (c - '0') as int
  }

  /** int = zero / ( digit1-9 *DIGIT ), and no fraction or exponent behind it. */
  function ParseDecimal(s: string): (r: Option<Parsed<nat>>)
    ensures r.Some? ==> |r.value.rest| < |s|
  {
    var n := DigitRun(s);
    if n == 0 || (s[0] == '0' && n > 1) then None
    else if n < |s| && (s[n] == '.' || s[n] == 'e' || s[n] == 'E') then None
    else Some(Parsed(DecimalValue(s[..n]), s[n..]))
  }

  function ParseNumber(s: string): (r: Option<Parsed<Value>>)
    ensures r.Some? ==> |r.value.rest| < |s|
  {
    if s != "" && s[0] == '-' then
      match ParseDecimal(s[1..])
      case None => None
      case Some(Parsed(n, rest)) => Some(Parsed(Int(0 - n), rest))
    else
      match ParseDecimal(s)
      case None => None
      case Some(Parsed(n, rest)) => Some(Parsed(Int(n), rest))
  }

  function ParseValue(s: string): (r: Option<Parsed<Value>>)
    ensures r.Some? ==> |r.value.rest| < |s|
    decreases |s|, 0
  {
    if s == "" then None
    else if s[0] == '"' then
      match ParseString(s)
      case None => None
      case Some(Parsed(t, rest)) => Some(Parsed(Str(t), rest))
    else if s[0] == '{' then
      if |s| > 1 && s[1] == '}' then Some(Parsed(Obj(MNil), s[2..]))
      else
        match ParseMembers(s[1..])
        case None => None
        case Some(Parsed(ms, rest)) => Some(Parsed(Obj(ms), rest))
    else if s[0] == '[' then
      if |s| > 1 && s[1] == ']' then Some(Parsed(Arr(INil), s[2..]))
      else
        match ParseItems(s[1..])
        case None => None
        case Some(Parsed(xs, rest)) => Some(Parsed(Arr(xs), rest))
    else if "true" <= s then Some(Parsed(Bool(true), s[4..]))
    else if "false" <= s then Some(Parsed(Bool(false), s[5..]))
    else ParseNumber(s)
  }

  /** One or more members up to and including the closing brace. */
  function ParseMembers(s: string): (r: Option<Parsed<Members>>)
    ensures r.Some? ==> |r.value.rest| < |s|
    decreases |s|, 1
  {
    match ParseString(s)
    case None => None
    case Some(Parsed(k, t)) =>
      if t == "" || t[0] != ':' then None
      else
        match ParseValue(t[1..])
        case None => None
        case Some(Parsed(v, u)) =>
          if u == "" then None
          else if u[0] == '}' then Some(Parsed(MCons(k, v, MNil), u[1..]))
          else if u[0] != ',' then None
          else
            match ParseMembers(u[1..])
            case None => None
            case Some(Parsed(ms, rest)) => Some(Parsed(MCons(k, v, ms), rest))
  }

  /** One or more items up to and including the closing bracket. */
  function ParseItems(s: string): (r: Option<Parsed<Items>>)
    ensures r.Some? ==> |r.value.rest| < |s|
    decreases |s|, 1
  {
    match ParseValue(s)
    case None => None
    case Some(Parsed(v, u)) =>
      if u == "" then None
      else if u[0] == ']' then Some(Parsed(ICons(v, INil), u[1..]))
      else if u[0] != ',' then None
      else
        match ParseItems(u[1..])
        case None => None
        case Some(Parsed(xs, rest)) => Some(Parsed(ICons(v, xs), rest))
  }

  // ---------------------------------------------------------------- round trip

  lemma {:induction false} ParseCharsOf(s: string, rest: string)
    requires Clean(s)
    ensures ParseChars(s + "\"" + rest) == Some(Parsed(s, rest))
  {
    var t := s + "\"" + rest;
    if s == "" {
      assert t[1..] == rest;
    } else {
      assert t[1..] == s[1..] + "\"" + rest;
      ParseCharsOf(s[1..], rest);
      assert [s[0]] + s[1..] == s;
    }
  }

  lemma ParseStringOf(s: string, rest: string)
    requires Clean(s)
    ensures ParseString(Quoted(s) + rest) == Some(Parsed(s, rest))
  {
    assert (Quoted(s) + rest)[1..] == s + "\"" + rest;
    ParseCharsOf(s, rest);
  }

  // the text may go on behind a number
  predicate Ends(rest: string) {
    rest == "" || (!IsDigit(rest[0]) && rest[0] != '.' && rest[0] != 'e' && rest[0] != 'E')
  }

  lemma {:induction false} DigitRunOf(s: string, rest: string)
    requires (forall i :: 0 <= i < |s| ==> IsDigit(s[i])) && Ends(rest)
    ensures DigitRun(s + rest) == |s|
  {
    if s != "" {
      assert (s + rest)[1..] == s[1..] + rest;
      DigitRunOf(s[1..], rest);
    } else {
      assert s + rest == rest;
    }
  }

  lemma {:induction false} DecimalValueOf(n: nat)
    ensures DecimalValue(Decimal(n)) == n
  {
    if n >= 10 {
      DecimalValueOf(n / 10);
      assert Decimal(n)[..|Decimal(n)| - 1] == Decimal(n / 10);
    } else {
      assert Decimal(n)[..0] == "";
    }
  }

  lemma ParseDecimalOf(n: nat, rest: string)
    requires Ends(rest)
    ensures ParseDecimal(Decimal(n) + rest) == Some(Parsed(n, rest))
  {
    hide Decimal, DecimalValue, DigitRun;
    var d := Decimal(n);
    DigitRunOf(d, rest);
    DecimalValueOf(n);
    assert (d + rest)[..|d|] == d && (d + rest)[|d|..] == rest;
  }

  lemma ParseNumberOf(n: int, rest: string)
    requires Ends(rest)
    ensures ParseNumber(IntText(n) + rest) == Some(Parsed(Int(n), rest))
  {
    hide Decimal, ParseDecimal;
    if n < 0 {
      ParseDecimalOf(-n, rest);
      assert (IntText(n) + rest)[1..] == Decimal(-n) + rest;
    } else {
      ParseDecimalOf(n, rest);
    }
  }

  /** The parser maps the text of a value back to the value, and leaves what follows. */
  lemma {:induction false} ParsePrinted(v: Value, rest: string)
    requires CleanValue(v) && Ends(rest)
    ensures ParseValue(Print(v) + rest) == Some(Parsed(v, rest))
    decreases v, 0
  {
    hide ParseString, ParseNumber, ParseMembers, ParseItems, PrintMembers, PrintItems, IntText, Quoted;
    var s := Print(v) + rest;
    match v
    case Str(t) =>
      QuotedStart(t, rest);
      ParseStringOf(t, rest);
    case Bool(b) =>
      assert s[if b then 4 else 5..] == rest;
    case Int(n) =>
      NumberStart(n, rest);
      ParseNumberOf(n, rest);
    case Obj(ms) =>
      assert s[1..] == PrintMembers(ms) + "}" + rest;
      if ms == MNil {
        assert PrintMembers(ms) == "" by {
          NoMembers();
        }
        assert s[2..] == rest;
      } else {
        ParsePrintedMembers(ms, rest);
        MembersStart(ms, rest);
      }
    case Arr(xs) =>
      assert s[1..] == PrintItems(xs) + "]" + rest;
      if xs == INil {
        assert PrintItems(xs) == "" by {
          NoMembers();
        }
        assert s[2..] == rest;
      } else {
        ParsePrintedItems(xs, rest);
        ItemsStart(xs, rest);
      }
  }

  lemma NoMembers()
    ensures PrintMembers(MNil) == "" && PrintItems(INil) == ""
  {
  }

  lemma QuotedStart(s: string, rest: string)
    ensures (Quoted(s) + rest)[0] == '"'
  {
  }

  lemma NumberStart(n: int, rest: string)
    ensures var c := (IntText(n) + rest)[0]; c == '-' || IsDigit(c)
  {
  }

  lemma MembersStart(ms: Members, rest: string)
    requires ms.MCons?
    ensures (PrintMembers(ms) + "}" + rest)[0] == '"'
  {
  }

  lemma ItemsStart(xs: Items, rest: string)
    requires xs.ICons?
    ensures (PrintItems(xs) + "]" + rest)[0] != ']'
  {
  }

  lemma {:induction false} ParsePrintedMembers(ms: Members, rest: string)
    requires CleanMembers(ms) && ms.MCons?
    ensures ParseMembers(PrintMembers(ms) + "}" + rest) == Some(Parsed(ms, rest))
    decreases ms, 1
  {
    hide ParseString, ParseValue, Print, Quoted;
    var k, v := ms.key, ms.value;
    var tail := if ms.rest.MNil? then "}" + rest else "," + (PrintMembers(ms.rest) + "}" + rest);
    var t := ":" + (Print(v) + tail);
    MembersText(ms, rest);
    ParseStringOf(k, t);
    ParsePrinted(v, tail);
    assert t[1..] == Print(v) + tail;
    if ms.rest.MNil? {
      assert tail[1..] == rest;
    } else {
      assert tail[1..] == PrintMembers(ms.rest) + "}" + rest;
      ParsePrintedMembers(ms.rest, rest);
    }
  }

  lemma MembersText(ms: Members, rest: string)
    requires ms.MCons?
    ensures var tail := if ms.rest.MNil? then "}" + rest else "," + (PrintMembers(ms.rest) + "}" + rest);
            PrintMembers(ms) + "}" + rest == Quoted(ms.key) + (":" + (Print(ms.value) + tail))
  {
    hide Print, Quoted;
  }

  lemma {:induction false} ParsePrintedItems(xs: Items, rest: string)
    requires CleanItems(xs) && xs.ICons?
    ensures ParseItems(PrintItems(xs) + "]" + rest) == Some(Parsed(xs, rest))
    decreases xs, 1
  {
    hide ParseValue, Print;
    var tail := if xs.tail.INil? then "]" + rest else "," + (PrintItems(xs.tail) + "]" + rest);
    assert PrintItems(xs) + "]" + rest == Print(xs.head) + tail;
    ParsePrinted(xs.head, tail);
    if xs.tail.INil? {
      assert tail[1..] == rest;
    } else {
      assert tail[1..] == PrintItems(xs.tail) + "]" + rest;
      ParsePrintedItems(xs.tail, rest);
    }
  }

  // ---------------------------------------------------------------- only clean values

  lemma {:induction false} CharsAreClean(s: string)
    requires ParseChars(s).Some?
    ensures Clean(ParseChars(s).value.value)
  {
    if s[0] != '"' {
      CharsAreClean(s[1..]);
    }
  }

  lemma StringIsClean(s: string)
    requires ParseString(s).Some?
    ensures Clean(ParseString(s).value.value)
  {
    CharsAreClean(s[1..]);
  }

  /** Whatever the parser accepts is clean. */
  lemma {:induction false} ParsedIsClean(s: string)
    requires ParseValue(s).Some?
    ensures CleanValue(ParseValue(s).value.value)
    decreases |s|, 0
  {
    hide ParseString, ParseNumber, ParseMembers, ParseItems;
    if s[0] == '"' {
      StringIsClean(s);
    } else if s[0] == '{' {
      if !(|s| > 1 && s[1] == '}') {
        ParsedMembersAreClean(s[1..]);
      }
    } else if s[0] == '[' {
      if !(|s| > 1 && s[1] == ']') {
        ParsedItemsAreClean(s[1..]);
      }
    } else if !("true" <= s) && !("false" <= s) {
      NumberIsNumber(s);
    }
  }

  lemma NumberIsNumber(s: string)
    ensures ParseNumber(s).Some? ==> ParseNumber(s).value.value.Int?
  {
  }

  lemma {:induction false} ParsedMembersAreClean(s: string)
    requires ParseMembers(s).Some?
    ensures CleanMembers(ParseMembers(s).value.value)
    decreases |s|, 1
  {
    hide ParseString, ParseValue;
    StringIsClean(s);
    var t := ParseString(s).value.rest;
    ParsedIsClean(t[1..]);
    var u := ParseValue(t[1..]).value.rest;
    if u[0] != '}' {
      ParsedMembersAreClean(u[1..]);
    }
  }

  lemma {:induction false} ParsedItemsAreClean(s: string)
    requires ParseItems(s).Some?
    ensures CleanItems(ParseItems(s).value.value)
    decreases |s|, 1
  {
    hide ParseValue;
    ParsedIsClean(s);
    var u := ParseValue(s).value.rest;
    if u[0] != ']' {
      ParsedItemsAreClean(u[1..]);
    }
  }

  /** The text of a value parses back to it exactly if nothing in it needs an escape. */
  lemma ParsesBackIff(v: Value)
    ensures ParseValue(Print(v)) == Some(Parsed(v, "")) <==> CleanValue(v)
  {
    hide ParseValue, Print, CleanValue;
    if CleanValue(v) {
      ParsePrinted(v, "");
      assert Print(v) + "" == Print(v);
    } else if ParseValue(Print(v)).Some? {
      ParsedIsClean(Print(v));
    }
  }
}
