/** The calls of the JSON builder as an unbounded string builder would execute them: what each call adds
    to the document, and the document that a value makes when the calls for it are made in order. */
module JsonOps {
  import opened Bytes
  import opened JsonText

  datatype Op =
    | OpenRoot | OpenRootId(id: string) | CloseRoot
    | AddObject | AddObjectKey(key: string) | CloseObject
    | AddArray | AddArrayKey(key: string) | CloseArray
    | AddString(val: string)
    | AddKey(key: string)
    | PutString(key: string, val: string) | PutBool(key: string, b: bool) | PutInt(key: string, n: int)

  // int and unsigned of the C interface
  predicate Int32(n: int) { -0x8000_0000 <= n < 0x1_0000_0000 }
  predicate ValidOp(op: Op) { op.PutInt? ==> Int32(op.n) }

  function Piece(op: Op): string {
    match op
    case OpenRoot => "{"
    case OpenRootId(id) => "{\"from\":\"" + id + "\","
    case CloseRoot => "}"
    case AddObject => "{"
    case AddObjectKey(k) => Quoted(k) + ":{"
    case CloseObject => "},"
    case AddArray => "["
    case AddArrayKey(k) => Quoted(k) + ":["
    case CloseArray => "],"
    case AddString(v) => Quoted(v) + ","
    case AddKey(k) => Quoted(k) + ":"
    case PutString(k, v) => Quoted(k) + ":" + Quoted(v) + ","
    case PutBool(k, b) => Quoted(k) + ":" + (if b then "true" else "false") + ","
    case PutInt(k, n) => Quoted(k) + ":" + IntText(n) + ","
  }

  predicate Closes(op: Op) { op.CloseRoot? || op.CloseObject? || op.CloseArray? }
  predicate Opens(op: Op) {
    op.OpenRoot? || op.OpenRootId? || op.AddObject? || op.AddObjectKey? || op.AddArray? || op.AddArrayKey?
  }
  function Delta(op: Op): int { if Opens(op) then 1 else if Closes(op) then -1 else 0 }

  predicate EndsInComma(doc: string) { doc != "" && doc[|doc| - 1] == ',' }
  function WithoutComma(doc: string): string { if EndsInComma(doc) then doc[..|doc| - 1] else doc }

  /** One call: a close takes a trailing comma back first. */
  function Apply(doc: string, op: Op): string {
    (if Closes(op) then WithoutComma(doc) else doc) + Piece(op)
  }

  function ApplyAll(doc: string, ops: seq<Op>): string
    decreases |ops|
  {
    if ops == [] then doc else ApplyAll(Apply(doc, ops[0]), ops[1..])
  }

  /** The buffer space that a call asks for: strlen(key) + (val ? strlen(val) : 10) + 10. */
  function Required(op: Op): nat {
    match op
    case OpenRootId(id) => |id| + 20
    case AddObjectKey(k) => |k| + 20
    case AddArrayKey(k) => |k| + 20
    case AddString(v) => 3 + |v| + 10
    case AddKey(k) => |k| + 20
    case PutString(k, v) => |k| + |v| + 10
    case PutBool(k, _) => |k| + 20
    case PutInt(k, _) => |k| + 20
    case _ => 20
  }

  function Pow10(d: nat): (p: nat) { if d == 0 then 1 else 10 * Pow10(d - 1) }

  lemma {:induction false} DecimalLength(n: nat, digits: nat)
    requires digits > 0 && n < Pow10(digits)
    ensures |Decimal(n)| <= digits
    decreases digits
  {
    if n >= 10 {
      DecimalLength(n / 10, digits - 1);
    }
  }

  /** What is asked for is enough for the piece and its NUL, and at most 18 characters more. */
  lemma PieceFits(op: Op)
    requires ValidOp(op)
    ensures |Piece(op)| + 1 <= Required(op) <= |Piece(op)| + 19
  {
    if op.PutInt? {
      hide Decimal;
      assert Pow10(10) == 10_000_000_000;
      DecimalLength(if op.n < 0 then -op.n else op.n, 10);
    }
  }

  lemma {:induction false} ApplyAllConcat(doc: string, a: seq<Op>, b: seq<Op>)
    ensures ApplyAll(doc, a + b) == ApplyAll(ApplyAll(doc, a), b)
    decreases |a|
  {
    hide Apply;
    if a == [] {
      assert a + b == b;
    } else {
      assert (a + b)[1..] == a[1..] + b;
      ApplyAllConcat(Apply(doc, a[0]), a[1..], b);
    }
  }

  // ---------------------------------------------------------------- values

  /** Values that the builder can make: bools and 32-bit integers stand in objects only. */
  predicate Buildable(v: Value) {
    match v
    case Str(_) => true
    case Bool(_) => true
    case Int(n) => Int32(n)
    case Obj(ms) => BuildableMembers(ms)
    case Arr(xs) => BuildableItems(xs)
  }

  predicate BuildableMembers(ms: Members) {
    match ms case MNil => true case MCons(_, v, rest) => Buildable(v) && BuildableMembers(rest)
  }

  predicate BuildableItems(xs: Items) {
    match xs case INil => true case ICons(v, tail) => !v.Bool? && !v.Int? && Buildable(v) && BuildableItems(tail)
  }

  /** The calls for a member. */
  function MemberOps(k: string, v: Value): seq<Op>
    decreases v
  {
    match v
    case Str(s) => [PutString(k, s)]
    case Bool(b) => [PutBool(k, b)]
    case Int(n) => [PutInt(k, n)]
    case Obj(ms) => [AddObjectKey(k)] + MembersOps(ms) + [CloseObject]
    case Arr(xs) => [AddArrayKey(k)] + ItemsOps(xs) + [CloseArray]
  }

  function MembersOps(ms: Members): seq<Op> {
    match ms case MNil => [] case MCons(k, v, rest) => MemberOps(k, v) + MembersOps(rest)
  }

  function ItemOps(v: Value): seq<Op> {
    match v
    case Str(s) => [AddString(s)]
    case Obj(ms) => [AddObject] + MembersOps(ms) + [CloseObject]
    case Arr(xs) => [AddArray] + ItemsOps(xs) + [CloseArray]
    case _ => []
  }

  function ItemsOps(xs: Items): seq<Op> {
    match xs case INil => [] case ICons(v, tail) => ItemOps(v) + ItemsOps(tail)
  }

  /** A root object may carry an id as its first member. */
  function RootMembers(id: Option<string>, ms: Members): Members {
    if id.Some? then MCons("from", Str(id.value), ms) else ms
  }

  function Opening(id: Option<string>): Op { if id.Some? then OpenRootId(id.value) else OpenRoot }

  function RootOps(id: Option<string>, ms: Members): seq<Op> { [Opening(id)] + MembersOps(ms) + [CloseRoot] }

  // the text of the members with their commas, the last one included
  function Trail(ms: Members): string { if ms.MNil? then "" else PrintMembers(ms) + "," }
  function ItemsTrail(xs: Items): string { if xs.INil? then "" else PrintItems(xs) + "," }

  lemma Bracketed(doc: string, open: Op, body: seq<Op>, close: Op, text: string)
    requires Opens(open) && Closes(close) && Piece(open) != "" && !EndsInComma(Piece(open))
    requires ApplyAll(doc + Piece(open), body) == doc + Piece(open) + (if text == "" then "" else text + ",")
    ensures ApplyAll(doc, [open] + body + [close]) == doc + Piece(open) + text + Piece(close)
  {
    hide Piece;
    var d := doc + Piece(open);
    var e := if text == "" then d else d + (text + ",");
    ApplyAllConcat(doc, [open] + body, [close]);
    assert ([open] + body)[1..] == body;
    assert Apply(doc, open) == d;
    assert ApplyAll(d, body) == e;
    assert WithoutComma(e) == d + text;
    ApplyOne(e, close);
  }

  /** A key on its own and then a value are the same text as the call that takes both. */
  lemma KeyThenValue(doc: string, k: string, v: string)
    ensures ApplyAll(doc, [AddKey(k), AddString(v)]) == ApplyAll(doc, [PutString(k, v)])
    ensures ApplyAll(doc, [AddKey(k), AddObject]) == ApplyAll(doc, [AddObjectKey(k)])
    ensures ApplyAll(doc, [AddKey(k), AddArray]) == ApplyAll(doc, [AddArrayKey(k)])
  {
    hide Apply;
    ApplyTwo(doc, AddKey(k), AddString(v));
    ApplyTwo(doc, AddKey(k), AddObject);
    ApplyTwo(doc, AddKey(k), AddArray);
    ApplyOne(doc, PutString(k, v));
    ApplyOne(doc, AddObjectKey(k));
    ApplyOne(doc, AddArrayKey(k));
    KeyThenString(doc, k, v);
    KeyThenBracket(doc, k);
  }

  lemma KeyThenString(doc: string, k: string, v: string)
    ensures Apply(Apply(doc, AddKey(k)), AddString(v)) == Apply(doc, PutString(k, v))
  {
    hide Quoted;
  }

  lemma KeyThenBracket(doc: string, k: string)
    ensures Apply(Apply(doc, AddKey(k)), AddObject) == Apply(doc, AddObjectKey(k))
    ensures Apply(Apply(doc, AddKey(k)), AddArray) == Apply(doc, AddArrayKey(k))
  {
    hide Quoted;
  }

  lemma ApplyTwo(doc: string, a: Op, b: Op)
    ensures ApplyAll(doc, [a, b]) == Apply(Apply(doc, a), b)
  {
    hide Apply;
    assert [a, b][1..] == [b];
    ApplyOne(Apply(doc, a), b);
  }

  lemma ApplyOne(doc: string, op: Op)
    ensures ApplyAll(doc, [op]) == Apply(doc, op)
  {
  }

  lemma {:induction false} DriveMember(doc: string, k: string, v: Value)
    requires Buildable(v)
    ensures ApplyAll(doc, MemberOps(k, v)) == doc + (Quoted(k) + ":" + Print(v) + ",")
    decreases v, 0
  {
    hide Print, Piece, ApplyAll, PrintMembers, PrintItems, Quoted;
    PieceOf(k, v);
    match v
    case Str(s) => ApplyOne(doc, PutString(k, s));
    case Bool(b) => ApplyOne(doc, PutBool(k, b));
    case Int(n) => ApplyOne(doc, PutInt(k, n));
    case Obj(ms) =>
      DriveMembers(doc + Piece(AddObjectKey(k)), ms);
      TrailText(ms, INil);
      Bracketed(doc, AddObjectKey(k), MembersOps(ms), CloseObject, PrintMembers(ms));
    case Arr(xs) =>
      DriveItems(doc + Piece(AddArrayKey(k)), xs);
      TrailText(MNil, xs);
      Bracketed(doc, AddArrayKey(k), ItemsOps(xs), CloseArray, PrintItems(xs));
  }

  lemma PieceOf(k: string, v: Value)
    ensures var t := Quoted(k) + ":" + Print(v) + ",";
            match v
            case Str(s) => Piece(PutString(k, s)) == t
            case Bool(b) => Piece(PutBool(k, b)) == t
            case Int(n) => Piece(PutInt(k, n)) == t
            case Obj(ms) => forall d :: d + Piece(AddObjectKey(k)) + PrintMembers(ms) + Piece(CloseObject) == d + t
            case Arr(xs) => forall d :: d + Piece(AddArrayKey(k)) + PrintItems(xs) + Piece(CloseArray) == d + t
    ensures !EndsInComma(Piece(AddObjectKey(k))) && !EndsInComma(Piece(AddArrayKey(k)))
    ensures Piece(AddObjectKey(k)) != "" && Piece(AddArrayKey(k)) != ""
  {
    hide PrintMembers, PrintItems, IntText, Quoted;
  }

  lemma TrailText(ms: Members, xs: Items)
    ensures Trail(ms) == if PrintMembers(ms) == "" then "" else PrintMembers(ms) + ","
    ensures ItemsTrail(xs) == if PrintItems(xs) == "" then "" else PrintItems(xs) + ","
  {
  }

  lemma {:induction false} DriveMembers(doc: string, ms: Members)
    requires BuildableMembers(ms)
    ensures ApplyAll(doc, MembersOps(ms)) == doc + Trail(ms)
    decreases ms, 1
  {
    hide Print, MemberOps, Quoted, ApplyAll;
    match ms
    case MNil => ApplyNothing(doc);
    case MCons(k, v, rest) =>
      ApplyAllConcat(doc, MemberOps(k, v), MembersOps(rest));
      DriveMember(doc, k, v);
      DriveMembers(doc + (Quoted(k) + ":" + Print(v) + ","), rest);
      TrailStep(doc, ms);
  }

  lemma ApplyNothing(doc: string)
    ensures ApplyAll(doc, []) == doc && doc + "" == doc
  {
  }

  lemma TrailStep(doc: string, ms: Members)
    requires ms.MCons?
    ensures doc + (Quoted(ms.key) + ":" + Print(ms.value) + ",") + Trail(ms.rest) == doc + Trail(ms)
  {
  }

  lemma ItemsTrailStep(doc: string, xs: Items)
    requires xs.ICons?
    ensures doc + (Print(xs.head) + ",") + ItemsTrail(xs.tail) == doc + ItemsTrail(xs)
  {
  }

  lemma {:induction false} DriveItem(doc: string, v: Value)
    requires !v.Bool? && !v.Int? && Buildable(v)
    ensures ApplyAll(doc, ItemOps(v)) == doc + (Print(v) + ",")
    decreases v, 0
  {
    hide ApplyAll, PrintMembers, PrintItems, Quoted, MembersOps, ItemsOps, Buildable, Piece, Print, WithoutComma;
    BuildableParts(v);
    ItemText(doc, v);
    match v
    case Str(s) => ApplyOne(doc, AddString(s));
    case Obj(ms) =>
      DriveMembers(doc + Piece(AddObject), ms);
      TrailText(ms, INil);
      Bracketed(doc, AddObject, MembersOps(ms), CloseObject, PrintMembers(ms));
    case Arr(xs) =>
      DriveItems(doc + Piece(AddArray), xs);
      TrailText(MNil, xs);
      Bracketed(doc, AddArray, ItemsOps(xs), CloseArray, PrintItems(xs));
  }

  lemma ItemText(doc: string, v: Value)
    ensures match v
            case Str(s) => Apply(doc, AddString(s)) == doc + (Print(v) + ",")
            case Obj(ms) => doc + Piece(AddObject) + PrintMembers(ms) + Piece(CloseObject) == doc + (Print(v) + ",")
            case Arr(xs) => doc + Piece(AddArray) + PrintItems(xs) + Piece(CloseArray) == doc + (Print(v) + ",")
            case _ => true
    ensures Piece(AddObject) == "{" && Piece(AddArray) == "["
  {
    hide PrintMembers, PrintItems, Quoted;
  }

  lemma BuildableParts(v: Value)
    requires Buildable(v)
    ensures v.Obj? ==> BuildableMembers(v.members)
    ensures v.Arr? ==> BuildableItems(v.items)
  {
  }

  lemma {:induction false} DriveItems(doc: string, xs: Items)
    requires BuildableItems(xs)
    ensures ApplyAll(doc, ItemsOps(xs)) == doc + ItemsTrail(xs)
    decreases xs, 1
  {
    hide Print, ItemOps, ApplyAll;
    match xs
    case INil => ApplyNothing(doc);
    case ICons(v, tail) =>
      ApplyAllConcat(doc, ItemOps(v), ItemsOps(tail));
      DriveItem(doc, v);
      DriveItems(doc + (Print(v) + ","), tail);
      ItemsTrailStep(doc, xs);
  }

  /** The calls for an object, root to root, with or without an id, write its compact text: no trailing comma
      at any depth. The strict parser maps it back to the object exactly if no string needs an escape, since
      the calls copy strings as they are. */
  lemma DriveRoot(id: Option<string>, ms: Members)
    requires BuildableMembers(ms)
    ensures ApplyAll("", RootOps(id, ms)) == Print(Obj(RootMembers(id, ms)))
    ensures ParseValue(ApplyAll("", RootOps(id, ms))) == Some(Parsed(Obj(RootMembers(id, ms)), ""))
        <==> CleanMembers(ms) && (id.Some? ==> Clean(id.value))
  {
    hide ParseValue, ApplyAll, PrintMembers, Print;
    if id.Some? {
      DriveWithId(id.value, ms);
    } else {
      DrivePlain(ms);
    }
    ParsesBackIff(Obj(RootMembers(id, ms)));
    CleanRoot(id, ms);
  }

  lemma DrivePlain(ms: Members)
    requires BuildableMembers(ms)
    ensures ApplyAll("", RootOps(None, ms)) == Print(Obj(ms))
  {
    hide ApplyAll, PrintMembers;
    DriveMembers("" + Piece(OpenRoot), ms);
    TrailText(ms, INil);
    Bracketed("", OpenRoot, MembersOps(ms), CloseRoot, PrintMembers(ms));
  }

  lemma DriveWithId(id: string, ms: Members)
    requires BuildableMembers(ms)
    ensures ApplyAll("", RootOps(Some(id), ms)) == Print(Obj(MCons("from", Str(id), ms)))
  {
    hide ApplyAll, PrintMembers, Piece, Print, WithoutComma, Trail;
    DriveMembers("" + Piece(OpenRootId(id)), ms);
    RootIdText(id, ms);
    var ops := MembersOps(ms);
    ApplyAllConcat("", [OpenRootId(id)] + ops, [CloseRoot]);
    ApplyAllConcat("", [OpenRootId(id)], ops);
    ApplyOne("", OpenRootId(id));
    ApplyOne(Piece(OpenRootId(id)) + Trail(ms), CloseRoot);
    ClosingPiece();
  }

  lemma ClosingPiece()
    ensures Piece(CloseRoot) == "}"
  {
  }

  lemma CleanRoot(id: Option<string>, ms: Members)
    ensures CleanValue(Obj(RootMembers(id, ms))) <==> CleanMembers(ms) && (id.Some? ==> Clean(id.value))
  {
    assert Clean("from");
    if id.Some? {
      assert CleanMembers(MCons("from", Str(id.value), ms)) <==> CleanValue(Str(id.value)) && CleanMembers(ms);
    }
  }

  lemma RootIdText(id: string, ms: Members)
    ensures var all := MCons("from", Str(id), ms);
            WithoutComma(Piece(OpenRootId(id)) + Trail(ms)) + "}" == Print(Obj(all))
    ensures "" + Piece(OpenRootId(id)) == Piece(OpenRootId(id))
  {
    hide Piece, Quoted, WithoutComma, PrintMembers, Print, Trail;
    var q, t := Quoted("from") + ":" + Quoted(id), PrintMembers(ms);
    IdPiece(id);
    FirstMember(id, ms);
    TrailText(ms, INil);
    if ms.MNil? {
      NoMembers(ms);
      NothingBehind(q);
      TakeCommaBack("{" + q);
    } else {
      SomeMembers(ms);
      CommaBehind(q, t);
      TakeCommaBack("{" + (q + "," + t));
      BetweenBraces(q, t);
    }
  }

  lemma IdPiece(id: string)
    ensures "" + Piece(OpenRootId(id)) == Piece(OpenRootId(id)) == "{" + (Quoted("from") + ":" + Quoted(id)) + ","
  {
    hide Quoted, Piece;
    RootIdPiece("", id);
    Regrouped(Quoted("from"), Quoted(id));
  }

  lemma Regrouped(a: string, b: string)
    ensures "" + ['{'] + (a + ":") + (b + ",") == "{" + (a + ":" + b) + ","
  {
  }

  lemma NothingBehind(q: string)
    ensures "{" + q + "," + "" == "{" + q + "," && q + "" == q
  {
  }

  lemma CommaBehind(q: string, t: string)
    ensures "{" + q + "," + (t + ",") == "{" + (q + "," + t) + ","
  {
  }

  lemma BetweenBraces(q: string, t: string)
    ensures q + ("," + t) == q + "," + t
  {
  }

  lemma NoMembers(ms: Members)
    requires ms.MNil?
    ensures PrintMembers(ms) == ""
  {
  }

  lemma SomeMembers(ms: Members)
    requires ms.MCons?
    ensures PrintMembers(ms) != ""
  {
    hide Quoted, Print;
  }

  lemma TakeCommaBack(d: string)
    ensures WithoutComma(d + ",") == d
  {
  }

  lemma FirstMember(id: string, ms: Members)
    ensures Print(Obj(MCons("from", Str(id), ms)))
         == "{" + (Quoted("from") + ":" + Quoted(id) + if ms.MNil? then "" else "," + PrintMembers(ms)) + "}"
  {
    hide Quoted;
    var all := MCons("from", Str(id), ms);
    assert Print(Str(id)) == Quoted(id);
    assert PrintMembers(all) == Quoted("from") + ":" + Quoted(id) + if ms.MNil? then "" else "," + PrintMembers(ms);
  }

  // ---------------------------------------------------------------- nesting depth

  // open brackets so far, and whether a string is open
  datatype Nesting = Nesting(depth: int, quoted: bool)

  /** Counts the brackets outside strings. */
  function Scan(s: string): Nesting {
    if s == "" then Nesting(0, false)
    else
      var n, c := Scan(s[..|s| - 1]), s[|s| - 1];
      if c == '"' then Nesting(n.depth, !n.quoted)
      else if n.quoted then n
      else if c == '{' || c == '[' then Nesting(n.depth + 1, false)
      else if c == '}' || c == ']' then Nesting(n.depth - 1, false)
      else n
  }

  predicate CleanOp(op: Op) {
    match op
    case OpenRootId(id) => Clean(id)
    case AddObjectKey(k) => Clean(k)
    case AddArrayKey(k) => Clean(k)
    case AddString(v) => Clean(v)
    case AddKey(k) => Clean(k)
    case PutString(k, v) => Clean(k) && Clean(v)
    case PutBool(k, _) => Clean(k)
    case PutInt(k, _) => Clean(k)
    case _ => true
  }

  lemma ScanChar(d: string, c: char)
    ensures Scan(d + [c]) == var n := Scan(d);
              if c == '"' then Nesting(n.depth, !n.quoted) else if n.quoted then n
              else if c == '{' || c == '[' then Nesting(n.depth + 1, false)
              else if c == '}' || c == ']' then Nesting(n.depth - 1, false) else n
  {
  }

  // characters that leave the nesting alone outside strings
  predicate Plain(c: char) { c != '"' && c != '{' && c != '[' && c != '}' && c != ']' }

  /** Text without quotes inside a string, or without quotes and brackets outside, changes nothing. */
  lemma {:induction false} ScanText(d: string, s: string)
    requires if Scan(d).quoted then forall i :: 0 <= i < |s| ==> s[i] != '"'
             else forall i :: 0 <= i < |s| ==> Plain(s[i])
    ensures Scan(d + s) == Scan(d)
  {
    hide Scan;
    if s == "" {
      assert d + s == d;
    } else {
      var n := |s| - 1;
      ScanText(d, s[..n]);
      assert d + s == d + s[..n] + [s[n]];
      ScanChar(d + s[..n], s[n]);
    }
  }

  lemma ScanQuoted(d: string, s: string)
    requires Clean(s) && !Scan(d).quoted
    ensures Scan(d + Quoted(s)) == Scan(d)
  {
    hide Scan;
    ScanChar(d, '"');
    ScanText(d + ['"'], s);
    ScanChar(d + ['"'] + s, '"');
    assert d + Quoted(s) == d + ['"'] + s + ['"'];
  }

  lemma ScanQuotedThen(d: string, s: string, t: string)
    requires Clean(s) && !Scan(d).quoted && forall i :: 0 <= i < |t| ==> Plain(t[i])
    ensures Scan(d + (Quoted(s) + t)) == Scan(d)
    ensures forall c :: c == '{' || c == '[' ==> Scan(d + (Quoted(s) + t + [c])) == Nesting(Scan(d).depth + 1, false)
  {
    hide Scan, Quoted;
    ScanQuoted(d, s);
    ScanText(d + Quoted(s), t);
    assert d + (Quoted(s) + t) == d + Quoted(s) + t;
    forall c | c == '{' || c == '['
      ensures Scan(d + (Quoted(s) + t + [c])) == Nesting(Scan(d).depth + 1, false)
    {
      ScanChar(d + (Quoted(s) + t), c);
      assert d + (Quoted(s) + t + [c]) == d + (Quoted(s) + t) + [c];
    }
  }

  lemma ScanTwo(d: string, c: char)
    requires (c == '}' || c == ']') && !Scan(d).quoted
    ensures Scan(d + [c]) == Nesting(Scan(d).depth - 1, false) && Scan(d + [c, ',']) == Scan(d + [c])
  {
    hide Scan;
    ScanChar(d, c);
    ScanChar(d + [c], ',');
    assert d + [c, ','] == d + [c] + [','];
  }

  /** A trailing comma is no bracket: taking it back does not move the nesting. */
  lemma ScanWithoutComma(d: string)
    requires !Scan(d).quoted
    ensures Scan(WithoutComma(d)) == Scan(d)
  {
  }

  lemma DepthClose(d: string, op: Op)
    requires !Scan(d).quoted && Closes(op)
    ensures Scan(Apply(d, op)) == Nesting(Scan(d).depth - 1, false)
  {
    hide Scan, WithoutComma;
    var c := if op.CloseArray? then ']' else '}';
    ScanWithoutComma(d);
    ScanTwo(WithoutComma(d), c);
    assert Piece(op) == if op.CloseRoot? then [c] else [c, ','];
  }

  lemma DepthPut(d: string, op: Op)
    requires !Scan(d).quoted && CleanOp(op) && (op.PutString? || op.PutBool? || op.PutInt?)
    ensures Scan(d + Piece(op)) == Scan(d)
  {
    hide Scan, Quoted, IntText, Clean;
    match op
    case PutString(k, v) =>
      ScanQuotedThen(d, k, ":");
      ScanQuotedThen(d + (Quoted(k) + ":"), v, ",");
      assert d + Piece(op) == d + (Quoted(k) + ":") + (Quoted(v) + ",");
    case PutBool(k, b) =>
      var t := ":" + (if b then "true" else "false") + ",";
      ScanQuotedThen(d, k, t);
      assert Piece(op) == Quoted(k) + t;
    case PutInt(k, n) =>
      var t := ":" + IntText(n) + ",";
      PlainInt(n);
      ScanQuotedThen(d, k, t);
      assert Piece(op) == Quoted(k) + t;
  }

  lemma DepthOpen(d: string, op: Op)
    requires !Scan(d).quoted && CleanOp(op) && Opens(op)
    ensures Scan(d + Piece(op)) == Nesting(Scan(d).depth + 1, false)
  {
    hide Scan, Quoted, Clean;
    match op
    case OpenRoot => ScanChar(d, '{');
    case AddObject => ScanChar(d, '{');
    case AddArray => ScanChar(d, '[');
    case OpenRootId(id) => DepthRootId(d, id);
    case AddObjectKey(k) =>
      ScanQuotedThen(d, k, ":");
      assert Piece(op) == Quoted(k) + ":" + ['{'];
    case AddArrayKey(k) =>
      ScanQuotedThen(d, k, ":");
      assert Piece(op) == Quoted(k) + ":" + ['['];
  }

  /** Every call moves the nesting depth of the text by exactly what it adds to m_obj_ct. */
  lemma DepthStep(d: string, op: Op)
    requires !Scan(d).quoted && CleanOp(op)
    ensures Scan(Apply(d, op)) == Nesting(Scan(d).depth + Delta(op), false)
  {
    hide Scan, Quoted, WithoutComma, Clean;
    if Closes(op) {
      DepthClose(d, op);
    } else if Opens(op) {
      DepthOpen(d, op);
    } else if op.AddString? {
      ScanQuotedThen(d, op.val, ",");
    } else if op.AddKey? {
      ScanQuotedThen(d, op.key, ":");
    } else {
      DepthPut(d, op);
    }
  }

  lemma PlainInt(n: int)
    ensures var t := ":" + IntText(n) + ","; forall i :: 0 <= i < |t| ==> Plain(t[i])
  {
  }

  lemma DepthRootId(d: string, id: string)
    requires !Scan(d).quoted && Clean(id)
    ensures Scan(d + Piece(OpenRootId(id))) == Nesting(Scan(d).depth + 1, false)
  {
    hide Scan, Quoted;
    var e := d + ['{'];
    ScanChar(d, '{');
    ScanQuotedThen(e, "from", ":");
    ScanQuotedThen(e + (Quoted("from") + ":"), id, ",");
    RootIdPiece(d, id);
  }

  lemma RootIdPiece(d: string, id: string)
    ensures d + Piece(OpenRootId(id)) == d + ['{'] + (Quoted("from") + ":") + (Quoted(id) + ",")
  {
  }

  function Depth(ops: seq<Op>): int { if ops == [] then 0 else Delta(ops[0]) + Depth(ops[1..]) }

  /** After any calls with clean strings, m_obj_ct is the number of unclosed brackets of the document. */
  lemma {:induction false} DepthThroughout(doc: string, ops: seq<Op>)
    requires !Scan(doc).quoted && forall i :: 0 <= i < |ops| ==> CleanOp(ops[i])
    ensures Scan(ApplyAll(doc, ops)) == Nesting(Scan(doc).depth + Depth(ops), false)
    decreases |ops|
  {
    hide Scan, Apply, CleanOp, Delta;
    if ops != [] {
      DepthStep(doc, ops[0]);
      DepthThroughout(Apply(doc, ops[0]), ops[1..]);
    }
  }

  // ---------------------------------------------------------------- runs

  predicate OpensRoot(op: Op) { op.OpenRoot? || op.OpenRootId? }

  /** The asserted preconditions of a call: the nesting depth, and whether anything is in the buffer. A root
      may be opened with text pending, which is then dropped. */
  predicate Enabled(op: Op, ct: int, started: bool, rootObjs: nat) {
    if OpensRoot(op) then ct == 0
    else if op.CloseRoot? then ct == 1 && started
    else if Closes(op) then ct > rootObjs && started
    else if Opens(op) then ct >= rootObjs
    else started
  }

  predicate RunOk(ops: seq<Op>, ct: int, started: bool, rootObjs: nat)
    decreases |ops|
  {
    ops == [] ||
    (ValidOp(ops[0]) && Enabled(ops[0], ct, started, rootObjs) && RunOk(ops[1..], ct + Delta(ops[0]), true, rootObjs))
  }

  lemma {:induction false} RunOkConcat(a: seq<Op>, b: seq<Op>, ct: int, started: bool, rootObjs: nat)
    requires RunOk(a, ct, started, rootObjs) && RunOk(b, ct + Depth(a), started || a != [], rootObjs)
    ensures RunOk(a + b, ct, started, rootObjs) && Depth(a + b) == Depth(a) + Depth(b)
    decreases |a|
  {
    hide Enabled, Delta, ValidOp;
    if a == [] {
      assert a + b == b;
    } else {
      assert (a + b)[1..] == a[1..] + b;
      RunOkConcat(a[1..], b, ct + Delta(a[0]), true, rootObjs);
    }
  }

  lemma RunOne(op: Op, ct: int, started: bool, rootObjs: nat)
    requires ValidOp(op) && Enabled(op, ct, started, rootObjs)
    ensures RunOk([op], ct, started, rootObjs) && Depth([op]) == Delta(op)
  {
  }

  lemma RunBracketed(open: Op, body: seq<Op>, close: Op, ct: int, started: bool, rootObjs: nat)
    requires ValidOp(open) && Opens(open) && Enabled(open, ct, started, rootObjs)
    requires ValidOp(close) && Closes(close) && Enabled(close, ct + 1, true, rootObjs)
    requires RunOk(body, ct + 1, true, rootObjs) && Depth(body) == 0
    ensures RunOk([open] + body + [close], ct, started, rootObjs) && Depth([open] + body + [close]) == 0
  {
    hide RunOk, Enabled, Depth;
    RunOne(open, ct, started, rootObjs);
    RunOne(close, ct + 1, true, rootObjs);
    RunOkConcat([open], body, ct, started, rootObjs);
    RunOkConcat([open] + body, [close], ct, started, rootObjs);
  }

  lemma {:induction false} RunMember(k: string, v: Value, ct: int, rootObjs: nat)
    requires Buildable(v) && ct >= rootObjs
    ensures RunOk(MemberOps(k, v), ct, true, rootObjs) && Depth(MemberOps(k, v)) == 0
    decreases v, 0
  {
    hide RunOk, Depth;
    match v
    case Str(s) => RunOne(PutString(k, s), ct, true, rootObjs);
    case Bool(b) => RunOne(PutBool(k, b), ct, true, rootObjs);
    case Int(n) => RunOne(PutInt(k, n), ct, true, rootObjs);
    case Obj(ms) =>
      RunMembers(ms, ct + 1, rootObjs);
      RunBracketed(AddObjectKey(k), MembersOps(ms), CloseObject, ct, true, rootObjs);
    case Arr(xs) =>
      RunItems(xs, ct + 1, rootObjs);
      RunBracketed(AddArrayKey(k), ItemsOps(xs), CloseArray, ct, true, rootObjs);
  }

  lemma {:induction false} RunMembers(ms: Members, ct: int, rootObjs: nat)
    requires BuildableMembers(ms) && ct >= rootObjs
    ensures RunOk(MembersOps(ms), ct, true, rootObjs) && Depth(MembersOps(ms)) == 0
    decreases ms, 1
  {
    hide MemberOps;
    if ms.MCons? {
      RunMember(ms.key, ms.value, ct, rootObjs);
      RunMembers(ms.rest, ct, rootObjs);
      RunOkConcat(MemberOps(ms.key, ms.value), MembersOps(ms.rest), ct, true, rootObjs);
    }
  }

  lemma {:induction false} RunItem(v: Value, ct: int, rootObjs: nat)
    requires !v.Bool? && !v.Int? && Buildable(v) && ct >= rootObjs
    ensures RunOk(ItemOps(v), ct, true, rootObjs) && Depth(ItemOps(v)) == 0
    decreases v, 0
  {
    hide RunOk, Depth;
    match v
    case Str(s) => RunOne(AddString(s), ct, true, rootObjs);
    case Obj(ms) =>
      RunMembers(ms, ct + 1, rootObjs);
      RunBracketed(AddObject, MembersOps(ms), CloseObject, ct, true, rootObjs);
    case Arr(xs) =>
      RunItems(xs, ct + 1, rootObjs);
      RunBracketed(AddArray, ItemsOps(xs), CloseArray, ct, true, rootObjs);
  }

  lemma {:induction false} RunItems(xs: Items, ct: int, rootObjs: nat)
    requires BuildableItems(xs) && ct >= rootObjs
    ensures RunOk(ItemsOps(xs), ct, true, rootObjs) && Depth(ItemsOps(xs)) == 0
    decreases xs, 1
  {
    hide ItemOps;
    if xs.ICons? {
      RunItem(xs.head, ct, rootObjs);
      RunItems(xs.tail, ct, rootObjs);
      RunOkConcat(ItemOps(xs.head), ItemsOps(xs.tail), ct, true, rootObjs);
    }
  }

  /** At depth 2 and above no root can be opened. */
  lemma {:induction false} DeepRun(ops: seq<Op>, ct: int)
    requires RunOk(ops, ct, true, 2) && ct >= 2
    ensures forall i :: 0 <= i < |ops| ==> !OpensRoot(ops[i])
    decreases |ops|
  {
    if ops != [] {
      DeepRun(ops[1..], ct + Delta(ops[0]));
      assert forall i :: 0 < i < |ops| ==> ops[i] == ops[1..][i - 1];
    }
  }

  /** The calls for a document open a root with the first call, and with no other. */
  lemma RootOpensOnce(id: Option<string>, ms: Members)
    requires BuildableMembers(ms)
    ensures var ops := RootOps(id, ms);
            |ops| > 0 && forall i :: 0 < i < |ops| ==> !OpensRoot(ops[i])
  {
    hide RunOk, Depth, MembersOps, BuildableMembers;
    RunMembers(ms, 2, 2);
    DeepRun(MembersOps(ms), 2);
  }

  /** The calls for a whole document meet every asserted precondition on the way. */
  lemma RunRoot(id: Option<string>, ms: Members, rootObjs: nat)
    requires BuildableMembers(ms) && rootObjs <= 1
    ensures RunOk(RootOps(id, ms), 0, false, rootObjs) && Depth(RootOps(id, ms)) == 0
  {
    hide RunOk, Depth;
    RunMembers(ms, 1, rootObjs);
    RunBracketed(Opening(id), MembersOps(ms), CloseRoot, 0, false, rootObjs);
  }
}
