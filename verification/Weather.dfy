/** weather_process_json: six fields taken out of the token stream of an OpenWeatherMap reply.
    A field holds the text that the source hands to atof or atol. */
module Weather {
  import opened Bytes
  import opened Jsmn

  const MAIN: seq<byte> := [109, 97, 105, 110]
  const WIND: seq<byte> := [119, 105, 110, 100]
  const CLOUDS: seq<byte> := [99, 108, 111, 117, 100, 115]
  const HUMIDITY: seq<byte> := [104, 117, 109, 105, 100, 105, 116, 121]
  const TEMP: seq<byte> := [116, 101, 109, 112]
  const PRESSURE: seq<byte> := [112, 114, 101, 115, 115, 117, 114, 101]
  const SPEED: seq<byte> := [115, 112, 101, 101, 100]
  const DEG: seq<byte> := [100, 101, 103]
  const ALL: seq<byte> := [97, 108, 108]

  // size of the local buffer of get_value
  const BUF_SIZE := 32

  // the parser's positions lie inside the text
  predicate Positions(json: seq<byte>, toks: seq<Tok>) {
    forall i :: 0 <= i < |toks| ==> InText(json, toks[i])
  }

  predicate KeyIs(json: seq<byte>, t: Tok, key: seq<byte>) { t.typ == STRING && Text(json, t) == key }

  predicate Convertible(t: Tok) { t.typ == PRIMITIVE && t.end - t.start < BUF_SIZE }

  // ---------------------------------------------------------------- meaning

  /** The convertible values that the tree holds under key, in document order. */
  function Values(json: seq<byte>, ms: Members, key: seq<byte>): seq<seq<byte>> {
    match ms
    case MNil => []
    case MCons(k, v, rest) =>
      (if KeyIs(json, k, key) && Convertible(v.tok) then [Text(json, v.tok)] else []) + Values(json, rest, key)
  }

  /** The convertible values at the path section.key, in document order. */
  function PathValues(json: seq<byte>, ms: Members, section: seq<byte>, key: seq<byte>): seq<seq<byte>> {
    match ms
    case MNil => []
    case MCons(k, v, rest) =>
      (if KeyIs(json, k, section) && v.Obj? then Values(json, v.members, key) else []) +
          PathValues(json, rest, section, key)
  }

  function LastOr(s: seq<seq<byte>>, default: seq<byte>): seq<byte> {
    if s == [] then default else s[|s| - 1]
  }

  // ---------------------------------------------------------------- code

  class WeatherData {
    var humidity: seq<byte>
    var temp: seq<byte>
    var pressure: seq<byte>
    var speed: seq<byte>
    var deg: seq<byte>
    var all: seq<byte>
  }

  /** it.keyIsEqual(key, type) */
  method KeyIsEqual(json: seq<byte>, it: Iterator, key: seq<byte>, typ: TokType) returns (b: bool)
    requires it.p + 1 < |it.toks| && Positions(json, it.toks)
    ensures b == (it.toks[it.p + 1].typ == typ && KeyIs(json, it.toks[it.p], key))
  {
    if typ != it.toks[it.p + 1].typ {
      return false;
    }
    var t := it.toks[it.p];
    b := t.typ == STRING && |key| == t.end - t.start && json[t.start..t.end] == key;
  }

  /** it.takeValue(dst, key), which assigns nothing and stays when key or value do not fit. */
  method TakeValue(json: seq<byte>, it: Iterator, key: seq<byte>, dst: seq<byte>) returns (taken: bool, val: seq<byte>)
    requires it.p + 1 < |it.toks| && Positions(json, it.toks)
    modifies it`p
    ensures taken == (KeyIs(json, it.toks[old(it.p)], key) && Convertible(it.toks[old(it.p) + 1]))
    ensures it.p == (if taken then old(it.p) + 2 else old(it.p))
    ensures val == if taken then Text(json, it.toks[old(it.p) + 1]) else dst
  {
    var t, v := it.toks[it.p], it.toks[it.p + 1];
    if !(t.typ == STRING && |key| == t.end - t.start && json[t.start..t.end] == key) {
      return false, dst;
    }
    if !(v.typ == PRIMITIVE && v.end - v.start < BUF_SIZE) {
      return false, dst;
    }
    it.p := it.p + 2;
    return true, json[v.start..v.end];
  }

  // the iterator stands where the members ms follow
  ghost predicate Here(it: Iterator, ms: Members)
    reads it
  {
    WFMembers(ms) && At(it.toks, it.p, FlatMembers(ms))
  }

  /** What one passage over a member does to the iterator, whether its value is taken or skipped. */
  lemma PassMember(toks: seq<Tok>, p: nat, ms: Members)
    requires ms.MCons? && WFMembers(ms) && At(toks, p, FlatMembers(ms))
    ensures p + 1 < |toks| && toks[p] == ms.key && toks[p].typ == STRING && toks[p + 1] == ms.value.tok
    ensures AfterKeyAndValue(toks, p) == AfterValue(toks, p + 1)
    ensures var q := p + 1 + |Flat(ms.value)|;
            AfterValue(toks, p + 1) == Step(q, true) && At(toks, q, FlatMembers(ms.rest))
            && q + |FlatMembers(ms.rest)| == p + |FlatMembers(ms)|
    ensures WFMembers(ms.rest)
    ensures ms.value.Leaf? <==> IsLeaf(toks[p + 1])
    ensures ms.value.Leaf? ==> |Flat(ms.value)| == 1
    ensures ms.value.Obj? <==> toks[p + 1].typ == OBJECT
    ensures ms.value.Obj? ==> At(toks, p + 2, FlatMembers(ms.value.members)) && WFMembers(ms.value.members)
    ensures ms.value.Obj? ==> |Flat(ms.value)| == 1 + |FlatMembers(ms.value.members)|
    ensures ms.value.Obj? ==> ms.value.tok.size == Count(ms.value.members)
  {
    hide Flat, FlatMembers;
    MemberAt(toks, p, ms);
    SkipTree(toks, p + 1, ms.value);
    LeafFlat(ms.value);
    if ms.value.Obj? {
      ObjectAt(toks, p + 1, ms.value);
    }
  }

  lemma LeafFlat(v: Tree)
    ensures v.Leaf? ==> |Flat(v)| == 1
  {
  }

  /** The loop body of the lambda for main: the member is taken into a field or skipped. */
  method TakeMainMember(json: seq<byte>, w: WeatherData, it: Iterator, ghost ms: Members)
    requires ms.MCons? && Here(it, ms) && it.Inside() && Positions(json, it.toks)
    modifies w`humidity, w`temp, w`pressure, it
    ensures Here(it, ms.rest) && it.p + |FlatMembers(ms.rest)| == old(it.p) + |FlatMembers(ms)|
    ensures it.assertFailed == old(it.assertFailed)
    ensures MainAfter(json, ms.rest, w.humidity, w.temp, w.pressure)
         == MainAfter(json, ms, old(w.humidity), old(w.temp), old(w.pressure))
  {
    hide Flat, FlatMembers, AfterValue, At, WF, WFItems, WFMembers, Text, Values, LastOr, KeyIs, MainAfter;
    PassMember(it.toks, it.p, ms);
    MainStep(json, ms, w.humidity, w.temp, w.pressure);
    it.AssertKey();
    var taken;
    taken, w.humidity := TakeValue(json, it, HUMIDITY, w.humidity);
    if !taken {
      taken, w.temp := TakeValue(json, it, TEMP, w.temp);
    }
    if !taken {
      taken, w.pressure := TakeValue(json, it, PRESSURE, w.pressure);
    }
    if !taken {
      var _ := it.SkipKeyAndValue();
    }
  }

  method ProcessMain(json: seq<byte>, w: WeatherData, it: Iterator, ghost ms: Members) returns (done: bool)
    requires ms.MCons? && Here(it, ms) && Positions(json, it.toks)
    modifies w`humidity, w`temp, w`pressure, it
    ensures done == (ms.value.Obj? && KeyIs(json, ms.key, MAIN))
    ensures !done ==> it.p == old(it.p)
    ensures done ==> Here(it, ms.rest) && it.p + |FlatMembers(ms.rest)| == old(it.p) + |FlatMembers(ms)|
    ensures it.assertFailed == old(it.assertFailed)
    ensures w.humidity == if done then LastOr(Values(json, ms.value.members, HUMIDITY), old(w.humidity))
        else old(w.humidity)
    ensures w.temp == if done then LastOr(Values(json, ms.value.members, TEMP), old(w.temp)) else old(w.temp)
    ensures w.pressure == if done then LastOr(Values(json, ms.value.members, PRESSURE), old(w.pressure))
        else old(w.pressure)
  {
    hide Flat, FlatMembers, AfterValue, At, WF, WFItems, WFMembers, Text, Values, LastOr, KeyIs, MainAfter;
    PassMember(it.toks, it.p, ms);
    done := KeyIsEqual(json, it, MAIN, OBJECT);
    if !done {
      return;
    }
    ghost var left := ms.value.members;
    var count := it.toks[it.p + 1].size;
    it.p := it.p + 2;
    StillInside(it, left);
    while count > 0 && it.Inside()
      invariant left.MCons? ==> it.Inside()
      invariant Here(it, left) && count == Count(left) && it.assertFailed == old(it.assertFailed)
      invariant it.p + |FlatMembers(left)| == old(it.p) + 2 + |FlatMembers(ms.value.members)|
      invariant MainAfter(json, left, w.humidity, w.temp, w.pressure)
             == MainAfter(json, ms.value.members, old(w.humidity), old(w.temp), old(w.pressure))
      decreases left
    {
      TakeMainMember(json, w, it, left);
      left := left.rest;
      count := count - 1;
      StillInside(it, left);
    }
    NoMoreValues(json, left);
    MainMeaning(json, left, w.humidity, w.temp, w.pressure);
    MainMeaning(json, ms.value.members, old(w.humidity), old(w.temp), old(w.pressure));
  }

  // the three fields of main after the members ms, given what they hold before
  function MainAfter(json: seq<byte>, ms: Members, h: seq<byte>, t: seq<byte>, p: seq<byte>)
    : (seq<byte>, seq<byte>, seq<byte>)
  {
    (LastOr(Values(json, ms, HUMIDITY), h), LastOr(Values(json, ms, TEMP), t), LastOr(Values(json, ms, PRESSURE), p))
  }

  lemma MainMeaning(json: seq<byte>, ms: Members, h: seq<byte>, t: seq<byte>, p: seq<byte>)
    ensures MainAfter(json, ms, h, t, p)
         == (LastOr(Values(json, ms, HUMIDITY), h), LastOr(Values(json, ms, TEMP), t),
             LastOr(Values(json, ms, PRESSURE), p))
  {
  }

  lemma MainStep(json: seq<byte>, ms: Members, h: seq<byte>, t: seq<byte>, p: seq<byte>)
    requires ms.MCons?
    ensures var text := Text(json, ms.value.tok);
            MainAfter(json, ms, h, t, p) ==
            if !Convertible(ms.value.tok) then MainAfter(json, ms.rest, h, t, p)
            else if KeyIs(json, ms.key, HUMIDITY) then MainAfter(json, ms.rest, text, t, p)
            else if KeyIs(json, ms.key, TEMP) then MainAfter(json, ms.rest, h, text, p)
            else if KeyIs(json, ms.key, PRESSURE) then MainAfter(json, ms.rest, h, t, text)
            else MainAfter(json, ms.rest, h, t, p)
  {
    hide Values, LastOr, KeyIs, Text;
    OneKey(json, ms.key);
    ValuesStep(json, ms, HUMIDITY, h);
    ValuesStep(json, ms, TEMP, t);
    ValuesStep(json, ms, PRESSURE, p);
  }

  /** No key is two of the names that one object is searched for. */
  lemma OneKey(json: seq<byte>, t: Tok)
    ensures KeyIs(json, t, HUMIDITY) ==> !KeyIs(json, t, TEMP) && !KeyIs(json, t, PRESSURE)
    ensures KeyIs(json, t, TEMP) ==> !KeyIs(json, t, PRESSURE)
    ensures KeyIs(json, t, SPEED) ==> !KeyIs(json, t, DEG)
    ensures KeyIs(json, t, MAIN) ==> !KeyIs(json, t, WIND) && !KeyIs(json, t, CLOUDS)
    ensures KeyIs(json, t, WIND) ==> !KeyIs(json, t, CLOUDS)
  {
  }

  lemma StillInside(it: Iterator, ms: Members)
    requires Here(it, ms)
    ensures ms.MCons? ==> it.Inside()
  {
  }

  lemma NoMoreValues(json: seq<byte>, ms: Members)
    ensures ms.MNil? ==> FlatMembers(ms) == []
    ensures ms.MNil? ==> forall key, default :: LastOr(Values(json, ms, key), default) == default
  {
  }

  lemma ValuesStep(json: seq<byte>, ms: Members, key: seq<byte>, default: seq<byte>)
    requires ms.MCons?
    ensures LastOr(Values(json, ms, key), default)
         == LastOr(Values(json, ms.rest, key),
                   if KeyIs(json, ms.key, key) && Convertible(ms.value.tok) then Text(json, ms.value.tok) else default)
  {
  }

  /** The loop body of the lambda for wind. */
  method TakeWindMember(json: seq<byte>, w: WeatherData, it: Iterator, ghost ms: Members)
    requires ms.MCons? && Here(it, ms) && it.Inside() && Positions(json, it.toks)
    modifies w`speed, w`deg, it
    ensures Here(it, ms.rest) && it.p + |FlatMembers(ms.rest)| == old(it.p) + |FlatMembers(ms)|
    ensures it.assertFailed == old(it.assertFailed)
    ensures LastOr(Values(json, ms.rest, SPEED), w.speed) == LastOr(Values(json, ms, SPEED), old(w.speed))
    ensures LastOr(Values(json, ms.rest, DEG), w.deg) == LastOr(Values(json, ms, DEG), old(w.deg))
  {
    hide Flat, FlatMembers, AfterValue, At, WF, WFItems, WFMembers, Text, Values, LastOr, KeyIs;
    PassMember(it.toks, it.p, ms);
    ValuesStep(json, ms, SPEED, w.speed);
    ValuesStep(json, ms, DEG, w.deg);
    OneKey(json, ms.key);
    it.AssertKey();
    var taken;
    taken, w.speed := TakeValue(json, it, SPEED, w.speed);
    if !taken {
      taken, w.deg := TakeValue(json, it, DEG, w.deg);
    }
    if !taken {
      var _ := it.SkipKeyAndValue();
    }
  }

  method ProcessWind(json: seq<byte>, w: WeatherData, it: Iterator, ghost ms: Members) returns (done: bool)
    requires ms.MCons? && Here(it, ms) && Positions(json, it.toks)
    modifies w`speed, w`deg, it
    ensures done == (ms.value.Obj? && KeyIs(json, ms.key, WIND))
    ensures !done ==> it.p == old(it.p)
    ensures done ==> Here(it, ms.rest) && it.p + |FlatMembers(ms.rest)| == old(it.p) + |FlatMembers(ms)|
    ensures it.assertFailed == old(it.assertFailed)
    ensures w.speed == if done then LastOr(Values(json, ms.value.members, SPEED), old(w.speed)) else old(w.speed)
    ensures w.deg == if done then LastOr(Values(json, ms.value.members, DEG), old(w.deg)) else old(w.deg)
  {
    hide Flat, FlatMembers, AfterValue, At, WF, WFItems, WFMembers, Text, Values, LastOr, KeyIs;
    PassMember(it.toks, it.p, ms);
    done := KeyIsEqual(json, it, WIND, OBJECT);
    if !done {
      return;
    }
    ghost var left := ms.value.members;
    var count := it.toks[it.p + 1].size;
    it.p := it.p + 2;
    StillInside(it, left);
    while count > 0 && it.Inside()
      invariant left.MCons? ==> it.Inside()
      invariant Here(it, left) && count == Count(left) && it.assertFailed == old(it.assertFailed)
      invariant it.p + |FlatMembers(left)| == old(it.p) + 2 + |FlatMembers(ms.value.members)|
      invariant LastOr(Values(json, left, SPEED), w.speed) ==
          LastOr(Values(json, ms.value.members, SPEED), old(w.speed))
      invariant LastOr(Values(json, left, DEG), w.deg) == LastOr(Values(json, ms.value.members, DEG), old(w.deg))
      decreases left
    {
      TakeWindMember(json, w, it, left);
      left := left.rest;
      count := count - 1;
      StillInside(it, left);
    }
    NoMoreValues(json, left);
  }

  method ProcessClouds(json: seq<byte>, w: WeatherData, it: Iterator, ghost ms: Members) returns (done: bool)
    requires ms.MCons? && Here(it, ms) && Positions(json, it.toks)
    modifies w`all, it
    ensures done == (ms.value.Obj? && KeyIs(json, ms.key, CLOUDS))
    ensures !done ==> it.p == old(it.p)
    ensures done ==> Here(it, ms.rest) && it.p + |FlatMembers(ms.rest)| == old(it.p) + |FlatMembers(ms)|
    ensures it.assertFailed == old(it.assertFailed)
    ensures w.all == if done then LastOr(Values(json, ms.value.members, ALL), old(w.all)) else old(w.all)
  {
    hide Flat, FlatMembers, AfterValue, At, WF, WFItems, WFMembers, Text, Values, LastOr, KeyIs;
    PassMember(it.toks, it.p, ms);
    done := KeyIsEqual(json, it, CLOUDS, OBJECT);
    if !done {
      return;
    }
    ghost var left := ms.value.members;
    var count := it.toks[it.p + 1].size;
    it.p := it.p + 2;
    StillInside(it, left);
    while count > 0 && it.Inside()
      invariant left.MCons? ==> it.Inside()
      invariant Here(it, left) && count == Count(left) && it.assertFailed == old(it.assertFailed)
      invariant it.p + |FlatMembers(left)| == old(it.p) + 2 + |FlatMembers(ms.value.members)|
      invariant LastOr(Values(json, left, ALL), w.all) == LastOr(Values(json, ms.value.members, ALL), old(w.all))
      decreases left
    {
      PassMember(it.toks, it.p, left);
      ValuesStep(json, left, ALL, w.all);
      it.AssertKey();
      var taken;
      taken, w.all := TakeValue(json, it, ALL, w.all);
      if !taken {
        var _ := it.SkipKeyAndValue();
      }
      left := left.rest;
      count := count - 1;
      StillInside(it, left);
    }
    NoMoreValues(json, left);
  }

  /** The field behind section.key, given what it held before. */
  function Field(json: seq<byte>, ms: Members, section: seq<byte>, key: seq<byte>, default: seq<byte>): seq<byte> {
    LastOr(PathValues(json, ms, section, key), default)
  }

  lemma FieldStep(json: seq<byte>, ms: Members, section: seq<byte>, key: seq<byte>, default: seq<byte>)
    requires ms.MCons?
    ensures Field(json, ms, section, key, default)
         == Field(json, ms.rest, section, key,
                  if ms.value.Obj? && KeyIs(json, ms.key, section)
                  then LastOr(Values(json, ms.value.members, key), default)
                  else default)
  {
  }

  lemma NoMoreFields(json: seq<byte>, ms: Members)
    ensures ms.MNil? ==> FlatMembers(ms) == []
    ensures ms.MNil? ==> forall section, key, default :: Field(json, ms, section, key, default) == default
  {
  }

  /** The dispatch table, tried in its order. */
  method ProcessRootChild(json: seq<byte>, w: WeatherData, it: Iterator, ghost ms: Members)
    requires ms.MCons? && Here(it, ms) && Positions(json, it.toks)
    modifies w, it
    ensures Here(it, ms.rest) && it.p + |FlatMembers(ms.rest)| == old(it.p) + |FlatMembers(ms)|
    ensures it.assertFailed == old(it.assertFailed)
    ensures Field(json, ms.rest, MAIN, HUMIDITY, w.humidity) == Field(json, ms, MAIN, HUMIDITY, old(w.humidity))
    ensures Field(json, ms.rest, MAIN, TEMP, w.temp) == Field(json, ms, MAIN, TEMP, old(w.temp))
    ensures Field(json, ms.rest, MAIN, PRESSURE, w.pressure) == Field(json, ms, MAIN, PRESSURE, old(w.pressure))
    ensures Field(json, ms.rest, WIND, SPEED, w.speed) == Field(json, ms, WIND, SPEED, old(w.speed))
    ensures Field(json, ms.rest, WIND, DEG, w.deg) == Field(json, ms, WIND, DEG, old(w.deg))
    ensures Field(json, ms.rest, CLOUDS, ALL, w.all) == Field(json, ms, CLOUDS, ALL, old(w.all))
  {
    hide Flat, FlatMembers, AfterValue, At, WF, WFItems, Values, LastOr, KeyIs, Field;
    OneKey(json, ms.key);
    FieldStep(json, ms, MAIN, HUMIDITY, w.humidity);
    FieldStep(json, ms, MAIN, TEMP, w.temp);
    FieldStep(json, ms, MAIN, PRESSURE, w.pressure);
    FieldStep(json, ms, WIND, SPEED, w.speed);
    FieldStep(json, ms, WIND, DEG, w.deg);
    FieldStep(json, ms, CLOUDS, ALL, w.all);
    PassMember(it.toks, it.p, ms);
    var done := ProcessMain(json, w, it, ms);
    if done {
      return;
    }
    done := ProcessWind(json, w, it, ms);
    if done {
      return;
    }
    done := ProcessClouds(json, w, it, ms);
    if done {
      return;
    }
    var _ := it.SkipKeyAndValue();
  }

  /** On the tokens of any object, every field ends up as the last convertible value at its path, no
      assert fails, and the iterator ends exactly behind the last token. */
  method ProcessRoot(json: seq<byte>, w: WeatherData, it: Iterator, ghost root: Tree)
    requires WF(root) && root.Obj? && it.toks == Flat(root) && it.p == 0 && !it.assertFailed
    requires Positions(json, it.toks)
    modifies w, it
    ensures it.p == |it.toks| && !it.assertFailed
    ensures w.humidity == LastOr(PathValues(json, root.members, MAIN, HUMIDITY), old(w.humidity))
    ensures w.temp == LastOr(PathValues(json, root.members, MAIN, TEMP), old(w.temp))
    ensures w.pressure == LastOr(PathValues(json, root.members, MAIN, PRESSURE), old(w.pressure))
    ensures w.speed == LastOr(PathValues(json, root.members, WIND, SPEED), old(w.speed))
    ensures w.deg == LastOr(PathValues(json, root.members, WIND, DEG), old(w.deg))
    ensures w.all == LastOr(PathValues(json, root.members, CLOUDS, ALL), old(w.all))
  {
    hide Flat, FlatMembers, At, WFItems, PathValues, LastOr, Field;
    FieldMeaning();
    WholeAt(root);
    ObjectAt(it.toks, 0, root);
    ghost var left := root.members;
    var count := it.toks[0].size;
    it.p := 1;
    StillInside(it, left);
    while count > 0 && it.Inside()
      invariant left.MCons? ==> it.Inside()
      invariant Here(it, left) && count == Count(left) && !it.assertFailed
      invariant it.p + |FlatMembers(left)| == |it.toks|
      invariant Field(json, left, MAIN, HUMIDITY, w.humidity) ==
          Field(json, root.members, MAIN, HUMIDITY, old(w.humidity))
      invariant Field(json, left, MAIN, TEMP, w.temp) == Field(json, root.members, MAIN, TEMP, old(w.temp))
      invariant Field(json, left, MAIN, PRESSURE, w.pressure) ==
          Field(json, root.members, MAIN, PRESSURE, old(w.pressure))
      invariant Field(json, left, WIND, SPEED, w.speed) == Field(json, root.members, WIND, SPEED, old(w.speed))
      invariant Field(json, left, WIND, DEG, w.deg) == Field(json, root.members, WIND, DEG, old(w.deg))
      invariant Field(json, left, CLOUDS, ALL, w.all) == Field(json, root.members, CLOUDS, ALL, old(w.all))
      decreases left
    {
      PassMember(it.toks, it.p, left);
      it.AssertKey();
      ProcessRootChild(json, w, it, left);
      left := left.rest;
      count := count - 1;
      StillInside(it, left);
    }
    NoMoreFields(json, left);
  }

  /** weather_process_json: false, with nothing assigned, exactly when the text is not an object. */
  method ProcessJson(json: seq<byte>, w: WeatherData, toks: seq<Tok>, ghost root: Tree) returns (ok: bool, it: Iterator)
    requires Parsed(toks, root) && Positions(json, toks)
    modifies w
    ensures ok <==> toks != [] && root.Obj?
    ensures !ok ==> unchanged(w)
    ensures ok ==> it.toks == toks && it.p == |it.toks| && !it.assertFailed
    ensures ok ==>
        && IsLastAt(json, root.members, MAIN, HUMIDITY, old(w.humidity), w.humidity)
        && IsLastAt(json, root.members, MAIN, TEMP, old(w.temp), w.temp)
        && IsLastAt(json, root.members, MAIN, PRESSURE, old(w.pressure), w.pressure)
        && IsLastAt(json, root.members, WIND, SPEED, old(w.speed), w.speed)
        && IsLastAt(json, root.members, WIND, DEG, old(w.deg), w.deg)
        && IsLastAt(json, root.members, CLOUDS, ALL, old(w.all), w.all)
  {
    hide Flat, PathValues, LastOr, WF, IsLastAt, KeysInText, FlatMembers, At;
    RootKind(root);
    it := DoParse(toks);
    if it.toks == [] {
      return false, it;
    }
    ok := it.toks[0].typ == OBJECT;
    if ok {
      WholeAt(root);
      ObjectAt(it.toks, 0, root);
      MembersInText(json, it.toks, 1, root.members);
      LastAtPath(json, root.members, MAIN, HUMIDITY, w.humidity);
      LastAtPath(json, root.members, MAIN, TEMP, w.temp);
      LastAtPath(json, root.members, MAIN, PRESSURE, w.pressure);
      LastAtPath(json, root.members, WIND, SPEED, w.speed);
      LastAtPath(json, root.members, WIND, DEG, w.deg);
      LastAtPath(json, root.members, CLOUDS, ALL, w.all);
      ProcessRoot(json, w, it, root);
    }
  }

  lemma FieldMeaning()
    ensures forall json, ms, section, key, default ::
              Field(json, ms, section, key, default) == LastOr(PathValues(json, ms, section, key), default)
  {
  }

  // ---------------------------------------------------------------- what the fields are

  /** A string token with exactly these characters. */
  predicate SaysKey(json: seq<byte>, t: Tok, key: seq<byte>) {
    t.typ == STRING && 0 <= t.start <= t.end <= |json| && json[t.start..t.end] == key
  }

  /** A primitive of at most 31 characters under exactly this key. */
  predicate Fits(json: seq<byte>, k: Tok, v: Tree, key: seq<byte>) {
    SaysKey(json, k, key) && v.tok.typ == PRIMITIVE && v.tok.end - v.tok.start <= 31
  }

  predicate FitsAt(json: seq<byte>, ms: Members, i: nat, key: seq<byte>) {
    i < Count(ms) && Fits(json, Nth(ms, i).key, Nth(ms, i).value, key)
  }

  /** Member i is the object with this name. */
  predicate SectionAt(json: seq<byte>, ms: Members, i: nat, section: seq<byte>) {
    i < Count(ms) && Nth(ms, i).value.Obj? && SaysKey(json, Nth(ms, i).key, section)
  }

  predicate KeysInText(json: seq<byte>, ms: Members) {
    match ms
    case MNil => true
    case MCons(k, v, rest) => InText(json, k) && (v.Obj? ==> KeysInText(json, v.members)) && KeysInText(json, rest)
  }

  lemma {:induction false} MembersInText(json: seq<byte>, toks: seq<Tok>, p: nat, ms: Members)
    requires Positions(json, toks) && At(toks, p, FlatMembers(ms))
    ensures KeysInText(json, ms)
    decreases ms
  {
    hide At, Flat, FlatMembers;
    if ms.MCons? {
      MemberAt(toks, p, ms);
      if ms.value.Obj? {
        ObjectAt(toks, p + 1, ms.value);
        MembersInText(json, toks, p + 2, ms.value.members);
      }
      MembersInText(json, toks, p + 1 + |Flat(ms.value)|, ms.rest);
    }
  }

  /** A member contributes its text exactly if it fits. */
  lemma ValuesMeaning(json: seq<byte>, ms: Members, key: seq<byte>)
    requires ms.MCons? && InText(json, ms.key)
    ensures Values(json, ms, key) ==
            (if Fits(json, ms.key, ms.value, key) then [Text(json, ms.value.tok)] else []) + Values(json, ms.rest, key)
  {
  }

  lemma LastOfTwo(a: seq<seq<byte>>, b: seq<seq<byte>>, default: seq<byte>)
    ensures LastOr(a + b, default) == LastOr(b, LastOr(a, default))
  {
  }

  lemma LastOfOne(x: seq<byte>, default: seq<byte>)
    ensures LastOr([x], default) == x && LastOr([], default) == default
  {
  }

  /** The text of the last member of ms that fits, or the default when there is none. */
  ghost predicate IsLastIn(json: seq<byte>, ms: Members, key: seq<byte>, default: seq<byte>, r: seq<byte>) {
    || ((forall i: nat :: !FitsAt(json, ms, i, key)) && r == default)
    || (exists i: nat :: LastFit(json, ms, i, key, r))
  }

  ghost predicate LastFit(json: seq<byte>, ms: Members, i: nat, key: seq<byte>, r: seq<byte>) {
    && FitsAt(json, ms, i, key) && r == Text(json, Nth(ms, i).value.tok)
    && forall k: nat :: i < k ==> !FitsAt(json, ms, k, key)
  }

  lemma {:induction false} LastValue(json: seq<byte>, ms: Members, key: seq<byte>, default: seq<byte>)
    requires KeysInText(json, ms)
    ensures IsLastIn(json, ms, key, default, LastOr(Values(json, ms, key), default))
  {
    hide Values, Fits, Text, LastOr;
    match ms
    case MNil =>
      NoValues(json, key, default);
    case MCons(k, v, rest) =>
      var text := Text(json, v.tok);
      var here := if Fits(json, k, v, key) then [text] else [];
      ValuesMeaning(json, ms, key);
      LastOfTwo(here, Values(json, rest, key), default);
      LastOfOne(text, default);
      LastValue(json, rest, key, LastOr(here, default));
      Shifted(json, ms, key, default, LastOr(Values(json, ms, key), default));
  }

  lemma NoValues(json: seq<byte>, key: seq<byte>, default: seq<byte>)
    ensures Values(json, MNil, key) == [] && LastOr([], default) == default
  {
  }

  // from the members behind the first one to all of them
  lemma Shifted(json: seq<byte>, ms: Members, key: seq<byte>, default: seq<byte>, r: seq<byte>)
    requires ms.MCons?
    requires var text := Text(json, ms.value.tok);
             IsLastIn(json, ms.rest, key, if Fits(json, ms.key, ms.value, key) then text else default, r)
    ensures IsLastIn(json, ms, key, default, r)
  {
    hide Fits, Text;
    assert FitsAt(json, ms, 0, key) == Fits(json, ms.key, ms.value, key);
    assert forall i: nat :: i > 0 ==> FitsAt(json, ms, i, key) == FitsAt(json, ms.rest, i - 1, key);
    if i: nat :| LastFit(json, ms.rest, i, key, r) {
      assert LastFit(json, ms, i + 1, key, r);
    } else if Fits(json, ms.key, ms.value, key) {
      assert LastFit(json, ms, 0, key, r);
    }
  }

  /** Member j of section i, at the path section.key. */
  predicate PathFit(json: seq<byte>, ms: Members, i: nat, j: nat, section: seq<byte>, key: seq<byte>) {
    SectionAt(json, ms, i, section) && FitsAt(json, Nth(ms, i).value.members, j, key)
  }

  ghost predicate LastPathFit(json: seq<byte>, ms: Members, i: nat, j: nat, section: seq<byte>, key: seq<byte>,
                              r: seq<byte>) {
    && PathFit(json, ms, i, j, section, key) && r == Text(json, Nth(Nth(ms, i).value.members, j).value.tok)
    && forall k: nat, l: nat :: (k > i || (k == i && l > j)) ==> !PathFit(json, ms, k, l, section, key)
  }

  /** The text of the last member at the path that fits, or the default when there is none. */
  ghost predicate IsLastAt(json: seq<byte>, ms: Members, section: seq<byte>, key: seq<byte>, default: seq<byte>,
                           r: seq<byte>) {
    || ((forall i: nat, j: nat :: !PathFit(json, ms, i, j, section, key)) && r == default)
    || (exists i: nat, j: nat :: LastPathFit(json, ms, i, j, section, key, r))
  }

  /** What every field holds in the end. */
  lemma {:induction false} LastAtPath(json: seq<byte>, ms: Members, section: seq<byte>, key: seq<byte>,
                                      default: seq<byte>)
    requires KeysInText(json, ms)
    ensures IsLastAt(json, ms, section, key, default, LastOr(PathValues(json, ms, section, key), default))
  {
    hide Values, Fits, Text, LastOr, PathValues, IsLastAt, IsLastIn;
    match ms
    case MNil =>
      NoPathValues(json, section, key, default);
    case MCons(k, v, rest) =>
      PathStep(json, ms, section, key);
      var found := v.Obj? && SaysKey(json, k, section);
      var here := if found then Values(json, v.members, key) else [];
      LastOfTwo(here, PathValues(json, rest, section, key), default);
      LastAtPath(json, rest, section, key, LastOr(here, default));
      var r := LastOr(PathValues(json, ms, section, key), default);
      if found {
        LastValue(json, v.members, key, default);
        ShiftedInto(json, ms, section, key, default, LastOr(here, default), r);
      } else {
        LastOfOne([], default);
        ShiftedOver(json, ms, section, key, default, r);
      }
  }

  lemma NoPathValues(json: seq<byte>, section: seq<byte>, key: seq<byte>, default: seq<byte>)
    ensures IsLastAt(json, MNil, section, key, default, LastOr(PathValues(json, MNil, section, key), default))
  {
  }

  /** A member with the section's name and an object as its value contributes the values of that. */
  lemma PathStep(json: seq<byte>, ms: Members, section: seq<byte>, key: seq<byte>)
    requires ms.MCons? && InText(json, ms.key)
    ensures PathValues(json, ms, section, key) ==
            (if ms.value.Obj? && SaysKey(json, ms.key, section) then Values(json, ms.value.members, key) else []) +
              PathValues(json, ms.rest, section, key)
  {
    hide Values;
  }

  lemma ShiftedOver(json: seq<byte>, ms: Members, section: seq<byte>, key: seq<byte>, default: seq<byte>, r: seq<byte>)
    requires ms.MCons? && !(ms.value.Obj? && SaysKey(json, ms.key, section))
    requires IsLastAt(json, ms.rest, section, key, default, r)
    ensures IsLastAt(json, ms, section, key, default, r)
  {
    hide Text, SaysKey, FitsAt;
    PathShift(json, ms, section, key);
    if i: nat, j: nat :| LastPathFit(json, ms.rest, i, j, section, key, r) {
      assert LastPathFit(json, ms, i + 1, j, section, key, r);
    }
  }

  // positions in the members behind the first one
  lemma PathShift(json: seq<byte>, ms: Members, section: seq<byte>, key: seq<byte>)
    requires ms.MCons?
    ensures forall i: nat, j: nat :: i > 0 ==>
        PathFit(json, ms, i, j, section, key) == PathFit(json, ms.rest, i - 1, j, section, key)
    ensures forall j: nat :: PathFit(json, ms, 0, j, section, key) <==>
        ms.value.Obj? && SaysKey(json, ms.key, section) && FitsAt(json, ms.value.members, j, key)
  {
    hide SaysKey, FitsAt;
  }

  lemma ShiftedInto(json: seq<byte>, ms: Members, section: seq<byte>, key: seq<byte>, default: seq<byte>,
                    mid: seq<byte>, r: seq<byte>)
    requires ms.MCons? && ms.value.Obj? && SaysKey(json, ms.key, section)
    requires IsLastIn(json, ms.value.members, key, default, mid) && IsLastAt(json, ms.rest, section, key, mid, r)
    ensures IsLastAt(json, ms, section, key, default, r)
  {
    hide Text, SaysKey, FitsAt;
    PathShift(json, ms, section, key);
    if i: nat, j: nat :| LastPathFit(json, ms.rest, i, j, section, key, r) {
      assert LastPathFit(json, ms, i + 1, j, section, key, r);
    } else if j: nat :| LastFit(json, ms.value.members, j, key, mid) {
      assert LastPathFit(json, ms, 0, j, section, key, r);
    }
  }

  // ---------------------------------------------------------------- an example

  lemma Names()
    ensures MAIN == Ascii("main") && WIND == Ascii("wind") && CLOUDS == Ascii("clouds")
    ensures HUMIDITY == Ascii("humidity") && TEMP == Ascii("temp") && PRESSURE == Ascii("pressure")
    ensures SPEED == Ascii("speed") && DEG == Ascii("deg") && ALL == Ascii("all")
  {
  }

  // {"main":{"temp":285.09,"temp_min":284.16,"temp_max":285.92}}
  const OTHERS := ",\"temp_min\":284.16,\"temp_max\":285.92}}"
  const TEMPERATURES := "{\"" + ("main" + ("\":{\"" + ("temp" + ("\":" + ("285.09" + OTHERS)))))

  function TemperatureTree(): Tree {
    var t := MCons(Tok(STRING, 10, 14, 1), Leaf(Tok(PRIMITIVE, 16, 22, 0)),
             MCons(Tok(STRING, 24, 32, 1), Leaf(Tok(PRIMITIVE, 34, 40, 0)),
             MCons(Tok(STRING, 42, 50, 1), Leaf(Tok(PRIMITIVE, 52, 58, 0)), MNil)));
    Obj(Tok(OBJECT, 0, 60, 1), MCons(Tok(STRING, 2, 6, 1), Obj(Tok(OBJECT, 8, 59, 3), t), MNil))
  }

  lemma TemperatureTexts()
    ensures |TEMPERATURES| == 60
    ensures TEMPERATURES[2..6] == "main" && TEMPERATURES[10..14] == "temp" && TEMPERATURES[16..22] == "285.09"
  {
    var e := "285.09" + OTHERS;
    var d := "temp" + ("\":" + e);
    var c := "main" + ("\":{\"" + d);
    Piece("{\"", "main", "\":{\"" + d);
    Piece("{\"" + ("main" + "\":{\""), "temp", "\":" + e);
    Piece("{\"" + ("main" + "\":{\"") + ("temp" + "\":"), "285.09", OTHERS);
    assert TEMPERATURES == "{\"" + c;
    assert "{\"" + c == "{\"" + ("main" + "\":{\"") + d;
    assert "{\"" + c == "{\"" + ("main" + "\":{\"") + ("temp" + "\":") + e;
  }

  lemma Piece(a: string, b: string, c: string)
    ensures (a + (b + c))[|a|..|a| + |b|] == b
  {
  }

  /** Of three temperatures the field gets the one under its own name, not the last that begins like it. */
  lemma TempIsTemp(default: seq<byte>)
    ensures WF(TemperatureTree()) && |TEMPERATURES| == 60
    ensures var json, ms := Ascii(TEMPERATURES), TemperatureTree().members;
            LastOr(PathValues(json, ms, MAIN, TEMP), default) == Ascii("285.09")
  {
    hide Ascii, LastOr, Values, PathValues, SaysKey;
    TemperatureTexts();
    Names();
    AsciiSlice(TEMPERATURES, 2, 6);
    AsciiSlice(TEMPERATURES, 10, 14);
    AsciiSlice(TEMPERATURES, 16, 22);
    TemperatureValues(Ascii(TEMPERATURES));
    LastOfOne(Ascii("285.09"), default);
  }

  // three keys of different lengths
  lemma TemperatureValues(json: seq<byte>)
    requires |json| == 60 && json[2..6] == MAIN && json[10..14] == TEMP
    ensures WF(TemperatureTree())
    ensures PathValues(json, TemperatureTree().members, MAIN, TEMP) == [json[16..22]]
  {
    hide Values, PathValues;
    var ms := TemperatureTree().members;
    var t := ms.value.members;
    ValuesMeaning(json, t, TEMP);
    ValuesMeaning(json, t.rest, TEMP);
    ValuesMeaning(json, t.rest.rest, TEMP);
    PathStep(json, ms, MAIN, TEMP);
    NoneBehind(json);
    assert Values(json, t.rest.rest, TEMP) == [];
    assert Values(json, t.rest, TEMP) == [];
  }

  lemma NoneBehind(json: seq<byte>)
    ensures Values(json, MNil, TEMP) == [] && PathValues(json, MNil, MAIN, TEMP) == []
  {
  }
}
