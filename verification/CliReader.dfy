/** The command line reader: a resumable, growable line buffer with quotes and backspace, and the pure
    fold over the typed characters that it must equal. */
module CliReader {
  import opened Bytes

  const BACKSPACE: byte := 8
  const LF: byte := 10
  const CR: byte := 13
  const QUOTE: byte := 34
  const SEMICOLON: byte := 59

  function Quotes(s: seq<byte>): nat {
    if s == [] then 0 else Quotes(s[..|s| - 1]) + if s[|s| - 1] == QUOTE then 1 else 0
  }

  // ---------------------------------------------------------------- meaning

  // the unfinished line, and the lines completed so far
  datatype Typed = Typed(text: seq<byte>, lines: seq<seq<byte>>)

  /** One character: line ends discard the line, backspace takes back, an unquoted ';' completes. */
  function Type(t: Typed, c: byte): Typed {
    if c == CR || c == LF then Typed([], t.lines)
    else if c == BACKSPACE then Typed(if t.text == [] then [] else t.text[..|t.text| - 1], t.lines)
    else if c == SEMICOLON && Quotes(t.text) % 2 == 0 then Typed([], t.lines + [t.text])
    else Typed(t.text + [c], t.lines)
  }

  function TypeAll(t: Typed, s: seq<byte>): Typed {
    if s == [] then t else Type(TypeAll(t, s[..|s| - 1]), s[|s| - 1])
  }

  lemma {:induction false} TypeConcat(t: Typed, a: seq<byte>, b: seq<byte>)
    ensures TypeAll(t, a + b) == TypeAll(TypeAll(t, a), b)
  {
    if b == [] {
      assert a + b == a;
    } else {
      assert (a + b)[..|a + b| - 1] == a + b[..|b| - 1];
      TypeConcat(t, a, b[..|b| - 1]);
    }
  }

  /** Typing characters and taking them all back is typing nothing. */
  lemma {:induction false} BackspacesUndo(t: Typed, s: seq<byte>)
    requires forall i :: 0 <= i < |s| ==> s[i] != 13 && s[i] != 10 && s[i] != 8 && s[i] != 59
    ensures TypeAll(t, s) == Typed(t.text + s, t.lines)
    ensures TypeAll(TypeAll(t, s), seq(|s|, _ => 8)) == t
  {
    hide Quotes;
    if s == [] {
      assert t.text + [] == t.text;
    } else {
      var n := |s| - 1;
      BackspacesUndo(t, s[..n]);
      assert t.text + s[..n] + [s[n]] == t.text + s;
      OneBackspace(TypeAll(t, s[..n]), s[n]);
      assert seq(|s|, _ => 8) == [8] + seq(n, _ => 8);
      TypeConcat(TypeAll(t, s), [8], seq(n, _ => 8));
    }
  }

  lemma OneBackspace(t: Typed, c: byte)
    requires c != 13 && c != 10 && c != 8 && c != 59
    ensures TypeAll(Type(t, c), [8]) == t
  {
    hide Quotes;
    assert [8][..0] == [];
    assert (t.text + [c])[..|t.text|] == t.text;
  }

  /** A line end discards the line and nothing else, and there is nothing to take back in an empty line. */
  lemma LineEndDiscards(t: Typed, s: seq<byte>)
    ensures TypeAll(t, s + [13]) == TypeAll(t, s + [10]) == Typed([], TypeAll(t, s).lines)
    ensures TypeAll(t, s).text == [] ==> TypeAll(t, s + [8]) == TypeAll(t, s)
  {
    hide Quotes;
    assert (s + [13])[..|s|] == (s + [10])[..|s|] == (s + [8])[..|s|] == s;
  }

  /** A ';' completes the line exactly if the quotes before it are closed, and else belongs to it. */
  lemma SemicolonCompletes(t: Typed, s: seq<byte>)
    ensures var u := TypeAll(t, s);
            TypeAll(t, s + [59]) ==
            if multiset(u.text)[34] % 2 == 0 then Typed([], u.lines + [u.text]) else Typed(u.text + [59], u.lines)
  {
    hide Quotes;
    assert (s + [59])[..|s|] == s;
    QuotesAreCounted(TypeAll(t, s).text);
  }

  lemma {:induction false} QuotesAreCounted(s: seq<byte>)
    ensures Quotes(s) == multiset(s)[34]
  {
    if s != [] {
      QuotesAreCounted(s[..|s| - 1]);
      assert s == s[..|s| - 1] + [s[|s| - 1]];
    }
  }

  /** Completed lines only ever get more. */
  lemma {:induction false} LinesGrow(text: seq<byte>, lines: seq<seq<byte>>, s: seq<byte>)
    ensures TypeAll(Typed(text, lines), s) ==
        Typed(TypeAll(Typed(text, []), s).text, lines + TypeAll(Typed(text, []), s).lines)
  {
    if s != [] {
      LinesGrow(text, lines, s[..|s| - 1]);
    }
  }

  /** Every ';' of the text lies inside quotes. */
  predicate SemicolonsQuoted(s: seq<byte>) {
    forall i :: 0 <= i < |s| && s[i] == SEMICOLON ==> Quotes(s[..i]) % 2 == 1
  }

  predicate LinesOk(t: Typed) {
    SemicolonsQuoted(t.text) && forall i :: 0 <= i < |t.lines| ==>
        SemicolonsQuoted(t.lines[i]) && Quotes(t.lines[i]) % 2 == 0
  }

  /** In everything that is ever stored or delivered, ';' lies inside quotes; delivered quotes are balanced. */
  lemma {:induction false} StoredSemicolons(t: Typed, s: seq<byte>)
    requires LinesOk(t)
    ensures LinesOk(TypeAll(t, s))
  {
    if s != [] {
      StoredSemicolons(t, s[..|s| - 1]);
      SemicolonStep(TypeAll(t, s[..|s| - 1]), s[|s| - 1]);
    }
  }

  lemma SemicolonStep(t: Typed, c: byte)
    requires LinesOk(t)
    ensures LinesOk(Type(t, c))
  {
    hide Quotes;
    var u := Type(t, c);
    forall i | 0 <= i < |u.text| && u.text[i] == SEMICOLON
      ensures Quotes(u.text[..i]) % 2 == 1
    {
      assert i <= |t.text| && u.text[..i] == t.text[..i];
      assert i == |t.text| ==> t.text[..i] == t.text;
    }
  }

  /** What a caller gets of a completed line: a C string, and nothing when it is empty. */
  function Delivered(lines: seq<seq<byte>>): seq<seq<byte>> {
    if lines == [] then []
    else
      var line := CStr(lines[|lines| - 1]);
      Delivered(lines[..|lines| - 1]) + if line == [] then [] else [line]
  }

  lemma {:induction false} DeliveredConcat(a: seq<seq<byte>>, b: seq<seq<byte>>)
    ensures Delivered(a + b) == Delivered(a) + Delivered(b)
  {
    hide CStr;
    if b == [] {
      assert a + b == a;
    } else {
      assert (a + b)[..|a + b| - 1] == a + b[..|b| - 1];
      DeliveredConcat(a, b[..|b| - 1]);
    }
  }

  // ---------------------------------------------------------------- device

  // a poll of the device gives a character, or none yet
  type Event = Option<byte>

  function Chars(ev: seq<Event>): seq<byte> {
    if ev == [] then []
    else Chars(ev[..|ev| - 1]) + if ev[|ev| - 1].Some? then [ev[|ev| - 1].value] else []
  }

  lemma {:induction false} CharsConcat(a: seq<Event>, b: seq<Event>)
    ensures Chars(a + b) == Chars(a) + Chars(b)
  {
    if b == [] {
      assert a + b == a;
    } else {
      assert (a + b)[..|a + b| - 1] == a + b[..|b| - 1];
      CharsConcat(a, b[..|b| - 1]);
    }
  }

  class Device {
    var events: seq<Event>

    method GetC() returns (c: Event)
      modifies this
      ensures if old(events) == [] then c == None && events == [] else c == old(events)[0] && events == old(events)[1..]
    {
      if events == [] {
        return None;
      }
      c := events[0];
      events := events[1..];
    }
  }

  /** Typing the characters of the events onto the text leaves the text now and completes the lines. */
  predicate Reads(text: seq<byte>, events: seq<Event>, now: seq<byte>, lines: seq<seq<byte>>) {
    TypeAll(Typed(text, []), Chars(events)) == Typed(now, lines)
  }

  predicate AllArrived(ev: seq<Event>) {
    forall i :: 0 <= i < |ev| ==> ev[i].Some?
  }

  // the last poll, and only that, gave nothing
  predicate LastMissing(ev: seq<Event>) {
    ev != [] && AllArrived(ev[..|ev| - 1]) && ev[|ev| - 1] == None
  }

  lemma ArrivedConcat(a: seq<Event>, b: seq<Event>)
    ensures AllArrived([])
    ensures AllArrived(a) && AllArrived(b) ==> AllArrived(a + b)
    ensures AllArrived(a) && LastMissing(b) ==> LastMissing(a + b)
  {
    if LastMissing(b) {
      assert (a + b)[..|a + b| - 1] == a + b[..|b| - 1];
    }
  }

  // ---------------------------------------------------------------- reader

  datatype Result = Done | Incomplete | BufFull

  class LineBuffer {
    var buf: array?<byte>
    var size: nat
    var idx: nat
    var quoteCount: int
    // realloc(3) never fails
    const memory: bool

    ghost predicate Valid()
      reads this, buf
    {
      && (if buf == null then size == 0 && idx == 0 else buf.Length == size && idx < size)
      && quoteCount == Quotes(Text())
      && CR !in Text() && LF !in Text()
    }

    /** The unfinished line. */
    ghost function Text(): seq<byte>
      reads this, buf
    {
      if buf == null || idx > buf.Length then [] else buf[..idx]
    }

    constructor (memory: bool)
      ensures Valid() && buf == null && Text() == [] && this.memory == memory
    {
      this.memory := memory;
      buf, size, idx, quoteCount := null, 0, 0, 0;
    }

    constructor WithBuffer(buf: array<byte>)
      requires buf.Length > 0
      ensures Valid() && this.buf == buf && Text() == [] && memory
    {
      this.memory := true;
      this.buf, size, idx, quoteCount := buf, buf.Length, 0, 0;
    }

    method Enlarge() returns (ok: bool)
      requires Valid()
      modifies this`buf, this`size
      ensures Valid() && Text() == old(Text()) && size >= old(size)
      ensures ok ==> buf != null && fresh(buf) && size == if old(size) > 0 then old(size) + 32 else 64
      ensures !ok ==> buf == old(buf) && size == old(size)
      ensures memory ==> ok
    {
      hide Quotes;
      ghost var text := Text();
      var newSize := if size > 0 then size + 32 else 64;
      var fails: bool := *;
      if fails && !memory {
        return false;
      }
      var p := new byte[newSize](_ => 0);
      forall i | 0 <= i < size {
        p[i] := buf[i];
      }
      assert p[..idx] == text;
      buf, size := p, newSize;
      ok := true;
    }

    /** The last character goes, and is no longer counted if it was a quote. */
    method Backspace()
      requires Valid()
      modifies this`idx, this`quoteCount
      ensures Valid() && Text() == if old(Text()) == [] then [] else old(Text())[..|old(Text())| - 1]
    {
      hide Quotes;
      if idx > 0 {
        idx := idx - 1;
        assert old(Text()) == buf[..idx] + [buf[idx]];
        QuotesStep(buf[..idx], buf[idx]);
        if buf[idx] == QUOTE {
          quoteCount := quoteCount - 1;
        }
      }
    }

    /** The loop body of cli_get_commandline for one character that has arrived. */
    method Accept(c: byte) returns (done: bool)
      requires Valid() && idx + 1 < size
      modifies this`idx, this`quoteCount, buf
      ensures Valid()
      ensures Type(Typed(old(Text()), []), c) == Typed(Text(), if done then [old(Text())] else [])
      ensures done ==> CStr(buf[..]) == CStr(old(Text())) && idx == 0 && 0 in buf[..]
    {
      hide Quotes, Type, CStr;
      ghost var was := Text();
      TypeMeaning(was, c);
      if c == CR || c == LF {
        quoteCount := 0;
        idx := 0;
      } else if c == BACKSPACE {
        Backspace();
      } else {
        if c == QUOTE {
          quoteCount := quoteCount + 1;
        }
        if quoteCount % 2 == 0 && c == SEMICOLON {
          buf[idx] := 0;
          CStrBefore(was, buf[idx..]);
          assert buf[..] == was + buf[idx..];
          idx := 0;
          quoteCount := 0;
          return true;
        }
        QuotesStep(was, c);
        buf[idx] := c;
        idx := idx + 1;
        assert buf[..idx] == was + [c];
      }
      done := false;
    }

    /** cli_get_commandline. A completed line is left at the front of the buffer. */
    method GetCommandline(dev: Device) returns (r: Result, ghost read: seq<Event>, ghost line: seq<byte>)
      requires Valid() && buf != null
      modifies this`idx, this`quoteCount, buf, dev
      ensures Valid() && old(dev.events) == read + dev.events
      ensures Reads(old(Text()), read, Text(), if r == Done then [line] else [])
      ensures r == Done ==> CStr(buf[..]) == CStr(line) && CR !in line && LF !in line && idx == 0 && 0 in buf[..]
      ensures r == BufFull <==> r != Done && idx + 1 >= size
      ensures r == BufFull ==> read != [] || old(idx) + 1 >= size
      // it reads on until nothing has arrived, and no further
      ensures AllArrived(read) || (r == Incomplete && LastMissing(read))
      ensures r == Incomplete ==> LastMissing(read) || dev.events == []
      ensures r == Done ==> read != []
    {
      hide Quotes, Reads, Type, CStr;
      read, line := [], [];
      ghost var text := Text();
      NothingRead(text);
      if idx + 1 >= size {
        return BufFull, read, line;
      }
      while true
        invariant Valid() && old(dev.events) == read + dev.events && idx + 1 < size
        invariant Reads(text, read, Text(), []) && AllArrived(read)
        decreases |dev.events|
      {
        ghost var ev, was := dev.events, Text();
        var c := dev.GetC();
        if c == None {
          if ev != [] {
            assert read + ev == (read + [c]) + dev.events;
            ReadNone(text, read, was);
            read := read + [c];
          }
          return Incomplete, read, line;
        }
        assert read + ev == (read + [c]) + dev.events;
        var done := Accept(c.value);
        ReadOne(text, read, was, c.value, Text(), if done then [was] else []);
        read := read + [c];
        if done {
          line := was;
          return Done, read, line;
        }
        if idx + 1 >= size {
          return BufFull, read, line;
        }
      }
    }

    method HasLine(ghost line: seq<byte>) returns (ok: bool)
      requires buf != null && buf.Length > 0 && CStr(buf[..]) == CStr(line) && CR !in line && LF !in line
      ensures ok <==> CStr(line) != []
    {
      CStrHead(buf[..]);
      CStrIn(line);
      ok := buf[0] != 0 && buf[0] != CR && buf[0] != LF;
    }

    /** get_commandline. An empty line is as good as none; a full buffer is enlarged and reading resumed. */
    method GetLine(dev: Device) returns (ok: bool, ghost read: seq<Event>, ghost lines: seq<seq<byte>>)
      requires Valid()
      modifies this, buf, dev
      ensures Valid() && old(dev.events) == read + dev.events
      ensures buf == null || buf == old(buf) || fresh(buf)
      ensures Reads(old(Text()), read, Text(), lines)
      ensures ok ==> buf != null && idx == 0 && 0 in buf[..]
      ensures Delivered(lines) == if ok then [CStr(buf[..])] else []
      ensures memory && old(dev.events) != [] ==> read != []
      // with enough memory it reads on until a line is complete or nothing has arrived
      ensures AllArrived(read) || (!ok && LastMissing(read))
      ensures memory && lines == [] ==> LastMissing(read) || dev.events == []
    {
      hide Quotes, Reads, CStr, Delivered, AllArrived, LastMissing;
      ArrivedConcat([], []);
      read, lines := [], [];
      ghost var text := Text();
      NothingRead(text);
      DeliveredOne([]);
      if buf == null {
        var enlarged := Enlarge();
        if !enlarged {
          return false, read, lines;
        }
      }
      while true
        invariant Valid() && buf != null && old(dev.events) == read + dev.events
        invariant buf == old(buf) || fresh(buf)
        invariant Reads(text, read, Text(), []) && lines == [] && AllArrived(read)
        decreases |dev.events|, if idx + 1 < size then 0 else 1
      {
        ghost var was, before := Text(), read;
        var r, more, line := GetCommandline(dev);
        read := read + more;
        ArrivedConcat(before, more);
        Associate(before, more, dev.events);
        ghost var completed := if r == Done then [line] else [];
        Resume(text, before, was, [], more, Text(), completed);
        assert [] + completed == completed;
        match r
        case Done =>
          lines := [line];
          DeliveredOne(line);
          ok := HasLine(line);
          return ok, read, lines;
        case BufFull =>
          var enlarged := Enlarge();
          if !enlarged {
            return false, read, lines;
          }
        case Incomplete =>
          return false, read, lines;
      }
    }
  }

  /** Reading in two goes is reading in one. */
  lemma Resume(text: seq<byte>, read: seq<Event>, now: seq<byte>, lines: seq<seq<byte>>,
               more: seq<Event>, after: seq<byte>, moreLines: seq<seq<byte>>)
    requires Reads(text, read, now, lines) && Reads(now, more, after, moreLines)
    ensures Reads(text, read + more, after, lines + moreLines)
  {
    CharsConcat(read, more);
    TypeConcat(Typed(text, []), Chars(read), Chars(more));
    LinesGrow(now, lines, Chars(more));
  }

  lemma DeliveredOne(line: seq<byte>)
    ensures Delivered([line]) == if CStr(line) == [] then [] else [CStr(line)]
    ensures Delivered([]) == []
  {
  }

  lemma CStrIn(s: seq<byte>)
    ensures forall c :: c in CStr(s) ==> c in s
  {
  }

  lemma CStrHead(s: seq<byte>)
    ensures s != [] ==> (CStr(s) == [] <==> s[0] == 0)
    ensures CStr(s) != [] ==> CStr(s)[0] == s[0]
  {
  }

  lemma QuotesStep(s: seq<byte>, c: byte)
    ensures Quotes(s + [c]) == Quotes(s) + if c == QUOTE then 1 else 0
    ensures Quotes([]) == 0
  {
  }

  lemma Associate<T>(a: seq<T>, b: seq<T>, c: seq<T>)
    ensures (a + b) + c == a + (b + c)
  {
  }

  lemma NothingRead(text: seq<byte>)
    ensures Reads(text, [], text, [])
  {
  }

  lemma ReadNone(text: seq<byte>, read: seq<Event>, now: seq<byte>)
    requires Reads(text, read, now, [])
    ensures Reads(text, read + [None], now, [])
  {
    assert (read + [None])[..|read|] == read;
    assert Chars(read + [None]) == Chars(read);
  }

  lemma ReadOne(text: seq<byte>, read: seq<Event>, now: seq<byte>, c: byte, after: seq<byte>, lines: seq<seq<byte>>)
    requires Reads(text, read, now, []) && Type(Typed(now, []), c) == Typed(after, lines)
    ensures Reads(text, read + [Some(c)], after, lines)
  {
  }

  lemma TypeMeaning(text: seq<byte>, c: byte)
    ensures var t := Type(Typed(text, []), c);
            if c == CR || c == LF then t == Typed([], [])
            else if c == BACKSPACE then t == Typed(if text == [] then [] else text[..|text| - 1], [])
            else if c == SEMICOLON && Quotes(text) % 2 == 0 then t == Typed([], [text])
            else t == Typed(text + [c], [])
    ensures Quotes([]) == 0
  {
  }
}
