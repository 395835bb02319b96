/** UoutBuilderJson: a growing buffer of at most 2048 characters that is flushed to a writer whenever it
    gets too small, and keeps its last character so that a comma can be taken back. */
module JsonBuilder {
  import opened Bytes
  import opened JsonText
  import opened JsonOps
  import opened ChunkWriter

  const BUF_MAX_SIZE := 2048
  const NUL := '\0'

  function Concat(parts: seq<string>): string {
    if parts == [] then "" else parts[0] + Concat(parts[1..])
  }

  /** The strings that the call hands to csu_copy_cat or snprintf. */
  function Parts(op: Op): (p: seq<string>)
    ensures |p| > 0
  {
    match op
    case OpenRootId(id) => ["{\"from\":\"", id, "\","]
    case AddObjectKey(k) => ["\"", k, "\":{"]
    case AddArrayKey(k) => ["\"", k, "\":["]
    case AddString(v) => ["\"", v, "\","]
    case AddKey(k) => ["\"", k, "\":"]
    case PutString(k, v) => ["\"", k, "\":\"", v, "\","]
    case PutBool(k, b) => ["\"", k, "\":", if b then "true" else "false", ","]
    case PutInt(k, n) => ["\"", k, "\":", IntText(n), ","]
    case _ => [Piece(op)]
  }

  lemma Concat1(a: string)
    ensures Concat([a]) == a
  {
  }

  lemma Concat3(a: string, b: string, c: string)
    ensures Concat([a, b, c]) == a + b + c
  {
    assert [a, b, c][1..] == [b, c] && [b, c][1..] == [c];
    Concat1(c);
  }

  lemma Concat5(a: string, b: string, c: string, d: string, e: string)
    ensures Concat([a, b, c, d, e]) == a + b + c + d + e
  {
    assert [a, b, c, d, e][1..] == [b, c, d, e] && [b, c, d, e][1..] == [c, d, e];
    Concat3(c, d, e);
  }

  lemma QuotedThen(k: string, t: string)
    ensures "\"" + k + ("\"" + t) == Quoted(k) + t
  {
  }

  lemma PartsMakePiece(op: Op)
    ensures Concat(Parts(op)) == Piece(op)
  {
    hide IntText, Quoted, Concat;
    var q := "\"";
    match op
    case OpenRootId(id) => Concat3("{\"from\":\"", id, "\",");
    case AddObjectKey(k) =>
      Concat3(q, k, "\":{");
      QuotedThen(k, ":{");
    case AddArrayKey(k) =>
      Concat3(q, k, "\":[");
      QuotedThen(k, ":[");
    case AddString(v) =>
      Concat3(q, v, "\",");
      QuotedThen(v, ",");
    case AddKey(k) =>
      Concat3(q, k, "\":");
      QuotedThen(k, ":");
    case PutString(k, v) => PairParts(k, v);
    case PutBool(k, b) => MemberParts(k, if b then "true" else "false");
    case PutInt(k, n) => MemberParts(k, IntText(n));
    case _ => Concat1(Piece(op));
  }

  lemma MemberParts(k: string, t: string)
    ensures Concat(["\"", k, "\":", t, ","]) == Quoted(k) + ":" + t + ","
  {
    hide Concat, Quoted;
    Concat5("\"", k, "\":", t, ",");
    QuotedThen(k, ":");
  }

  lemma PairParts(k: string, v: string)
    ensures Concat(["\"", k, "\":\"", v, "\","]) == Quoted(k) + ":" + Quoted(v) + ","
  {
    hide Concat;
    Concat5("\"", k, "\":\"", v, "\",");
  }

  /** csu_copy_cat: appends the strings and a NUL. handler: the error handler, abort(3) unless it is replaced,
      is called before a string that is too long. outside: a NUL goes to the byte behind the dstLen bytes; that
      store is only recorded here. Both are avoided exactly if the strings leave room for the NUL. */
  method CsuCopyCat(dst: array<char>, at: nat, dstLen: nat, parts: seq<string>)
    returns (n: nat, handler: bool, outside: bool)
    requires at + dstLen <= dst.Length && |parts| > 0
    modifies dst
    ensures handler <==> |Concat(parts)| > dstLen
    ensures !handler ==> (outside <==> |Concat(parts)| == dstLen)
    ensures !handler ==> n == |Concat(parts)| && dst[..at + n] == old(dst[..at]) + Concat(parts)
    ensures !handler && !outside ==> dst[at + n] == NUL
    ensures dst[..at] == old(dst[..at]) && dst[at + dstLen..] == old(dst[at + dstLen..])
    decreases |parts|
  {
    hide Concat;
    ConcatStep(parts);
    var s := parts[0];
    if |s| > dstLen {
      return 0, true, false;
    }
    forall i | 0 <= i < |s| {
      dst[at + i] := s[i];
    }
    outside := |s| == dstLen;
    if !outside {
      dst[at + |s|] := NUL;
    }
    assert dst[..at + |s|] == old(dst[..at]) + s && dst[at + dstLen..] == old(dst[at + dstLen..]);
    if |parts| == 1 {
      return |s|, false, outside;
    }
    var m, h, o := CsuCopyCat(dst, at + |s|, dstLen - |s|, parts[1..]);
    n, handler, outside := |s| + m, h, outside || o;
    assert old(dst[..at]) + s + Concat(parts[1..]) == old(dst[..at]) + (s + Concat(parts[1..]));
    assert dst[..at] == dst[..at + |s|][..at];
    assert at + |s| + (dstLen - |s|) == at + dstLen;
  }

  lemma ConcatStep(parts: seq<string>)
    requires |parts| > 0
    ensures Concat(parts) == parts[0] + Concat(parts[1..])
    ensures |parts| == 1 ==> Concat(parts) == parts[0]
  {
  }

  class Builder {
    const td: FunctionWriter?
    const rootObjs: nat
    const isMine: bool
    // realloc(3) never fails
    const memory: bool
    var buf: array?<char>
    var size: nat
    var idx: nat
    var objCt: int
    var eof: bool

    ghost predicate Valid()
      reads this`buf, this`size, this`idx, buf
    {
      && (if buf == null then isMine && size == 0 && idx == 0 else buf.Length == size)
      && (idx > 0 ==> idx < size)
      && (isMine ==> size <= BUF_MAX_SIZE)
    }

    ghost function Pending(): string
      reads this`buf, this`size, this`idx, buf
      requires Valid()
    {
      if buf == null then "" else buf[..idx]
    }

    ghost function Sent(): string
      reads td
    {
      if td == null then "" else Payloads(td.accepted)
    }

    /** What has been sent and what is still buffered. */
    ghost function Doc(): string
      reads this`buf, this`size, this`idx, buf, td
      requires Valid()
    {
      Sent() + Pending()
    }

    /** What has been sent is the front of the document, and all of it exactly if nothing is in the buffer. */
    lemma SentIsFront()
      requires Valid()
      ensures Sent() <= Doc() && (idx > 0 <==> |Sent()| < |Doc()|)
    {
    }

    /** The builder owns its buffer, memory does not run out, and the writer takes everything. */
    ghost predicate Unhindered()
      reads this, td
    {
      isMine && memory && Willing()
    }

    // a flush hands over all but the last character
    ghost predicate Willing()
      reads this, td
    {
      td != null && td.json && td.policy.TakesAll? && !eof
    }

    /** There are required free characters, or they can be had: in a buffer of the builder's own, whatever the
        writer takes, as long as what is pending and they fit into 2048, and otherwise by a flush. */
    ghost predicate HasRoom(required: nat)
      reads this, td
    {
      || size - idx >= required
      || (isMine && memory && idx + required <= BUF_MAX_SIZE)
      || (Willing() && idx > 0 && if isMine then memory && required < BUF_MAX_SIZE else required + 20 < size - 1)
    }

    /** After a flush there still is no room: the limit is reached, memory has run out, or the buffer is somebody
        else's and too small. */
    ghost predicate Exhausted(required: nat)
      reads this
    {
      if isMine then !memory || idx + required > 2048 else idx == 0 || required + 20 >= size - idx
    }

    // a root starts at the front of the buffer
    ghost predicate HasRoomFor(op: Op)
      reads this, td
    {
      if OpensRoot(op) then Required(op) <= size || (isMine && memory && Required(op) <= BUF_MAX_SIZE)
      else HasRoom(Required(op))
    }

    lemma RoomForCalls(op: Op)
      requires Valid()
      ensures Unhindered() && Required(op) < BUF_MAX_SIZE ==> HasRoomFor(op)
      ensures isMine && memory && |Doc()| + Required(op) <= BUF_MAX_SIZE ==> HasRoomFor(op)
    {
      hide Required;
      assert |Doc()| == |Sent()| + idx;
    }

    constructor (td: FunctionWriter?, rootObjs: nat, memory: bool)
      ensures Valid() && isMine && this.td == td && this.rootObjs == rootObjs && this.memory == memory
      ensures idx == 0 && objCt == 0 && !eof && buf == null
    {
      this.td, this.rootObjs, this.memory, isMine := td, rootObjs, memory, true;
      buf, size, idx, objCt, eof := null, 0, 0, 0, false;
    }

    constructor WithBuffer(buf: array<char>, td: FunctionWriter?, rootObjs: nat)
      ensures Valid() && !isMine && this.td == td && this.rootObjs == rootObjs
      ensures idx == 0 && objCt == 0 && !eof && this.buf == buf
    {
      this.td, this.rootObjs, this.memory, isMine := td, rootObjs, false, false;
      this.buf, size, idx, objCt, eof := buf, buf.Length, 0, 0, false;
    }

    method ReallocBuffer(n: nat) returns (ok: bool)
      requires Valid() && isMine && n > idx
      modifies this`buf, this`size
      ensures Valid() && Pending() == old(Pending())
      ensures ok ==> buf != null && fresh(buf) && size == n
      ensures !ok ==> buf == old(buf) && size == old(size)
      ensures n <= BUF_MAX_SIZE && memory ==> ok
    {
      if n > BUF_MAX_SIZE {
        return false;
      }
      var fails: bool := *;
      if fails && !memory {
        return false;
      }
      var m := new char[n](_ => NUL);
      var keep := if size < n then size else n;
      forall i | 0 <= i < keep {
        m[i] := buf[i];
      }
      m[idx] := NUL;
      assert buf != null ==> m[..idx] == buf[..idx];
      buf, size := m, n;
      ok := true;
    }

    /** write_some_json: hands everything but the last character to the writer. */
    method WriteSomeJson() returns (n: int)
      requires Valid()
      modifies this`idx, buf, td
      ensures Valid() && Doc() == old(Doc())
      ensures idx <= old(idx) && (old(idx) > 0 ==> idx > 0)
      ensures old(idx) > 0 ==> Pending()[idx - 1] == old(Pending())[old(idx) - 1]
      ensures Willing() && old(idx) > 0 ==> idx == 1
      ensures td != null && Unfinished(old(td.accepted), old(td.nmbChunks)) ==> Unfinished(td.accepted, td.nmbChunks)
      ensures td != null && eof ==> td.accepted == old(td.accepted)
    {
      hide Payloads, Unfinished, Finished;
      if eof || td == null || !td.json {
        return -1;
      }
      if idx <= 1 {
        return 0;
      }
      ghost var all := buf[..idx];
      assert buf[..idx - 1] == all[..idx - 1];
      n := td.Write(buf[..idx - 1], false);
      if n <= 0 {
        return;
      }
      Moved(old(Sent()), all, n);
      MoveDown(n);
    }

    // memcpy(myBuf, myBuf + n, myBuf_idx - n), as a move
    method MoveDown(n: nat)
      requires Valid() && buf != null && n < idx
      modifies this`idx, buf
      ensures Valid() && idx == old(idx) - n && Pending() == old(Pending())[n..]
    {
      forall i | 0 <= i < idx - n {
        buf[i] := buf[i + n];
      }
      idx := idx - n;
      assert buf[..idx] == old(buf[..idx])[n..];
    }

    /** buffer_grow: flush first, then a bigger (or smaller) buffer. */
    method BufferGrow(required: nat) returns (ok: bool)
      requires Valid()
      modifies this`buf, this`size, this`idx, buf, td
      ensures Valid() && Doc() == old(Doc()) && (buf == old(buf) || fresh(buf))
      ensures idx <= old(idx) && (old(idx) > 0 ==> idx > 0)
      ensures old(idx) > 0 ==> Pending()[idx - 1] == old(Pending())[old(idx) - 1]
      ensures ok && required > 0 ==> buf != null && size - idx >= required
      ensures !isMine ==> size == old(size)
      ensures Willing() && old(idx) > 0 ==> idx == 1
      // a buffer of its own grows to what is asked for, whatever the writer took; another one has to be flushed
      ensures isMine && memory && 0 < required && idx + required <= 2048 ==> ok
      ensures isMine && ok && required > 0 ==>
          size - idx == required || (size == old(size) && size - idx > required + 20)
      ensures !isMine ==> (ok <==> old(idx) > 0 && required + 20 < size - idx)
      ensures td != null && Unfinished(old(td.accepted), old(td.nmbChunks)) ==> Unfinished(td.accepted, td.nmbChunks)
      ensures td != null && eof ==> td.accepted == old(td.accepted)
    {
      hide Payloads, Unfinished;
      if buf != null && idx > 0 {
        var _ := WriteSomeJson();
        if required + 20 < size - idx {
          return true;
        }
      }
      if !isMine {
        return false;
      }
      var newSize := 0;
      if required > 0 {
        newSize := required + idx;
      } else if size == 0 {
        newSize := 128;
      } else {
        newSize := size * 2;
      }
      ok := ReallocBuffer(newSize);
    }

    method NotEnoughBuffer(key: string, val: Option<string>) returns (bad: bool)
      requires Valid()
      modifies this`buf, this`size, this`idx, buf, td
      ensures Valid() && Doc() == old(Doc()) && (buf == old(buf) || fresh(buf))
      ensures idx <= old(idx) && (old(idx) > 0 ==> idx > 0)
      ensures old(idx) > 0 ==> Pending()[idx - 1] == old(Pending())[old(idx) - 1]
      ensures var required := |key| + (if val.Some? then |val.value| else 10) + 10;
              && (!bad ==> buf != null && size - idx >= required)
              && (!isMine ==> size == old(size))
              && (bad ==> old(size) - old(idx) < required)
              && (old(HasRoom(required)) ==> !bad) && (bad ==> Exhausted(required))
      ensures td != null && Unfinished(old(td.accepted), old(td.nmbChunks)) ==> Unfinished(td.accepted, td.nmbChunks)
      ensures td != null && eof ==> td.accepted == old(td.accepted)
    {
      hide Payloads, Unfinished;
      var required := |key|;
      required := required + if val.Some? then |val.value| else 10;
      required := required + 10;
      if size - idx < required {
        var ok := BufferGrow(required);
        return !ok;
      }
      bad := false;
    }

    /** The copying half of a call, once there is enough room. */
    method Copy(op: Op)
      requires Valid() && ValidOp(op) && buf != null && |Piece(op)| < size - idx
      modifies this`idx, buf
      ensures Valid() && 0 < idx < size && Pending() == old(Pending()) + Piece(op)
    {
      hide Concat, Parts, Piece;
      PartsMakePiece(op);
      PieceNotEmpty(op);
      var n, handler, outside := CsuCopyCat(buf, idx, size - idx, Parts(op));
      assert !handler && !outside;
      idx := idx + n;
    }

    /** open_root_object, with or without an id: starts at the front of the buffer, whatever is pending. */
    method OpenRoot(op: Op) returns (ok: bool)
      requires Valid() && (op.OpenRoot? || op.OpenRootId?) && objCt == 0
      modifies this`buf, this`size, this`idx, this`objCt, buf, td
      ensures Valid() && (buf == old(buf) || fresh(buf)) && objCt == (if ok then 1 else 0)
      ensures Doc() == old(Sent()) + if ok then Piece(op) else ""
      // so a refused call leaves the document alone iff nothing was pending
      ensures !ok ==> (Doc() == old(Doc()) <==> old(idx) == 0)
      // and a successful one adds to the document iff nothing was pending
      ensures ok ==> (Doc() == Apply(old(Doc()), op) <==> old(idx) == 0)
      ensures ok ==> 0 < idx < size
      ensures !ok ==> idx == 0 && old(size) < Required(op)
      ensures (ok ==> Required(op) <= size) && (!isMine ==> size == old(size))
      ensures (old(HasRoomFor(op)) ==> ok) && (!ok ==> Exhausted(Required(op)))
      ensures td != null && Unfinished(old(td.accepted), old(td.nmbChunks)) ==> Unfinished(td.accepted, td.nmbChunks)
      ensures td != null && eof ==> td.accepted == old(td.accepted)
    {
      hide Payloads, Unfinished, Piece, Required, KeyArg, Apply;
      PieceFits(op);
      ghost var before := Sent();
      NothingLost(before, Pending(), Piece(op));
      OpenApplies(before, Pending(), op);
      idx, objCt := 0, 0;
      RequiredIs(op);
      var bad := NotEnoughBuffer(KeyArg(op), None);
      assert idx == 0 && Pending() == "";
      NothingLost(Sent(), "", Piece(op));
      if bad {
        return false;
      }
      Copy(op);
      objCt := objCt + 1;
      ok := true;
    }

    /** Every call that only adds text: objects, arrays, keys and values. */
    method Append(op: Op) returns (ok: bool)
      requires Valid() && ValidOp(op) && !Closes(op) && !op.OpenRoot? && !op.OpenRootId?
      requires if Opens(op) then !eof && objCt >= rootObjs else idx > 0
      modifies this`buf, this`size, this`idx, this`objCt, buf, td
      ensures Valid() && (buf == old(buf) || fresh(buf))
      ensures Doc() == if ok then Apply(old(Doc()), op) else old(Doc())
      ensures objCt == old(objCt) + if ok then Delta(op) else 0
      ensures ok ==> 0 < idx < size
      ensures old(idx) > 0 ==> idx > 0
      ensures !ok ==> old(size) - old(idx) < Required(op) && idx <= old(idx)
      ensures (old(HasRoomFor(op)) ==> ok) && (!ok ==> Exhausted(Required(op)))
      ensures td != null && Unfinished(old(td.accepted), old(td.nmbChunks)) ==> Unfinished(td.accepted, td.nmbChunks)
      ensures td != null && eof ==> td.accepted == old(td.accepted)
    {
      hide Payloads, Unfinished, Piece, Apply, Required, KeyArg, ValArg, Delta, Builder.HasRoom,
        Builder.Exhausted, Builder.Pending, Builder.Willing, Builder.Unhindered;
      PieceFits(op);
      RequiredIs(op);
      var bad := NotEnoughBuffer(KeyArg(op), ValArg(op));
      if bad {
        return false;
      }
      ApplyAppend(Sent(), Pending(), op);
      Copy(op);
      objCt := objCt + Delta(op);
      ok := true;
    }

    method TakeCommaBack()
      requires Valid() && buf != null && idx > 0
      modifies this`idx
      ensures Valid() && idx <= old(idx) && Pending() == WithoutComma(old(Pending()))
    {
      if buf[idx - 1] == ',' {
        assert buf[..idx][..idx - 1] == buf[..idx - 1];
        idx := idx - 1;
      }
    }

    /** close_object, close_array and close_root_object; aborts when there is no room for the bracket. */
    method Close(op: Op) returns (aborted: bool)
      requires Valid() && Closes(op) && buf != null && idx > 0
      requires if op.CloseRoot? then objCt == 1 else objCt > rootObjs
      modifies this`buf, this`size, this`idx, this`objCt, buf, td
      ensures Valid() && (buf == old(buf) || fresh(buf)) && idx > 0
      ensures Doc() == if aborted then old(Doc()) else Apply(old(Doc()), op)
      ensures objCt == old(objCt) + if aborted then 0 else Delta(op)
      ensures !aborted ==> idx < size
      ensures aborted ==> old(size) - old(idx) < Required(op)
      ensures !isMine ==> size == old(size)
      ensures (old(HasRoomFor(op)) ==> !aborted) && (aborted ==> Exhausted(Required(op)))
      ensures td != null && Unfinished(old(td.accepted), old(td.nmbChunks)) ==> Unfinished(td.accepted, td.nmbChunks)
      ensures td != null && eof ==> td.accepted == old(td.accepted)
    {
      hide Payloads, Unfinished, Piece, Apply, Required, Delta, WithoutComma, Builder.HasRoom,
        Builder.Exhausted, Builder.Willing, Builder.Unhindered;
      PieceFits(op);
      RequiredIs(op);
      aborted := NotEnoughBuffer("", None);
      if aborted {
        return;
      }
      ApplyClose(Sent(), Pending(), op);
      TakeCommaBack();
      Copy(op);
      objCt := objCt - 1;
    }

    /** write_json: whatever the writer says, the buffer is empty afterwards. */
    method WriteJson(final: bool) returns (n: int)
      requires Valid()
      modifies this`idx, this`eof, td
      ensures Valid()
      ensures var skipped := old(eof) || td == null || !td.json;
              && (skipped ==> n == -1 && idx == old(idx) && eof == old(eof) && Sent() == old(Sent()))
              && (!skipped ==> idx == 0 && eof == final)
              && (!skipped && td.policy.TakesAll? ==> n == if old(idx) == 0 then 2 else old(idx))
              && (!skipped && td.policy.TakesWholeOrNothing? ==> n <= 0 || n == if old(idx) == 0 then 2 else old(idx))
      // with nothing pending an empty object goes out
      ensures td != null && n > 0 ==>
                n <= |if old(idx) == 0 then "{}" else old(Pending())| &&
                Sent() == old(Sent()) + (if old(idx) == 0 then "{}" else old(Pending()))[..n]
      ensures td != null && n <= 0 ==> td.accepted == old(td.accepted)
      ensures td != null && !final && Unfinished(old(td.accepted), old(td.nmbChunks)) ==>
          Unfinished(td.accepted, td.nmbChunks)
      ensures td != null && n > 0 && Unfinished(old(td.accepted), old(td.nmbChunks)) ==>
                if final then Finished(td.accepted) else Unfinished(td.accepted, td.nmbChunks)
    {
      hide Payloads, Unfinished, Finished;
      if eof || td == null || !td.json {
        return -1;
      }
      if idx == 0 {
        n := td.Write("{}", final);
      } else {
        n := td.Write(buf[..idx], final);
      }
      idx := 0;
      eof := final;
    }
  }

  /** What the precond asserts of a call ask for. */
  predicate MayCall(op: Op, ct: int, started: bool, eof: bool, rootObjs: nat) {
    && ValidOp(op)
    && Enabled(op, ct, started, rootObjs)
    && (eof && Opens(op) ==> OpensRoot(op))
  }

  /** The asserted preconditions, call by call. */
  lemma Preconditions(op: Op, ct: int, started: bool, eof: bool, rootObjs: nat)
    requires ValidOp(op)
    ensures MayCall(op, ct, started, eof, rootObjs) <==>
            match op
            case OpenRoot => ct == 0
            case OpenRootId(_) => ct == 0
            case CloseRoot => ct == 1 && started
            case CloseObject => ct > rootObjs && started
            case CloseArray => ct > rootObjs && started
            case AddObject => !eof && ct >= rootObjs
            case AddObjectKey(_) => !eof && ct >= rootObjs
            case AddArray => !eof && ct >= rootObjs
            case AddArrayKey(_) => !eof && ct >= rootObjs
            case AddString(_) => started
            case AddKey(_) => started
            case PutString(_, _) => started
            case PutBool(_, _) => started
            case PutInt(_, _) => started
  {
  }

  /** The document after a call, given what of it has been sent: opening a root drops the rest. */
  function NextDoc(sent: string, doc: string, op: Op, ok: bool): string {
    if OpensRoot(op) then sent + (if ok then Piece(op) else "")
    else if ok then Apply(doc, op)
    else doc
  }

  method Call(b: Builder, op: Op) returns (ok: bool)
    requires b.Valid() && MayCall(op, b.objCt, b.idx > 0, b.eof, b.rootObjs)
    modifies b, b.buf, b.td
    ensures b.Valid() && b.eof == old(b.eof) && (b.buf == old(b.buf) || fresh(b.buf))
    ensures b.Doc() == NextDoc(old(b.Sent()), old(b.Doc()), op, ok)
    ensures b.objCt == old(b.objCt) + if ok then Delta(op) else 0
    ensures b.idx > 0 <==> ok || (old(b.idx) > 0 && !OpensRoot(op))
    ensures (old(b.HasRoomFor(op)) ==> ok) && b.Unhindered() == old(b.Unhindered())
    ensures b.td != null && Unfinished(old(b.td.accepted), old(b.td.nmbChunks)) ==>
        Unfinished(b.td.accepted, b.td.nmbChunks)
    ensures b.td != null && b.eof ==> b.td.accepted == old(b.td.accepted)
  {
    hide Payloads, Unfinished, Apply, Delta, Required, Piece;
    RootOpens(op);
    if OpensRoot(op) {
      ok := b.OpenRoot(op);
    } else if Closes(op) {
      var aborted := b.Close(op);
      ok := !aborted;
    } else {
      ok := b.Append(op);
    }
  }

  lemma RootOpens(op: Op)
    ensures OpensRoot(op) ==> Delta(op) == 1
  {
  }

  lemma {:induction false} DepthConcat(a: seq<Op>, op: Op)
    ensures Depth(a + [op]) == Depth(a) + Delta(op)
    decreases |a|
  {
    hide Delta;
    if a == [] {
      assert (a + [op])[1..] == [];
    } else {
      assert (a + [op])[1..] == a[1..] + [op];
      DepthConcat(a[1..], op);
    }
  }

  /** Handing out the first n characters of all but the last one moves them, and keeps the last one. */
  lemma Moved(sent: string, all: string, n: nat)
    requires n < |all|
    ensures sent + all == sent + all[..|all| - 1][..n] + all[n..]
    ensures all[n..][|all| - n - 1] == all[|all| - 1]
  {
  }

  lemma PieceNotEmpty(op: Op)
    ensures |Piece(op)| > 0
  {
  }

  lemma NothingLost(sent: string, pending: string, piece: string)
    ensures sent == sent + pending <==> |pending| == 0
    ensures sent + ("" + piece) == sent + piece && sent + "" == sent
  {
  }

  lemma OpenApplies(sent: string, pending: string, op: Op)
    requires OpensRoot(op)
    ensures sent + Piece(op) == Apply(sent + pending, op) <==> |pending| == 0
  {
    assert pending == "" ==> sent + pending == sent;
  }

  /** The comma that a close takes back is the last character of the buffer and of the whole document. */
  lemma CommaBack(sent: string, pending: string)
    requires pending != ""
    ensures EndsInComma(sent + pending) <==> pending[|pending| - 1] == ','
    ensures WithoutComma(sent + pending) == sent + WithoutComma(pending)
  {
  }

  lemma ApplyAppend(sent: string, pending: string, op: Op)
    requires !Closes(op)
    ensures Apply(sent + pending, op) == sent + (pending + Piece(op))
  {
  }

  lemma ApplyClose(sent: string, pending: string, op: Op)
    requires Closes(op) && pending != ""
    ensures Apply(sent + pending, op) == sent + (WithoutComma(pending) + Piece(op))
    ensures Delta(op) == -1
  {
    hide Piece, WithoutComma;
    CommaBack(sent, pending);
  }

  // the two strings that a call passes to not_enough_buffer
  function KeyArg(op: Op): string {
    match op
    case OpenRootId(id) => id
    case AddObjectKey(k) => k
    case AddArrayKey(k) => k
    case AddKey(k) => k
    case AddString(_) => "---"
    case PutString(k, _) => k
    case PutBool(k, _) => k
    case PutInt(k, _) => k
    case _ => ""
  }

  function ValArg(op: Op): Option<string> {
    match op
    case AddString(v) => Some(v)
    case PutString(_, v) => Some(v)
    case _ => None
  }

  lemma RequiredIs(op: Op)
    ensures Required(op) == |KeyArg(op)| + (if ValArg(op).Some? then |ValArg(op).value| else 10) + 10
    ensures Closes(op) ==> KeyArg(op) == "" && ValArg(op) == None
    ensures op.OpenRoot? || op.OpenRootId? ==> ValArg(op) == None
  {
  }
}
