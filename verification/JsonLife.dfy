/** Runs of calls and whole lives of a builder: callers that stop at a refused call or go on, that write whenever
    they like, and the final write of the writer's destructor. */
module JsonLife {
  import opened Bytes
  import opened JsonText
  import opened JsonOps
  import opened ChunkWriter
  import opened JsonBuilder

  // ---------------------------------------------------------------- what is kept

  /** A document follows the unbounded builder: they are equal until pending text has been dropped; from then
      on the document is shorter, but ends in the same character as long as there is text in the buffer. */
  predicate Follows(doc: string, spec: string, started: bool, lost: bool) {
    if !lost then doc == spec
    else |doc| < |spec| && (started ==> doc != "" && doc[|doc| - 1] == spec[|spec| - 1])
  }

  lemma FollowsStep(sent: string, doc: string, spec: string, op: Op, ok: bool, started: bool, lost: bool)
    requires Follows(doc, spec, started, lost) && sent <= doc && (started <==> |sent| < |doc|)
    requires Closes(op) && ok ==> started
    ensures Follows(NextDoc(sent, doc, op, ok), if ok then Apply(spec, op) else spec,
                    ok || (started && !OpensRoot(op)), lost || (OpensRoot(op) && started))
  {
    hide Piece;
    PieceNotEmpty(op);
    if OpensRoot(op) {
      assert !started ==> sent == doc;
      assert sent + "" == sent;
    }
  }

  /** Whether the buffer holds text after the calls so far: the last one succeeded, or was none of a root. */
  function StartedAfter(ops: seq<Op>, taken: seq<bool>, ct: int, started: bool): bool
    requires |taken| <= |ops|
  {
    if taken == [] then started
    else
      var n := |taken| - 1;
      taken[n] || (StartedAfter(ops, taken[..n], ct, started) && !Opened(ops, taken[..n], ct))
  }

  // the next call opens a root, which is allowed at depth 0
  predicate Opened(ops: seq<Op>, taken: seq<bool>, ct: int)
    requires |taken| < |ops|
  {
    OpensRoot(ops[|taken|]) && ct + Depth(Pick(ops, taken)) == 0
  }

  /** Some root was opened, or refused, while there was text in the buffer. */
  predicate Loses(ops: seq<Op>, taken: seq<bool>, ct: int, started: bool)
    requires |taken| <= |ops|
  {
    taken != [] &&
    var before := taken[..|taken| - 1];
    Loses(ops, before, ct, started) || (Opened(ops, before, ct) && StartedAfter(ops, before, ct, started))
  }

  lemma LosesStep(ops: seq<Op>, taken: seq<bool>, ok: bool, ct: int, started: bool)
    requires |taken| < |ops|
    ensures var root, was := Opened(ops, taken, ct), StartedAfter(ops, taken, ct, started);
            && StartedAfter(ops, taken + [ok], ct, started) == (ok || (was && !root))
            && Loses(ops, taken + [ok], ct, started) == (Loses(ops, taken, ct, started) || (root && was))
  {
    assert (taken + [ok])[..|taken|] == taken;
  }

  /** The calls that were made and succeeded. */
  function Pick(ops: seq<Op>, taken: seq<bool>): seq<Op>
    requires |taken| <= |ops|
  {
    if taken == [] then []
    else
      var n := |taken| - 1;
      Pick(ops, taken[..n]) + if taken[n] then [ops[n]] else []
  }

  lemma PickStep(ops: seq<Op>, taken: seq<bool>, ok: bool)
    requires |taken| < |ops|
    ensures Pick(ops, taken + [ok]) == Pick(ops, taken) + if ok then [ops[|taken|]] else []
  {
    assert (taken + [ok])[..|taken|] == taken;
  }

  lemma TakenStep(doc: string, ops: seq<Op>, taken: seq<bool>, ok: bool)
    requires |taken| < |ops|
    ensures var op, made, more := ops[|taken|], Pick(ops, taken), Pick(ops, taken + [ok]);
            if ok then
              ApplyAll(doc, more) == Apply(ApplyAll(doc, made), op) && Depth(more) == Depth(made) + Delta(op)
            else more == made
  {
    hide Pick, ApplyAll, Apply, Depth, Delta;
    var op, made := ops[|taken|], Pick(ops, taken);
    PickStep(ops, taken, ok);
    ApplyAllConcat(doc, made, [op]);
    ApplyOne(ApplyAll(doc, made), op);
    DepthConcat(made, op);
    assert made + [] == made;
  }

  /** The asserted precondition of the next call, after the calls so far. */
  predicate MayTake(ops: seq<Op>, taken: seq<bool>, ct: int, started: bool, eof: bool, rootObjs: nat)
    requires |taken| < |ops|
  {
    MayCall(ops[|taken|], ct + Depth(Pick(ops, taken)), StartedAfter(ops, taken, ct, started), eof, rootObjs)
  }

  /** Where a run started: its document, counter and flags; whether nothing hinders the builder, and whether it owns
      its buffer and memory does not run out. */
  datatype Start = Start(doc: string, ct: int, started: bool, eof: bool, rootObjs: nat, free: bool, own: bool)

  /** There is sure to be room for a call: when nothing hinders the builder, for anything below 2048 characters, and
      in a buffer of its own, whatever the writer takes, as long as the document so far and the call fit into 2048. */
  predicate Sure(s: Start, doc: string, op: Op) {
    || (s.free && Required(op) < BUF_MAX_SIZE)
    || (s.own && |doc| + Required(op) <= BUF_MAX_SIZE)
  }

  /** Every call that may be made and is sure to have room succeeds. */
  predicate NoneFails(s: Start, ops: seq<Op>, taken: seq<bool>)
    requires |taken| <= |ops|
  {
    forall i :: 0 <= i < |taken| && MayTake(ops, taken[..i], s.ct, s.started, s.eof, s.rootObjs) ==>
      Sure(s, ApplyAll(s.doc, Pick(ops, taken[..i])), ops[i]) ==> taken[i]
  }

  lemma NoneFailsStep(s: Start, ops: seq<Op>, taken: seq<bool>, ok: bool)
    requires |taken| < |ops| && NoneFails(s, ops, taken)
    requires MayTake(ops, taken, s.ct, s.started, s.eof, s.rootObjs) ==>
        Sure(s, ApplyAll(s.doc, Pick(ops, taken)), ops[|taken|]) ==> ok
    ensures NoneFails(s, ops, taken + [ok])
  {
    hide MayTake, Sure, Pick, ApplyAll;
    var more := taken + [ok];
    assert more[..|taken|] == taken;
    assert forall i :: 0 <= i < |taken| ==> more[..i] == taken[..i];
  }

  // ---------------------------------------------------------------- runs

  /** A root is opened, or refused, by one of the calls while there is text in the buffer. */
  predicate OpensLate(ops: seq<Op>, started: bool) {
    exists i :: 0 <= i < |ops| && OpensRoot(ops[i]) && (started || i > 0)
  }

  /** Makes the calls in order until one reports failure (or aborts). */
  method Run(b: Builder, ops: seq<Op>) returns (done: nat)
    requires b.Valid() && !b.eof && RunOk(ops, b.objCt, b.idx > 0, b.rootObjs)
    modifies b, b.buf, b.td
    ensures b.Valid() && !b.eof && done <= |ops| && (b.buf == old(b.buf) || fresh(b.buf))
    // flushing, growing and refusing never change the document; only a root opened over pending text does
    ensures b.Doc() == ApplyAll(old(b.Doc()), ops[..done])
        <==> !OpensLate(if done < |ops| then ops[..done + 1] else ops, old(b.idx) > 0)
    ensures b.objCt == old(b.objCt) + Depth(ops[..done])
    ensures done == |ops| ==> (b.idx > 0 <==> old(b.idx) > 0 || ops != [])
    // with its own buffer, enough memory and a willing writer no call fails, however long the document is
    ensures b.Unhindered() && (forall i :: 0 <= i < |ops| ==> Required(ops[i]) < BUF_MAX_SIZE) ==> done == |ops|
    // and with its own buffer and enough memory, whatever the writer takes, none that fits into 2048 characters
    ensures done < |ops| && b.isMine && b.memory ==>
        |ApplyAll(old(b.Doc()), ops[..done])| + Required(ops[done]) > BUF_MAX_SIZE
    ensures b.td != null && Unfinished(old(b.td.accepted), old(b.td.nmbChunks)) ==>
        Unfinished(b.td.accepted, b.td.nmbChunks)
  {
    hide Payloads, Unfinished, ApplyAll, Apply, Depth, RunOk, Delta, Required, Enabled, MayCall, Follows, NextDoc,
      OpensLate, OpensRoot, Closes, Builder.Valid, Builder.Doc, Builder.Sent, Builder.Unhindered, Builder.HasRoomFor;
    ghost var doc, started := b.Doc(), b.idx > 0;
    done := 0;
    RunStart(doc, ops, started);
    while done < |ops|
      invariant b.Valid() && !b.eof && done <= |ops| && (b.buf == old(b.buf) || fresh(b.buf))
      invariant RunOk(ops[done..], b.objCt, b.idx > 0, b.rootObjs) && (b.idx > 0 <==> started || done > 0)
      invariant Follows(b.Doc(), ApplyAll(doc, ops[..done]), b.idx > 0, OpensLate(ops[..done], started))
      invariant b.objCt == old(b.objCt) + Depth(ops[..done])
      invariant b.td != null && Unfinished(old(b.td.accepted), old(b.td.nmbChunks)) ==>
          Unfinished(b.td.accepted, b.td.nmbChunks)
    {
      RunStep(doc, ops, done, b.objCt, b.idx > 0, b.rootObjs, started);
      ghost var sent, was := b.Sent(), b.Doc();
      b.SentIsFront();
      b.RoomForCalls(ops[done]);
      FollowsLength(was, ApplyAll(doc, ops[..done]), b.idx > 0, OpensLate(ops[..done], started));
      FollowsEither(sent, was, ApplyAll(doc, ops[..done]), ops[done], b.idx > 0, OpensLate(ops[..done], started));
      var ok := Call(b, ops[done]);
      if !ok {
        FollowsMeaning(b.Doc(), ApplyAll(doc, ops[..done]), b.idx > 0, OpensLate(ops[..done + 1], started));
        return;
      }
      done := done + 1;
    }
    FollowsMeaning(b.Doc(), ApplyAll(doc, ops[..done]), b.idx > 0, OpensLate(ops[..done], started));
    assert ops[..done] == ops;
  }

  lemma FollowsEither(sent: string, doc: string, spec: string, op: Op, started: bool, lost: bool)
    requires Follows(doc, spec, started, lost) && sent <= doc && (started <==> |sent| < |doc|)
    requires Closes(op) ==> started
    ensures Follows(NextDoc(sent, doc, op, true), Apply(spec, op), true, lost || (OpensRoot(op) && started))
    ensures Follows(NextDoc(sent, doc, op, false), spec, started && !OpensRoot(op),
                    lost || (OpensRoot(op) && started))
  {
    hide Follows, NextDoc, Apply, OpensRoot, Closes;
    FollowsStep(sent, doc, spec, op, true, started, lost);
    FollowsStep(sent, doc, spec, op, false, started, lost);
  }

  lemma RunStart(doc: string, ops: seq<Op>, started: bool)
    ensures ops[0..] == ops && ApplyAll(doc, ops[..0]) == doc && Depth(ops[..0]) == 0
    ensures !OpensLate(ops[..0], started) && Follows(doc, doc, started, false)
  {
  }

  lemma RunStep(doc: string, ops: seq<Op>, i: nat, ct: int, now: bool, rootObjs: nat, started: bool)
    requires i < |ops| && RunOk(ops[i..], ct, now, rootObjs) && (now <==> started || i > 0)
    ensures MayCall(ops[i], ct, now, false, rootObjs) && (Closes(ops[i]) ==> now)
    ensures RunOk(ops[i + 1..], ct + Delta(ops[i]), true, rootObjs)
    ensures ApplyAll(doc, ops[..i + 1]) == Apply(ApplyAll(doc, ops[..i]), ops[i])
    ensures Depth(ops[..i + 1]) == Depth(ops[..i]) + Delta(ops[i])
    ensures OpensLate(ops[..i + 1], started) == (OpensLate(ops[..i], started) || (OpensRoot(ops[i]) && now))
  {
    hide Apply, ApplyAll, Depth, Delta, OpensLate;
    assert ops[i..][1..] == ops[i + 1..];
    assert ops[..i + 1] == ops[..i] + [ops[i]];
    ApplyAllConcat(doc, ops[..i], [ops[i]]);
    ApplyOne(ApplyAll(doc, ops[..i]), ops[i]);
    DepthConcat(ops[..i], ops[i]);
    LateStep(ops[..i], ops[i], started);
  }

  lemma LateStep(ops: seq<Op>, op: Op, started: bool)
    ensures OpensLate(ops + [op], started) == (OpensLate(ops, started) || (OpensRoot(op) && (started || ops != [])))
  {
    hide OpensRoot;
    var more := ops + [op];
    assert more[|ops|] == op;
    assert forall i :: 0 <= i < |ops| ==> more[i] == ops[i];
  }

  /** A call, left out when its asserted precondition does not hold. A close that finds no room aborts. */
  method Attempt(b: Builder, op: Op) returns (ok: bool, aborted: bool)
    requires b.Valid()
    modifies b, b.buf, b.td
    ensures b.Valid() && b.eof == old(b.eof) && (b.buf == old(b.buf) || fresh(b.buf))
    ensures var may := MayCall(op, old(b.objCt), old(b.idx) > 0, b.eof, b.rootObjs);
            && b.Doc() == (if may then NextDoc(old(b.Sent()), old(b.Doc()), op, ok) else old(b.Doc()))
            && (ok ==> may)
            && (b.idx > 0 <==> ok || (old(b.idx) > 0 && !(may && OpensRoot(op))))
            && (old(b.HasRoomFor(op)) && may ==> ok) && (aborted <==> may && !ok && Closes(op))
    ensures b.objCt == old(b.objCt) + (if ok then Delta(op) else 0) && b.Unhindered() == old(b.Unhindered())
    ensures b.td != null && Unfinished(old(b.td.accepted), old(b.td.nmbChunks)) ==>
        Unfinished(b.td.accepted, b.td.nmbChunks)
    ensures b.td != null && b.eof ==> b.td.accepted == old(b.td.accepted)
  {
    hide Payloads, Unfinished, Apply, Delta, Required, MayCall, NextDoc, Builder.HasRoomFor;
    ok, aborted := false, false;
    if MayCall(op, b.objCt, b.idx > 0, b.eof, b.rootObjs) {
      ok := Call(b, op);
      aborted := !ok && Closes(op);
    }
  }

  /** What a run of calls keeps, seen from its beginning. */
  predicate Tracks(s: Start, ops: seq<Op>, taken: seq<bool>, doc: string, ct: int, started: bool)
    requires |taken| <= |ops|
  {
    && ct == s.ct + Depth(Pick(ops, taken)) && started == StartedAfter(ops, taken, s.ct, s.started)
    && Follows(doc, ApplyAll(s.doc, Pick(ops, taken)), started, Loses(ops, taken, s.ct, s.started))
    && NoneFails(s, ops, taken)
  }

  lemma TracksStep(s: Start, ops: seq<Op>, taken: seq<bool>, ok: bool, sent: string, doc: string, ct: int,
                   started: bool)
    requires |taken| < |ops| && Tracks(s, ops, taken, doc, ct, started)
    requires sent <= doc && (started <==> |sent| < |doc|)
    requires ok ==> MayCall(ops[|taken|], ct, started, s.eof, s.rootObjs)
    requires MayCall(ops[|taken|], ct, started, s.eof, s.rootObjs) && Sure(s, doc, ops[|taken|]) ==> ok
    ensures var op := ops[|taken|];
            var may := MayCall(op, ct, started, s.eof, s.rootObjs);
            Tracks(s, ops, taken + [ok], if may then NextDoc(sent, doc, op, ok) else doc,
                   ct + (if ok then Delta(op) else 0), ok || (started && !(may && OpensRoot(op))))
  {
    hide Follows, NextDoc, ApplyAll, Pick, Loses, StartedAfter, Depth, Apply, ValidOp, Closes, NoneFails, Required;
    var op, lost := ops[|taken|], Loses(ops, taken, s.ct, s.started);
    LosesStep(ops, taken, ok, s.ct, s.started);
    TakenStep(s.doc, ops, taken, ok);
    OpenValid(op);
    FollowsLength(doc, ApplyAll(s.doc, Pick(ops, taken)), started, lost);
    NoneFailsStep(s, ops, taken, ok);
    if MayCall(op, ct, started, s.eof, s.rootObjs) {
      FollowsStep(sent, doc, ApplyAll(s.doc, Pick(ops, taken)), op, ok, started, lost);
    }
  }

  lemma FollowsLength(doc: string, spec: string, started: bool, lost: bool)
    requires Follows(doc, spec, started, lost)
    ensures |doc| <= |spec|
  {
  }

  lemma OpenValid(op: Op)
    ensures OpensRoot(op) ==> ValidOp(op) && !Closes(op)
    ensures op.CloseRoot? ==> Closes(op)
  {
  }

  /** One attempt keeps track. */
  method Turn(b: Builder, ops: seq<Op>, taken: seq<bool>, ghost s: Start) returns (ok: bool, aborted: bool)
    requires b.Valid() && |taken| < |ops| && b.eof == s.eof && b.rootObjs == s.rootObjs && b.Unhindered() == s.free
    requires s.own == (b.isMine && b.memory)
    requires Tracks(s, ops, taken, b.Doc(), b.objCt, b.idx > 0)
    modifies b, b.buf, b.td
    ensures b.Valid() && b.eof == old(b.eof) && (b.buf == old(b.buf) || fresh(b.buf)) && b.Unhindered() == s.free
    ensures Tracks(s, ops, taken + [ok], b.Doc(), b.objCt, b.idx > 0)
    ensures aborted ==> !ok && Closes(ops[|taken|])
    ensures b.td != null && Unfinished(old(b.td.accepted), old(b.td.nmbChunks)) ==>
        Unfinished(b.td.accepted, b.td.nmbChunks)
    ensures b.td != null && b.eof ==> b.td.accepted == old(b.td.accepted)
  {
    hide Payloads, Unfinished, Delta, Required, MayCall, Closes, NextDoc, OpensRoot, Tracks, Builder.Valid,
      Builder.Doc, Builder.Sent, Builder.Unhindered, Builder.HasRoomFor;
    b.SentIsFront();
    b.RoomForCalls(ops[|taken|]);
    ghost var sent, doc, ct, started := b.Sent(), b.Doc(), b.objCt, b.idx > 0;
    ok, aborted := Attempt(b, ops[|taken|]);
    TracksStep(s, ops, taken, ok, sent, doc, ct, started);
  }

  /** Any calls, whose results the caller ignores. When one aborts the program the run ends there. */
  method RunOn(b: Builder, ops: seq<Op>) returns (taken: seq<bool>)
    requires b.Valid()
    modifies b, b.buf, b.td
    ensures b.Valid() && b.eof == old(b.eof) && (b.buf == old(b.buf) || fresh(b.buf))
    ensures |taken| <= |ops| && (|taken| < |ops| ==> taken != [] && !taken[|taken| - 1] && Closes(ops[|taken| - 1]))
    // the counter is the depth of the calls that succeeded
    ensures b.objCt == old(b.objCt) + Depth(Pick(ops, taken))
    ensures b.idx > 0 <==> StartedAfter(ops, taken, old(b.objCt), old(b.idx) > 0)
    // and the document is theirs exactly if no root was opened while text was pending
    ensures b.Doc() == ApplyAll(old(b.Doc()), Pick(ops, taken)) <==> !Loses(ops, taken, old(b.objCt), old(b.idx) > 0)
    // and no call that may be made and is sure to have room fails
    ensures NoneFails(Start(old(b.Doc()), old(b.objCt), old(b.idx) > 0, b.eof, b.rootObjs, old(b.Unhindered()),
                            b.isMine && b.memory), ops, taken)
    ensures b.td != null && Unfinished(old(b.td.accepted), old(b.td.nmbChunks)) ==>
        Unfinished(b.td.accepted, b.td.nmbChunks)
    ensures b.td != null && b.eof ==> b.td.accepted == old(b.td.accepted)
  {
    hide Payloads, Unfinished, Delta, Required, MayCall, Closes, NextDoc, OpensRoot, Tracks, Pick, StartedAfter, Loses,
      NoneFails, ApplyAll, Depth, Builder.Valid, Builder.Doc, Builder.Sent, Builder.Unhindered;
    ghost var s := Start(b.Doc(), b.objCt, b.idx > 0, b.eof, b.rootObjs, b.Unhindered(), b.isMine && b.memory);
    taken := [];
    TracksNothing(s, ops);
    while |taken| < |ops|
      invariant b.Valid() && b.eof == old(b.eof) && (b.buf == old(b.buf) || fresh(b.buf)) && |taken| <= |ops|
      invariant b.Unhindered() == s.free && Tracks(s, ops, taken, b.Doc(), b.objCt, b.idx > 0)
      invariant b.td != null && Unfinished(old(b.td.accepted), old(b.td.nmbChunks)) ==>
          Unfinished(b.td.accepted, b.td.nmbChunks)
      invariant b.td != null && b.eof ==> b.td.accepted == old(b.td.accepted)
    {
      var ok, aborted := Turn(b, ops, taken, s);
      taken := taken + [ok];
      if aborted {
        break;
      }
    }
    TracksMeaning(s, ops, taken, b.Doc(), b.objCt, b.idx > 0);
  }

  lemma TracksMeaning(s: Start, ops: seq<Op>, taken: seq<bool>, doc: string, ct: int, started: bool)
    requires |taken| <= |ops| && Tracks(s, ops, taken, doc, ct, started)
    ensures ct == s.ct + Depth(Pick(ops, taken)) && started == StartedAfter(ops, taken, s.ct, s.started)
    ensures doc == ApplyAll(s.doc, Pick(ops, taken)) <==> !Loses(ops, taken, s.ct, s.started)
    ensures NoneFails(s, ops, taken)
  {
    hide Follows, ApplyAll, Pick, Loses, StartedAfter, Depth, NoneFails;
    FollowsMeaning(doc, ApplyAll(s.doc, Pick(ops, taken)), started, Loses(ops, taken, s.ct, s.started));
  }

  lemma FollowsMeaning(doc: string, spec: string, started: bool, lost: bool)
    requires Follows(doc, spec, started, lost)
    ensures doc == spec <==> !lost
  {
  }

  lemma TracksNothing(s: Start, ops: seq<Op>)
    ensures Tracks(s, ops, [], s.doc, s.ct, s.started)
  {
  }

  // ---------------------------------------------------------------- lives

  datatype Act = Do(op: Op) | WriteNow(final: bool)

  /** At most one final chunk has been accepted, and nothing behind it. */
  predicate Ended(chunks: seq<Chunk>) {
    Finished(chunks) || Unfinished(chunks, |chunks|)
  }

  /** Any acts in any order, and then the destructor of the writer. Over the whole life there is at most one
      final chunk, and exactly one when the sink takes everything. */
  method Live(b: Builder, acts: seq<Act>) returns (aborted: bool)
    requires b.Valid() && b.td != null && b.td.json
    requires if b.eof then Ended(b.td.accepted) else Unfinished(b.td.accepted, b.td.nmbChunks)
    modifies b, b.buf, b.td
    ensures b.Valid() && (!aborted ==> b.eof) && Ended(b.td.accepted)
    ensures old(b.eof) ==> b.td.accepted == old(b.td.accepted)
    ensures !aborted && b.td.policy.TakesAll? && !old(b.eof) ==> Finished(b.td.accepted)
  {
    hide Payloads, Unfinished, Finished, MayCall, Ended, Apply, Delta, Required;
    for i := 0 to |acts|
      invariant b.Valid() && (b.buf == old(b.buf) || fresh(b.buf)) && (old(b.eof) ==> b.eof)
      invariant if b.eof then Ended(b.td.accepted) else Unfinished(b.td.accepted, b.td.nmbChunks)
      invariant old(b.eof) ==> b.td.accepted == old(b.td.accepted)
      invariant b.eof && !old(b.eof) && b.td.policy.TakesAll? ==> Finished(b.td.accepted)
    {
      match acts[i]
      case WriteNow(final) =>
        EndNow(b, final);
      case Do(op) =>
        var _, stop := Attempt(b, op);
        if stop {
          EndedMeaning(b.td.accepted, b.td.nmbChunks);
          return true;
        }
    }
    EndNow(b, true);
    aborted := false;
  }

  /** One write_json, wherever it stands in a life. */
  method EndNow(b: Builder, final: bool)
    requires b.Valid() && b.td != null && b.td.json
    requires if b.eof then Ended(b.td.accepted) else Unfinished(b.td.accepted, b.td.nmbChunks)
    modifies b`idx, b`eof, b.td
    ensures b.Valid() && (b.eof <==> old(b.eof) || final)
    ensures if b.eof then Ended(b.td.accepted) else Unfinished(b.td.accepted, b.td.nmbChunks)
    ensures old(b.eof) ==> b.td.accepted == old(b.td.accepted)
    ensures b.eof && !old(b.eof) && b.td.policy.TakesAll? ==> Finished(b.td.accepted)
  {
    hide Payloads, Unfinished, Finished, Ended;
    EndedMeaning(b.td.accepted, b.td.nmbChunks);
    var _ := b.WriteJson(final);
    EndedMeaning(b.td.accepted, b.td.nmbChunks);
  }

  lemma EndedMeaning(chunks: seq<Chunk>, k: nat)
    ensures Finished(chunks) || Unfinished(chunks, k) ==> Ended(chunks)
  {
  }

  // ---------------------------------------------------------------- documents

  /** A document from root to root, and its final write. When every call and the final write succeed, the
      accepted chunks are one finished document and its frames are one legal WebSocket message; its text
      parses back to the object exactly if no string needs an escape. */
  method SendDocument(b: Builder, id: Option<string>, ms: Members) returns (ok: bool)
    requires b.Valid() && b.rootObjs <= 1 && b.idx == 0 && b.objCt == 0 && !b.eof
    requires b.td != null && b.td.json && b.td.accepted == [] && b.td.nmbChunks == 0
    requires BuildableMembers(ms)
    modifies b, b.buf, b.td
    ensures b.Valid() && (b.buf == old(b.buf) || fresh(b.buf)) && (ok ==> b.eof)
    ensures ok ==> IsSent(b.td.accepted, Obj(RootMembers(id, ms)), CleanMembers(ms) && (id.Some? ==> Clean(id.value)))
    ensures var ops := RootOps(id, ms);
            old(b.Unhindered()) && (forall i :: 0 <= i < |ops| ==> Required(ops[i]) < BUF_MAX_SIZE) ==> ok
  {
    hide Finished, ApplyAll, RunOk, Depth, RootOps, Print, ParseValue, BuildableMembers, CleanMembers, LegalMessage,
      Required, MessageText, Frames, RootMembers, Clean, OpensLate, OpensRoot;
    var ops := RootOps(id, ms);
    RunRoot(id, ms, b.rootObjs);
    DriveRoot(id, ms);
    RootNotLate(id, ms);
    assert b.Doc() == "";
    var done := Run(b, ops);
    if done < |ops| {
      return false;
    }
    assert ops[..done] == ops;
    ghost var sent, rest := b.Sent(), b.Pending();
    var size := b.idx;
    var n := b.WriteJson(true);
    ok := n == size;
    if ok {
      assert rest[..n] == rest;
      DocumentIsMessage(b.td.accepted);
    }
  }

  /** The chunks are one finished document, one message, with the text of the value; it parses back to the value
      exactly if that is clean. */
  predicate IsSent(chunks: seq<Chunk>, root: Value, clean: bool) {
    && Payloads(chunks) == Print(root)
    && (ParseValue(Payloads(chunks)) == Some(Parsed(root, "")) <==> clean)
    && Finished(chunks) && LegalMessage(Frames(chunks)) && MessageText(Frames(chunks)) == Print(root)
  }

  lemma RootNotLate(id: Option<string>, ms: Members)
    requires BuildableMembers(ms)
    ensures RootOps(id, ms) != [] && !OpensLate(RootOps(id, ms), false)
  {
    hide RootOps, OpensRoot, BuildableMembers;
    RootOpensOnce(id, ms);
  }

  /** Build a document, write it, then do anything at all, and destroy the writer: what was accepted is still
      that one document, finished by exactly one final chunk. */
  method DocumentLife(b: Builder, id: Option<string>, ms: Members, acts: seq<Act>) returns (sent: bool)
    requires b.Valid() && b.rootObjs <= 1 && b.idx == 0 && b.objCt == 0 && !b.eof
    requires b.td != null && b.td.json && b.td.accepted == [] && b.td.nmbChunks == 0
    requires BuildableMembers(ms)
    modifies b, b.buf, b.td
    ensures var c := b.td.accepted;
            sent ==>
              && IsSent(c, Obj(RootMembers(id, ms)), CleanMembers(ms) && (id.Some? ==> Clean(id.value)))
              && forall i :: 0 <= i < |c| ==> (c[i].status >= 0 <==> i == |c| - 1)
    ensures var ops := RootOps(id, ms);
            old(b.Unhindered()) && (forall i :: 0 <= i < |ops| ==> Required(ops[i]) < BUF_MAX_SIZE) ==> sent
  {
    hide Payloads, Unfinished, Finished, LegalMessage, MessageText, Frames, ParseValue, Print, RootMembers, RootOps,
      BuildableMembers, CleanMembers, Required, Clean;
    sent := SendDocument(b, id, ms);
    if sent {
      EndedMeaning(b.td.accepted, 0);
      var _ := Live(b, acts);
      OneFinalChunk(b.td.accepted);
    }
  }

  /** A builder with a buffer of 25 characters of the caller's own, and a whole document in it. */
  method TinyDocument() returns (b: Builder)
    ensures fresh(b) && fresh(b.buf) && b.Valid() && b.buf != null && b.size == 25 && !b.isMine && b.td == null
    ensures b.objCt == 0 && !b.eof && b.idx > 0 && b.Doc() == "{}"
  {
    hide Piece, Apply, Required, Payloads, Unfinished;
    TinyTexts();
    var buf := new char[25](_ => NUL);
    b := new Builder.WithBuffer(buf, null, 0);
    assert b.Sent() == "";
    var root := b.OpenRoot(OpenRoot);
    assert b.Doc() == b.Pending();
    var aborted := b.Close(CloseRoot);
  }

  lemma TinyTexts()
    ensures "" + Piece(OpenRoot) == "{" && Apply("{", CloseRoot) == "{}"
    ensures Required(OpenRoot) <= 24 && Required(CloseRoot) <= 24 && Required(OpenRootId("abcdef")) > 25
  {
    hide Apply;
    assert WithoutComma("{") + "}" == "{}";
    CloseApplies("{");
  }

  lemma CloseApplies(doc: string)
    ensures Apply(doc, CloseRoot) == WithoutComma(doc) + "}"
  {
  }

  /** A refused open_root_object: the document that was pending is lost. */
  method LoseDocument(b: Builder) returns (ok: bool)
    requires b.Valid() && b.size == 25 && !b.isMine && b.td == null && b.objCt == 0 && b.Doc() == "{}"
    modifies b, b.buf
    ensures b.Valid() && !ok && b.Doc() == ""
  {
    hide Piece, Apply, Required, Payloads, Unfinished;
    TinyTexts();
    ok := b.OpenRoot(OpenRootId("abcdef"));
  }
}
