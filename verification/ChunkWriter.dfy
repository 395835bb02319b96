/** UoutWriterFunction: documents leave in numbered chunks, and ws_write turns the numbers into the
    flags of WebSocket frames. */
module ChunkWriter {
  // status 0: the only chunk; -1, -2, ...: the first and further ones; +n: the last one
  datatype Chunk = Chunk(status: int, payload: string)

  function Payloads(chunks: seq<Chunk>): string {
    if chunks == [] then "" else Payloads(chunks[..|chunks| - 1]) + chunks[|chunks| - 1].payload
  }

  lemma PayloadsStep(chunks: seq<Chunk>, c: Chunk)
    ensures Payloads(chunks + [c]) == Payloads(chunks) + c.payload
  {
  }

  /** An unfinished document: chunks -1 .. -k. */
  predicate Unfinished(chunks: seq<Chunk>, k: nat) {
    |chunks| == k && forall i :: 0 <= i < k ==> chunks[i].status == -(i + 1)
  }

  /** A finished document: 0 alone, or -1 .. -k and then k + 1. */
  predicate Finished(chunks: seq<Chunk>) {
    var n := |chunks|;
    && n > 0
    && (forall i :: 0 <= i < n - 1 ==> chunks[i].status == -(i + 1))
    && chunks[n - 1].status == if n == 1 then 0 else n
  }

  /** A finished document has exactly one final chunk, its last one; an unfinished one has none. */
  lemma OneFinalChunk(chunks: seq<Chunk>)
    ensures Finished(chunks) ==> forall i :: 0 <= i < |chunks| ==> (chunks[i].status >= 0 <==> i == |chunks| - 1)
    ensures Unfinished(chunks, |chunks|) ==> forall i :: 0 <= i < |chunks| ==> chunks[i].status < 0
  {
  }

  /** The numbers of three chunks, of one, and of two that are not all. */
  lemma KnownNumbers(a: string, b: string, c: string)
    ensures Finished([Chunk(-1, a), Chunk(-2, b), Chunk(3, c)]) && Finished([Chunk(0, a)])
    ensures Unfinished([Chunk(-1, a), Chunk(-2, b)], 2)
    ensures Frames([Chunk(-1, a), Chunk(-2, b), Chunk(3, c)]) ==
            [Frame(false, true, a), Frame(false, false, b), Frame(true, false, c)]
    ensures Frames([Chunk(0, a)]) == [Frame(true, true, a)]
  {
  }

  // which chunks the callback takes
  datatype Policy = TakesAll | TakesWholeOrNothing | TakesAnyPart

  class FunctionWriter {
    const json: bool
    const policy: Policy
    var nmbChunks: nat
    var accepted: seq<Chunk>

    constructor (json: bool, policy: Policy)
      ensures this.json == json && this.policy == policy && nmbChunks == 0 && accepted == []
    {
      this.json := json;
      this.policy := policy;
      nmbChunks, accepted := 0, [];
    }

    /** The callback: how much it takes is up to the sink. */
    method Callback(s: string, status: int) returns (n: int)
      modifies this`accepted
      ensures n <= |s|
      ensures policy.TakesAll? ==> n == |s|
      ensures policy.TakesWholeOrNothing? ==> n <= 0 || n == |s|
      ensures accepted == if n > 0 then old(accepted) + [Chunk(status, s[..n])] else old(accepted)
    {
      n := *;
      if policy.TakesAll? || n > |s| || (policy.TakesWholeOrNothing? && n > 0) {
        n := |s|;
      }
      if n > 0 {
        accepted := accepted + [Chunk(status, s[..n])];
      }
    }

    /** priv_write: accepted chunks are numbered without gaps, refused ones use up no number. */
    method Write(s: string, isFinal: bool) returns (n: int)
      modifies this
      ensures n <= |s|
      ensures policy.TakesAll? ==> n == |s|
      ensures policy.TakesWholeOrNothing? ==> n <= 0 || n == |s|
      ensures nmbChunks == if isFinal then 0 else if n > 0 then old(nmbChunks) + 1 else old(nmbChunks)
      ensures n <= 0 ==> accepted == old(accepted)
      ensures n > 0 ==> |accepted| == |old(accepted)| + 1 && accepted[..|old(accepted)|] == old(accepted)
      ensures n > 0 ==> accepted[|old(accepted)|].payload == s[..n]
      ensures n > 0 && Unfinished(old(accepted), old(nmbChunks)) ==>
                if isFinal then Finished(accepted) else Unfinished(accepted, nmbChunks)
      ensures Payloads(accepted) == Payloads(old(accepted)) + if n > 0 then s[..n] else ""
    {
      var noFragments := isFinal && nmbChunks == 0;
      var status := if noFragments then 0 else if isFinal then nmbChunks + 1 else (nmbChunks + 1) * -1;
      n := Callback(s, status);
      if n > 0 {
        PayloadsStep(old(accepted), Chunk(status, s[..n]));
        nmbChunks := nmbChunks + 1;
      }
      if isFinal {
        nmbChunks := 0;
      }
    }
  }

  // ---------------------------------------------------------------- WebSocket frames

  // FIN bit, whether the opcode is text (else continuation), payload
  datatype Frame = Frame(fin: bool, text: bool, payload: string)

  /** The header that httpd_ws_frame_t asks for: an unfragmented frame always carries FIN. */
  function FrameOf(c: Chunk): Frame {
    var first := c.status == 0 || c.status == -1;
    var single := c.status == 0;
    var final := 0 <= c.status;
    Frame(if single then true else final, first, c.payload)
  }

  function Frames(chunks: seq<Chunk>): (f: seq<Frame>)
    ensures |f| == |chunks| && forall i :: 0 <= i < |chunks| ==> f[i] == FrameOf(chunks[i])
  {
    seq(|chunks|, i requires 0 <= i < |chunks| => FrameOf(chunks[i]))
  }

  /** Section 5.4 of RFC 6455: one text frame, then continuation frames; FIN on the last one only. */
  predicate LegalMessage(f: seq<Frame>) {
    |f| > 0 && forall i :: 0 <= i < |f| ==> (f[i].text <==> i == 0) && (f[i].fin <==> i == |f| - 1)
  }

  function MessageText(f: seq<Frame>): string {
    if f == [] then "" else MessageText(f[..|f| - 1]) + f[|f| - 1].payload
  }

  lemma {:induction false} SameText(chunks: seq<Chunk>)
    ensures MessageText(Frames(chunks)) == Payloads(chunks)
  {
    if chunks != [] {
      var n := |chunks| - 1;
      assert Frames(chunks)[..n] == Frames(chunks[..n]);
      SameText(chunks[..n]);
    }
  }

  /** The frames of a finished document are one legal message that carries its text; those of an
      unfinished one never carry FIN. */
  lemma DocumentIsMessage(chunks: seq<Chunk>)
    ensures Finished(chunks) ==> LegalMessage(Frames(chunks)) && MessageText(Frames(chunks)) == Payloads(chunks)
    ensures forall k :: Unfinished(chunks, k) ==> forall i :: 0 <= i < k ==> !Frames(chunks)[i].fin
  {
    SameText(chunks);
  }

  class Socket {
    var sent: seq<Frame>

    /** httpd_ws_send_frame: the frame goes out or the call fails. */
    method SendFrame(f: Frame) returns (ok: bool)
      modifies this
      ensures sent == if ok then old(sent) + [f] else old(sent)
    {
      ok := *;
      if ok {
        sent := sent + [f];
      }
    }
  }

  /** ws_write, a callback that takes a chunk whole or refuses it. */
  method WsWrite(req: Socket, s: string, status: int) returns (n: int)
    modifies req
    ensures n == |s| || n == -1
    ensures req.sent == if n >= 0 then old(req.sent) + [FrameOf(Chunk(status, s))] else old(req.sent)
  {
    var firstChunk := status == 0 || status == -1;
    var singleChunk := status == 0;
    var finalChunk := 0 <= status;
    var ok := req.SendFrame(Frame(if singleChunk then true else finalChunk, firstChunk, s));
    if !ok {
      return -1;
    }
    n := |s|;
  }
}
