/** A file that is cut without gap or overlap into consecutive chunks. */
module Tiling {
  function Flatten<T>(chunks: seq<seq<T>>): seq<T> {
    if chunks == [] then [] else Flatten(chunks[..|chunks| - 1]) + chunks[|chunks| - 1]
  }

  /** Where chunk i starts. */
  function Off<T>(chunks: seq<seq<T>>, i: nat): (p: nat)
    requires i <= |chunks|
    ensures i == 0 ==> p == 0
  {
    if i == 0 then 0 else Off(chunks, i - 1) + |chunks[i - 1]|
  }

  predicate SameSizes<T>(a: seq<seq<T>>, b: seq<seq<T>>, n: nat)
    requires n <= |a| && n <= |b|
  {
    forall i :: 0 <= i < n ==> |a[i]| == |b[i]|
  }

  lemma {:induction false} SameSizesSameOff<T>(a: seq<seq<T>>, b: seq<seq<T>>, n: nat)
    requires n <= |a| && n <= |b| && SameSizes(a, b, n)
    ensures Off(a, n) == Off(b, n)
  {
    if n > 0 {
      SameSizesSameOff(a, b, n - 1);
    }
  }

  lemma SameSizesSameOffs<T>(a: seq<seq<T>>, b: seq<seq<T>>)
    requires |a| <= |b| && SameSizes(a, b, |a|)
    ensures forall i :: 0 <= i <= |a| ==> Off(a, i) == Off(b, i)
  {
    forall i | 0 <= i <= |a|
      ensures Off(a, i) == Off(b, i)
    {
      SameSizesSameOff(a, b, i);
    }
  }

  lemma {:induction false} OffIsLength<T>(chunks: seq<seq<T>>)
    ensures |Flatten(chunks)| == Off(chunks, |chunks|)
  {
    if chunks != [] {
      var n := |chunks| - 1;
      OffIsLength(chunks[..n]);
      SameSizesSameOff(chunks[..n], chunks, n);
    }
  }

  lemma {:induction false} FlattenConcat<T>(a: seq<seq<T>>, b: seq<seq<T>>)
    ensures Flatten(a + b) == Flatten(a) + Flatten(b)
  {
    if b == [] {
      assert a + b == a;
    } else {
      var n := |b| - 1;
      assert (a + b)[..|a + b| - 1] == a + b[..n];
      FlattenConcat(a, b[..n]);
    }
  }

  lemma PrefixStep<T>(chunks: seq<seq<T>>, i: nat)
    requires i < |chunks|
    ensures Flatten(chunks[..i + 1]) == Flatten(chunks[..i]) + chunks[i]
  {
    assert chunks[..i + 1][..i] == chunks[..i];
  }

  lemma PrefixLength<T>(chunks: seq<seq<T>>, i: nat)
    requires i <= |chunks|
    ensures |Flatten(chunks[..i])| == Off(chunks, i)
  {
    OffIsLength(chunks[..i]);
    SameSizesSameOff(chunks[..i], chunks, i);
  }

  /** Chunk i occupies [Off(i), Off(i + 1)). */
  lemma FlattenSplit<T>(chunks: seq<seq<T>>, i: nat)
    requires i < |chunks|
    ensures Flatten(chunks) == Flatten(chunks[..i]) + chunks[i] + Flatten(chunks[i + 1..])
    ensures |Flatten(chunks[..i])| == Off(chunks, i)
  {
    assert chunks == chunks[..i + 1] + chunks[i + 1..];
    FlattenConcat(chunks[..i + 1], chunks[i + 1..]);
    PrefixStep(chunks, i);
    PrefixLength(chunks, i);
  }

  /** What a reader finds that seeks to chunk i. */
  lemma ChunkAt<T>(chunks: seq<seq<T>>, i: nat)
    requires i < |chunks|
    ensures Off(chunks, i) + |chunks[i]| == Off(chunks, i + 1) <= |Flatten(chunks)|
    ensures Flatten(chunks)[Off(chunks, i)..Off(chunks, i + 1)] == chunks[i]
  {
    FlattenSplit(chunks, i);
  }

  lemma {:induction false} OffMonotone<T>(chunks: seq<seq<T>>, i: nat, j: nat)
    requires i <= j <= |chunks|
    ensures Off(chunks, i) <= Off(chunks, j)
    decreases j
  {
    if i < j {
      OffMonotone(chunks, i, j - 1);
    }
  }

  /** The effect of lseek(p) followed by write(data). */
  function Splice<T>(file: seq<T>, p: nat, data: seq<T>): (r: seq<T>)
    requires p <= |file|
  {
    file[..p] + data + if p + |data| < |file| then file[p + |data|..] else []
  }

  /** Overwriting the front of a chunk replaces that chunk and no other. */
  lemma ReplaceChunk<T>(chunks: seq<seq<T>>, i: nat, data: seq<T>)
    requires i < |chunks| && |data| <= |chunks[i]|
    ensures Off(chunks, i) <= |Flatten(chunks)|
    ensures Flatten(chunks[i := data + chunks[i][|data|..]]) == Splice(Flatten(chunks), Off(chunks, i), data)
  {
    FlattenSplit(chunks, i);
    FlattenSplit(chunks[i := data + chunks[i][|data|..]], i);
    SpliceMiddle(Flatten(chunks[..i]), chunks[i], Flatten(chunks[i + 1..]), data);
    assert chunks[i := data + chunks[i][|data|..]][..i] == chunks[..i];
    assert chunks[i := data + chunks[i][|data|..]][i + 1..] == chunks[i + 1..];
  }

  lemma SpliceMiddle<T>(head: seq<T>, mid: seq<T>, tail: seq<T>, data: seq<T>)
    requires |data| <= |mid|
    ensures Splice(head + mid + tail, |head|, data) == head + (data + mid[|data|..]) + tail
  {
  }

  lemma AppendChunk<T>(chunks: seq<seq<T>>, c: seq<T>)
    ensures Flatten(chunks + [c]) == Flatten(chunks) + c
  {
  }

  /** Part of a slice. */
  lemma SubSlice<T>(f: seq<T>, p: nat, q: nat, i: nat, n: nat)
    requires p <= q <= |f| && i + n <= q - p
    ensures f[p..q][i..][..n] == f[p + i..p + i + n]
    ensures i == 0 ==> f[p..q][..n] == f[p..p + n]
  {
    var s, t := f[p..q][i..][..n], f[p + i..p + i + n];
    forall k | 0 <= k < n
      ensures s[k] == t[k]
    {
      assert s[k] == f[p..q][i..][k] == f[p..q][i + k] == f[p + i + k];
    }
    assert s == t;
    if i == 0 {
      assert f[p..q][i..] == f[p..q];
    }
  }
}
