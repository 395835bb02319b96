/** The key-value store of kvs/host: a file of records that is scanned linearly and reused in place. */
module KvsStore {
  import opened Bytes
  import opened Tiling
  import opened KvsMap
  import opened KvsRecord

  predicate AllWF(recs: seq<seq<byte>>) {
    forall i :: 0 <= i < |recs| ==> WF(recs[i])
  }

  function Slots(recs: seq<seq<byte>>): (s: seq<Slot<seq<byte>, Value>>)
    requires AllWF(recs)
    ensures |s| == |recs| && forall i :: 0 <= i < |recs| ==> s[i] == View(recs[i])
  {
    seq(|recs|, i requires 0 <= i < |recs| => View(recs[i]))
  }

  predicate LiveWith(c: seq<byte>, key: seq<byte>)
    requires |c| >= HDR
  {
    LiIsUsed(c) && KeyOf(c) == key
  }

  predicate FreeInt(c: seq<byte>)
    requires |c| >= HDR
  {
    LiTypeInt(c) && !LiIsUsed(c)
  }

  // a slot that a string or blob of req bytes may take
  predicate Fits(c: seq<byte>, req: int)
    requires |c| >= HDR
  {
    !LiTypeInt(c) && !LiIsUsed(c) && 0 <= BlobSize(c) - req <= MAX_WASTE
  }

  /** b is a after freeing some records of key. */
  predicate Freed(a: seq<seq<byte>>, b: seq<seq<byte>>, key: seq<byte>)
    requires AllWF(a)
  {
    && |a| == |b|
    && forall i :: 0 <= i < |a| ==> b[i] == a[i] || (LiveWith(a[i], key) && b[i] == SetUnused(a[i]))
  }

  /** Every record of another key is where it was, byte for byte. */
  predicate OthersUntouched(a: seq<seq<byte>>, b: seq<seq<byte>>, key: seq<byte>)
    requires AllWF(a)
  {
    && |a| <= |b|
    && SameSizes(a, b, |a|)
    && forall i :: 0 <= i < |a| && LiIsUsed(a[i]) && KeyOf(a[i]) != key ==> b[i] == a[i]
  }

  lemma MatchLive(c: seq<byte>, key: seq<byte>)
    requires WF(c) && 0 !in key
    ensures LiMatchKey(c[..HDR], key) <==> LiveWith(c, Take(key, MAX_KEY_LEN))
    ensures LiveWith(c, Take(key, MAX_KEY_LEN)) ==> LiIsUsed(c)
  {
    MatchKeyMeaning(c, key);
  }

  lemma FreedNothing(a: seq<seq<byte>>, key: seq<byte>)
    requires AllWF(a)
    ensures Freed(a, a, key)
  {
  }

  lemma FreedKeepsStore(a: seq<seq<byte>>, b: seq<seq<byte>>, key: seq<byte>)
    requires AllWF(a) && Unique(Slots(a)) && Freed(a, b, key)
    ensures AllWF(b) && Unique(Slots(b)) && OthersUntouched(a, b, key)
    ensures Frame(Slots(a), Slots(b), key)
  {
    forall i | 0 <= i < |b|
      ensures WF(b[i]) && |b[i]| == |a[i]| && (b[i] == a[i] || (LiveWith(a[i], key) && View(b[i]) == Free))
    {
      UnusedSlot(a[i], 0);
    }
  }

  /** Freeing record i, the only one that carries key, drops key from the map. */
  lemma FreeStep(a: seq<seq<byte>>, i: nat, c: seq<byte>, key: seq<byte>)
    requires AllWF(a) && Unique(Slots(a)) && i < |a| && LiveWith(a[i], key)
    requires WF(c) && View(c) == Free && |c| == |a[i]|
    ensures var b := a[i := c];
            AllWF(b) && Unique(Slots(b)) && OthersUntouched(a, b, key) && Abs(Slots(b)) == Abs(Slots(a)) - {key}
  {
    var b := a[i := c];
    assert Slots(a)[i].key == key;
    FrameRemove(Slots(a), Slots(b), key);
  }

  /** The records after writing c over record j, or behind the last one. */
  function Stored(b: seq<seq<byte>>, j: nat, c: seq<byte>): seq<seq<byte>>
    requires j <= |b|
  {
    if j < |b| then b[j := c] else b + [c]
  }

  /** Freeing the records of key and storing a new one is a map update. */
  lemma StoreStep(a: seq<seq<byte>>, b: seq<seq<byte>>, j: nat, c: seq<byte>, key: seq<byte>, v: Value)
    requires AllWF(a) && Unique(Slots(a)) && Freed(a, b, key) && AllWF(b)
    requires j <= |b| && WF(c) && View(c) == Used(key, v)
    requires j < |b| ==> |c| == |b[j]| && (LiIsUsed(b[j]) ==> KeyOf(b[j]) == key)
    requires OnlyAt(b, j, key)
    ensures var s := Stored(b, j, c);
            AllWF(s) && Unique(Slots(s)) && OthersUntouched(a, s, key) && Abs(Slots(s)) == Abs(Slots(a))[key := v]
  {
    FreedKeepsStore(a, b, key);
    var s := Stored(b, j, c);
    FrameStore(Slots(a), Slots(s), key, j);
  }

  /** Writing data at the slot, or behind the last record, gives exactly the file of the new records. */
  lemma StoreBytes(b: seq<seq<byte>>, j: nat, data: seq<byte>, c: seq<byte>)
    requires j <= |b| && (j < |b| ==> |data| <= |b[j]|)
    requires c == data + if j < |b| then b[j][|data|..] else []
    ensures var p := if j < |b| then Off(b, j) else |Flatten(b)|;
            p <= |Flatten(b)| && Flatten(Stored(b, j, c)) == Splice(Flatten(b), p, data)
  {
    if j < |b| {
      ReplaceChunk(b, j, data);
    } else {
      AppendChunk(b, c);
      assert data + [] == data;
    }
  }

  /** A lookup of another key reads the same bytes at the same place before and after. */
  lemma OtherBytesUnchanged(a: seq<seq<byte>>, b: seq<seq<byte>>, key: seq<byte>, i: nat)
    requires AllWF(a) && OthersUntouched(a, b, key)
    requires i < |a| && LiIsUsed(a[i]) && KeyOf(a[i]) != key
    ensures Off(b, i) == Off(a, i)
    ensures Off(a, i + 1) <= |Flatten(a)| && Off(a, i + 1) <= |Flatten(b)|
    ensures Flatten(b)[Off(a, i)..Off(a, i + 1)] == Flatten(a)[Off(a, i)..Off(a, i + 1)]
  {
    SameSizesSameOff(a, b, i);
    SameSizesSameOff(a, b, i + 1);
    ChunkAt(a, i);
    ChunkAt(b, i);
  }

  /** The records that kvs_find_next stops at. */
  ghost predicate Wanted(c: seq<byte>, key: Option<seq<byte>>, t: byte)
    requires |c| >= HDR
  {
    (key.Some? ==> LiveWith(c, Take(key.value, MAX_KEY_LEN))) && (t == TYPE_ANY || c[2] == t)
  }

  lemma AnyWanted(c: seq<byte>)
    requires |c| >= HDR
    ensures Wanted(c, None, TYPE_ANY)
  {
  }

  // the test that makes the scan pass over a record, made on its header
  predicate Skip(li: LineInfo, key: Option<seq<byte>>, t: byte)
    requires key.Some? ==> 0 !in key.value
  {
    var foundKey := key.Some? && LiMatchKey(li, key.value);
    var foundType := KvsType(li) == t;
    (key.Some? && !foundKey) || (t != TYPE_ANY && !foundType)
  }

  lemma SkipMeaning(c: seq<byte>, key: Option<seq<byte>>, t: byte)
    requires WF(c) && (key.Some? ==> 0 !in key.value)
    ensures Skip(c[..HDR], key, t) <==> !Wanted(c, key, t)
  {
    if key.Some? {
      MatchKeyMeaning(c, key.value);
    }
  }

  /** The header alone tells the size and the kind of the record. */
  lemma HeaderFacts(c: seq<byte>)
    requires WF(c)
    ensures var li := c[..HDR]; LiSize(li) == |c| && li[2] == c[2] != 0
    ensures var li := c[..HDR]; LiTypeInt(li) == LiTypeInt(c) && LiIsUsed(li) == LiIsUsed(c)
    ensures var li := c[..HDR]; BlobLen(li) == BlobLen(c) && BlobSize(li) == BlobSize(c)
    ensures |c| == HDR + if LiTypeInt(c) then 0 else BlobSize(c)
    ensures c[2] < 128 ==> SetUnused(c) == SetUnused(c[..HDR]) + c[HDR..]
  {
  }

  /** Among the first i records, slot bj wastes least; bj == |recs| when none of them will do. */
  ghost predicate BestFit(recs: seq<seq<byte>>, i: nat, req: int, bj: nat): (ok: bool)
    requires AllWF(recs) && i <= |recs|
    ensures i == 0 && bj == |recs| ==> ok
    ensures ok && bj != |recs| ==> bj < i && Fits(recs[bj], req)
  {
    && (bj == |recs| ==> forall x :: 0 <= x < i ==> !Fits(recs[x], req))
    && (bj != |recs| ==> bj < i && Fits(recs[bj], req))
    && (bj != |recs| ==> forall x :: 0 <= x < i && Fits(recs[x], req) ==> BlobSize(recs[bj]) <= BlobSize(recs[x]))
  }

  // best_match_pos, best_match_wasted and best_match_end_pos
  datatype Best = Best(pos: int, wasted: int, end: int)

  /** best describes slot bj, or nothing. */
  ghost predicate BestSlot(recs: seq<seq<byte>>, i: nat, req: int, best: Best, bj: nat)
    requires AllWF(recs) && i <= |recs|
  {
    if best.pos < 0 then bj == |recs| && best.wasted == MAX_WASTE
    else bj < i && best == Best(Off(recs, bj), BlobSize(recs[bj]) - req, Off(recs, bj + 1))
  }

  lemma NoSlotYet(recs: seq<seq<byte>>, req: int)
    requires AllWF(recs)
    ensures BestSlot(recs, 0, req, Best(-1, MAX_WASTE, -1), |recs|)
  {
  }

  lemma BestSlotMeaning(recs: seq<seq<byte>>, req: int, best: Best, bj: nat)
    requires AllWF(recs) && BestSlot(recs, |recs|, req, best, bj) && BestFit(recs, |recs|, req, bj)
    ensures bj <= |recs| && (best.pos < 0 <==> bj == |recs|)
    ensures bj < |recs| ==> best.pos == Off(recs, bj) && best.end == Off(recs, bj + 1) && !LiTypeInt(recs[bj])
  {
  }

  /** Of the free string and blob records with room for req bytes and at most 1000 to waste, bj is a smallest one;
      there is none if bj is behind the last record. */
  lemma LeastWaste(recs: seq<seq<byte>>, req: nat, bj: nat, x: nat)
    requires AllWF(recs) && BestFit(recs, |recs|, req, bj) && x < |recs|
    requires DataType(BaseType(recs[x])) && recs[x][2] >= 128 && req <= BlobSize(recs[x]) <= req + 1000
    ensures bj < |recs| && BlobSize(recs[bj]) <= BlobSize(recs[x])
    ensures DataType(BaseType(recs[bj])) && recs[bj][2] >= 128 && req <= BlobSize(recs[bj]) <= req + 1000
  {
    hide WF, BaseType, BlobSize, LiTypeInt, LiIsUsed;
    KindMeaning(recs[x]);
    assert Fits(recs[x], req);
    KindMeaning(recs[bj]);
  }

  /** No free integer record stands in front of i. */
  lemma FirstFit(recs: seq<seq<byte>>, i: nat, x: nat)
    requires AllWF(recs) && i <= |recs| && NoFreeInt(recs, i) && x < i
    ensures !(IntType(BaseType(recs[x])) && recs[x][2] >= 128)
  {
    hide WF, BaseType, LiTypeInt, LiIsUsed;
    KindMeaning(recs[x]);
    assert !FreeInt(recs[x]);
  }

  /** No free integer slot in front of i. */
  ghost predicate NoFreeInt(recs: seq<seq<byte>>, i: nat): (ok: bool)
    requires AllWF(recs) && i <= |recs|
    ensures i == 0 ==> ok
  {
    forall x :: 0 <= x < i ==> !FreeInt(recs[x])
  }

  lemma NoFreeIntStep(recs: seq<seq<byte>>, i: nat)
    requires AllWF(recs) && i < |recs| && NoFreeInt(recs, i)
    ensures FreeInt(recs[i]) || NoFreeInt(recs, i + 1)
  {
  }

  lemma NoFreeIntFrame(a: seq<seq<byte>>, b: seq<seq<byte>>, i: nat)
    requires AllWF(a) && AllWF(b) && i <= |a| == |b| && a[..i] == b[..i] && NoFreeInt(a, i)
    ensures NoFreeInt(b, i)
  {
  }

  lemma BestFitFrame(a: seq<seq<byte>>, b: seq<seq<byte>>, i: nat, req: int, bj: nat)
    requires AllWF(a) && AllWF(b) && i <= |a| == |b| && a[..i] == b[..i] && BestFit(a, i, req, bj)
    ensures BestFit(b, i, req, bj)
  {
  }

  lemma BestFitStep(recs: seq<seq<byte>>, i: nat, req: int, bj: nat)
    requires AllWF(recs) && i < |recs| && BestFit(recs, i, req, bj)
    ensures var c := recs[i]; var waste := BlobSize(c) - req;
            && (Fits(c, req) && waste == 0 ==> BestFit(recs, |recs|, req, i))
            && (!Fits(c, req) ==> BestFit(recs, i + 1, req, bj))
            && (bj < |recs| && BlobSize(recs[bj]) - req < waste ==> BestFit(recs, i + 1, req, bj))
            && (Fits(c, req) && (bj < |recs| ==> waste <= BlobSize(recs[bj]) - req) ==> BestFit(recs, i + 1, req, i))
  {
  }

  /** No record in front of i is a used one of key. */
  predicate NoneLive(recs: seq<seq<byte>>, i: nat, key: seq<byte>): (ok: bool)
    requires AllWF(recs) && i <= |recs|
    ensures i == 0 ==> ok
  {
    forall x :: 0 <= x < i ==> !LiveWith(recs[x], key)
  }

  /** No record but j is a used one of key. */
  predicate OnlyAt(recs: seq<seq<byte>>, j: nat, key: seq<byte>)
    requires AllWF(recs)
  {
    forall x :: 0 <= x < |recs| && x != j ==> !LiveWith(recs[x], key)
  }

  lemma NoneLiveStep(recs: seq<seq<byte>>, i: nat, key: seq<byte>)
    requires AllWF(recs) && i < |recs| && NoneLive(recs, i, key) && !LiveWith(recs[i], key)
    ensures NoneLive(recs, i + 1, key)
  {
  }

  lemma NoneLiveAtEnd(recs: seq<seq<byte>>, j: nat, key: seq<byte>)
    requires AllWF(recs) && NoneLive(recs, |recs|, key)
    ensures OnlyAt(recs, j, key) && (j < |recs| ==> !LiveWith(recs[j], key))
  {
  }

  /** The record of key that a scan meets is the only one; once it is freed there is none. */
  lemma OnlyOne(recs: seq<seq<byte>>, j: nat, key: seq<byte>)
    requires AllWF(recs) && Unique(Slots(recs)) && j < |recs| && LiveWith(recs[j], key)
    ensures OnlyAt(recs, j, key)
    ensures var b := recs[j := SetUnused(recs[j])]; AllWF(b) && Freed(recs, b, key) && NoneLive(b, |b|, key)
  {
    forall x | 0 <= x < |recs| && x != j
      ensures !LiveWith(recs[x], key)
    {
      assert Slots(recs)[x] == View(recs[x]) && Slots(recs)[j] == View(recs[j]);
    }
    var b := recs[j := SetUnused(recs[j])];
    assert Freed(recs, b, key);
    FreedKeepsStore(recs, b, key);
    SetUnusedFacts(recs[j]);
  }

  /** Freeing the records of key keeps the map, or removes key from it. */
  lemma FreedMeaning(a: seq<seq<byte>>, b: seq<seq<byte>>, key: seq<byte>)
    requires AllWF(a) && Unique(Slots(a)) && Freed(a, b, key)
    ensures AllWF(b) && Unique(Slots(b)) && OthersUntouched(a, b, key)
    ensures b == a || (NoneLive(b, |b|, key) && Abs(Slots(b)) == Abs(Slots(a)) - {key})
  {
    hide KeyOf, LiIsUsed, SetUnused, OthersUntouched, WF, View, Abs, Unique, Slots;
    FreedKeepsStore(a, b, key);
    if i :| 0 <= i < |b| && LiveWith(b[i], key) {
      FreedOther(a, b, i, key);
    } else {
      forall x | 0 <= x < |b|
        ensures Slots(b)[x] == View(b[x]) && (View(b[x]).Used? ==> View(b[x]).key != key)
      {
        ViewKey(b[x]);
      }
      FrameRemove(Slots(a), Slots(b), key);
    }
  }

  lemma ViewKey(c: seq<byte>)
    requires WF(c)
    ensures View(c).Used? <==> LiIsUsed(c)
    ensures View(c).Used? ==> View(c).key == KeyOf(c)
  {
  }

  // a used record of key can only be the one that was there
  lemma FreedOther(a: seq<seq<byte>>, b: seq<seq<byte>>, i: nat, key: seq<byte>)
    requires AllWF(a) && AllWF(b) && Unique(Slots(a)) && Freed(a, b, key) && i < |b| && LiveWith(b[i], key)
    ensures b == a
  {
    hide WF, KeyOf, View, Unique;
    if b[i] == SetUnused(a[i]) && LiIsUsed(a[i]) {
      SetUnusedFacts(a[i]);
      assert false;
    }
    OnlyOne(a, i, key);
  }

  /** No integer record has been touched. */
  predicate IntsKept(a: seq<seq<byte>>, b: seq<seq<byte>>)
    requires AllWF(a)
  {
    |a| == |b| && forall i :: 0 <= i < |a| && LiTypeInt(a[i]) ==> b[i] == a[i]
  }

  lemma IntsKeptFrom(a: seq<seq<byte>>)
    requires AllWF(a)
    ensures IntsKept(a, a)
  {
  }

  lemma IntsKeptStep(a: seq<seq<byte>>, j: nat)
    requires AllWF(a) && j < |a|
    ensures !LiTypeInt(a[j]) ==> IntsKept(a, a[j := SetUnused(a[j])])
  {
  }

  /** An integer setter that aborts behind its search: what is left of the map. */
  lemma IntAborted(a: seq<seq<byte>>, b: seq<seq<byte>>, j: nat, key: seq<byte>)
    requires AllWF(a) && Unique(Slots(a)) && Freed(a, b, key) && AllWF(b) && OnlyAt(b, j, key) && IntsKept(a, b)
    requires j < |b| ==> LiTypeInt(b[j])
    ensures OthersUntouched(a, b, key)
    ensures var m := Abs(Slots(a));
            Abs(Slots(b)) == if key in m && m[key].DataV? then m - {key} else m
  {
    hide KeyOf, LiIsUsed, SetUnused, OthersUntouched, WF, View, Abs, Unique, LiTypeInt, Freed;
    FreedMeaning(a, b, key);
    var m := Abs(Slots(a));
    if key in m {
      var i := HolderOf(a, key);
      assert b != a ==> !LiveWith(b[i], key);
    } else {
      assert m - {key} == m;
    }
  }

  /** The record behind an entry of the map. */
  lemma HolderOf(a: seq<seq<byte>>, key: seq<byte>) returns (i: nat)
    requires AllWF(a) && Unique(Slots(a)) && key in Abs(Slots(a))
    ensures i < |a| && LiveWith(a[i], key) && (LiTypeInt(a[i]) <==> Abs(Slots(a))[key].IntV?)
  {
    hide Abs, WF, View, LiTypeInt;
    i :| Holds(Slots(a), i, key);
    assert Slots(a)[i] == View(a[i]);
    ViewKind(a[i]);
  }

  lemma ViewKind(c: seq<byte>)
    requires WF(c) && View(c).Used?
    ensures LiveWith(c, View(c).key) && (LiTypeInt(c) <==> View(c).value.IntV?)
  {
    hide KeyOf, KeyField, PadKey, ValidKey, DecodeInt, MagicOk, BlobLen, BlobSize, LiSize;
  }

  /** The integer setters: the slot that was found, or the end of the file, becomes the record c. */
  lemma IntStep(a: seq<seq<byte>>, b: seq<seq<byte>>, j: nat, c: seq<byte>, key: seq<byte>, v: Value)
    requires AllWF(a) && Unique(Slots(a)) && Freed(a, b, key) && AllWF(b) && j <= |b| && OnlyAt(b, j, key)
    requires j < |b| ==> LiTypeInt(b[j]) && (LiveWith(b[j], key) || FreeInt(b[j]))
    requires WF(c) && |c| == HDR && View(c) == Used(key, v)
    ensures var s := Stored(b, j, c);
            && AllWF(s) && Unique(Slots(s)) && OthersUntouched(a, s, key)
            && Abs(Slots(s)) == Abs(Slots(a))[key := v]
            && var p := if j < |b| then Off(b, j) else |Flatten(b)|;
               p <= |Flatten(b)| && Flatten(s) == Splice(Flatten(b), p, c)
  {
    hide WF, Off, Flatten, View, Freed, OthersUntouched, OnlyAt, Unique, Splice;
    if j < |b| {
      HeaderFacts(b[j]);
      assert b[j][|c|..] == [];
    }
    StoreStep(a, b, j, c, key, v);
    StoreBytes(b, j, c, c);
  }

  // the record that the string and blob writer leaves in slot j, or appends
  function DataRec(b: seq<seq<byte>>, j: nat, key: seq<byte>, t: byte, data: seq<byte>): seq<byte>
    requires AllWF(b) && ValidKey(key) && |data| < 0x10000
    requires j < |b| ==> !LiTypeInt(b[j]) && |data| <= BlobSize(b[j])
  {
    if j < |b| then
      HeaderFacts(b[j]);
      MakeHeader(t, LenNval(|data|, BlobSize(b[j])), key) + data + b[j][HDR + |data|..]
    else
      MakeHeader(t, LenNval(|data|, |data|), key) + data
  }

  /** The string and blob writer: header and data replace the front of the slot; what remains of the
      old payload stays behind them as waste. */
  lemma DataStep(a: seq<seq<byte>>, b: seq<seq<byte>>, j: nat, key: seq<byte>, t: byte, data: seq<byte>)
    requires AllWF(a) && Unique(Slots(a)) && Freed(a, b, key) && AllWF(b) && j <= |b| && OnlyAt(b, j, key)
    requires ValidKey(key) && |data| < 0x10000 && DataType(t)
    requires j < |b| ==> !LiTypeInt(b[j]) && (Fits(b[j], |data|) || (LiveWith(b[j], key) && BlobSize(b[j]) == |data|))
    ensures var c := DataRec(b, j, key, t, data);
            var s := Stored(b, j, c);
            && AllWF(s) && Unique(Slots(s)) && OthersUntouched(a, s, key)
            && Abs(Slots(s)) == Abs(Slots(a))[key := DataV(t, data)]
            && |Flatten(s)| == |Flatten(a)| + (if j < |b| then 0 else HDR + |data|)
            && var size := if j < |b| then BlobSize(b[j]) else |data|;
               var p := if j < |b| then Off(b, j) else |Flatten(b)|;
               0 <= size < 0x10000 && p <= |Flatten(b)|
               && Flatten(s) == Splice(Flatten(b), p, MakeHeader(t, LenNval(|data|, size), key) + data)
  {
    hide WF, Off, Flatten, View, Freed, OthersUntouched, OnlyAt, Unique, Splice, LiTypeInt, Abs, MakeHeader, LenNval,
        ValidKey;
    var c := DataRec(b, j, key, t, data);
    if j < |b| {
      HeaderFacts(b[j]);
      var h, rest := MakeHeader(t, LenNval(|data|, BlobSize(b[j])), key), b[j][HDR + |data|..];
      DataRecord(t, data, key, rest);
      assert b[j][|h + data|..] == rest;
      StoreStep(a, b, j, c, key, DataV(t, data));
      StoreBytes(b, j, h + data, c);
    } else {
      DataRecord(t, data, key, []);
      assert c + [] == c;
      StoreStep(a, b, j, c, key, DataV(t, data));
      StoreBytes(b, j, c, c);
    }
    StoredLength(a, b, j, c, key);
  }

  /** What the writer reads off the slot that the search returned. */
  lemma SlotRoom(b: seq<seq<byte>>, j: nat, key: seq<byte>, n: nat)
    requires AllWF(b) && j <= |b| && (j < |b| ==> !LiTypeInt(b[j]))
    requires j < |b| && LiveWith(b[j], key) ==> BlobSize(b[j]) == n
    requires j == |b| || !LiveWith(b[j], key) ==> BestFit(b, |b|, n, j)
    ensures j < |b| ==> (Fits(b[j], n) || (LiveWith(b[j], key) && BlobSize(b[j]) == n)) && n <= BlobSize(b[j])
    ensures j < |b| ==> Off(b, j + 1) - Off(b, j) - HDR == BlobSize(b[j])
    ensures j < |b| ==> Off(b, j) + HDR + n <= |Flatten(b)|
  {
    if j < |b| {
      HeaderFacts(b[j]);
      ChunkAt(b, j);
    }
  }

  /** Only a store that finds no slot makes the file longer. */
  lemma StoredLength(a: seq<seq<byte>>, b: seq<seq<byte>>, j: nat, c: seq<byte>, key: seq<byte>)
    requires AllWF(a) && Freed(a, b, key) && j <= |b|
    requires j < |b| ==> |c| == |b[j]|
    ensures |Flatten(Stored(b, j, c))| == |Flatten(a)| + if j < |b| then 0 else |c|
  {
    hide Flatten, Off, WF, KeyOf, LiIsUsed;
    var s := Stored(b, j, c);
    assert SameSizes(a, s, |a|);
    OffIsLength(a);
    OffIsLength(s);
    SameSizesSameOff(a, s, |a|);
    if j == |b| {
      ChunkAt(s, j);
    }
  }

  lemma IntLength(a: seq<seq<byte>>, b: seq<seq<byte>>, j: nat, c: seq<byte>, key: seq<byte>)
    requires AllWF(a) && AllWF(b) && Freed(a, b, key) && j <= |b| && |c| == HDR && (j < |b| ==> LiTypeInt(b[j]))
    ensures |Flatten(Stored(b, j, c))| == |Flatten(a)| + if j < |b| then 0 else HDR
  {
    hide Flatten, WF, KeyOf, LiIsUsed, LiTypeInt, Freed, Stored;
    if j < |b| {
      HeaderFacts(b[j]);
    }
    StoredLength(a, b, j, c, key);
  }

  lemma SpliceTwice(file: seq<byte>, p: nat, x: seq<byte>, y: seq<byte>)
    requires p <= |file|
    ensures Splice(Splice(file, p, x), p + |x|, y) == Splice(file, p, x + y)
  {
  }

  lemma DataSlot(c: seq<byte>)
    requires WF(c) && View(c).Used? && View(c).value.DataV?
    ensures LiveWith(c, View(c).key) && !LiTypeInt(c)
    ensures var n := |View(c).value.data|; n <= BlobSize(c) <= n + MAX_WASTE
  {
    hide KeyOf, KeyField, PadKey, ValidKey, DecodeInt, MagicOk;
    assert |ValueOf(c).data| == BlobLen(c);
  }

  lemma RecordOf(a: seq<seq<byte>>, key: seq<byte>) returns (i: nat)
    requires AllWF(a) && Unique(Slots(a)) && key in Abs(Slots(a)) && Abs(Slots(a))[key].DataV?
    ensures i < |a| && LiveWith(a[i], key) && !LiTypeInt(a[i])
    ensures var n := |Abs(Slots(a))[key].data|; n <= BlobSize(a[i]) <= n + MAX_WASTE
  {
    hide Abs, LiveWith, WF, View, BlobSize, LiTypeInt;
    i :| Holds(Slots(a), i, key);
    assert Slots(a)[i] == View(a[i]);
    DataSlot(a[i]);
  }

  /** A value of the length that key already has always finds a slot: its old record, at least. */
  lemma RewriteFits(a: seq<seq<byte>>, b: seq<seq<byte>>, j: nat, key: seq<byte>, n: nat)
    requires AllWF(a) && Unique(Slots(a)) && Freed(a, b, key) && AllWF(b) && j <= |b| && OnlyAt(b, j, key)
    requires j == |b| ==> BestFit(b, |b|, n, j)
    requires key in Abs(Slots(a)) && Abs(Slots(a))[key].DataV? && |Abs(Slots(a))[key].data| == n
    ensures j < |b|
  {
    hide Abs, Slots, Unique, BlobSize, LiTypeInt, KeyOf, LiIsUsed, SetUnused;
    var i := RecordOf(a, key);
    if b[i] == SetUnused(a[i]) {
      SetUnusedFacts(a[i]);
      assert Fits(b[i], n);
    } else {
      assert LiveWith(b[i], key);
    }
  }

  /** A record that an integer for key can be written over: a free integer record, or the key's own. */
  predicate IntSlotFor(c: seq<byte>, key: seq<byte>)
    requires WF(c)
  {
    IntType(BaseType(c)) && (c[2] >= 128 || KeyOf(c) == key)
  }

  /** The same for n bytes of a string or blob, of which at most 1000 bytes may go to waste. */
  predicate DataSlotFor(c: seq<byte>, key: seq<byte>, n: nat)
    requires WF(c)
  {
    DataType(BaseType(c)) && (c[2] >= 128 || KeyOf(c) == key) && n <= BlobSize(c) <= n + 1000
  }

  lemma KindMeaning(c: seq<byte>)
    requires WF(c)
    ensures (LiTypeInt(c) <==> IntType(BaseType(c))) && (LiIsUsed(c) <==> c[2] < 128)
    ensures !LiTypeInt(c) <==> DataType(BaseType(c))
  {
    hide KeyOf, KeyField, PadKey, ValidKey, MagicOk, BlobLen, BlobSize, LiSize;
  }

  /** An integer setter appends exactly if there is no such record. */
  lemma IntGrowth(a: seq<seq<byte>>, b: seq<seq<byte>>, j: nat, key: seq<byte>)
    requires AllWF(a) && Freed(a, b, key) && AllWF(b) && IntsKept(a, b) && j <= |b| && OnlyAt(b, j, key)
    requires j < |b| ==> LiTypeInt(b[j]) && (LiveWith(b[j], key) || FreeInt(b[j]))
    requires j == |b| ==> NoFreeInt(b, j)
    ensures j < |b| <==> exists i :: 0 <= i < |a| && IntSlotFor(a[i], key)
  {
    hide WF, KeyOf, LiTypeInt, LiIsUsed, SetUnused, BaseType;
    if j < |b| {
      KindMeaning(a[j]);
      FreedKind(a[j], b[j], key);
      assert IntSlotFor(a[j], key);
    }
    forall i | 0 <= i < |a| && IntSlotFor(a[i], key)
      ensures FreeInt(b[i]) || LiveWith(b[i], key)
    {
      KindMeaning(a[i]);
    }
  }

  lemma FreedKind(c: seq<byte>, d: seq<byte>, key: seq<byte>)
    requires WF(c) && (d == c || (LiveWith(c, key) && d == SetUnused(c)))
    ensures |d| == |c| && LiTypeInt(d) == LiTypeInt(c) && BlobSize(d) == BlobSize(c)
    ensures d != c ==> !LiIsUsed(d)
  {
    if d != c {
      SetUnusedFacts(c);
    }
  }

  /** The string and blob writer appends exactly if there is no such record. */
  lemma DataGrowth(a: seq<seq<byte>>, b: seq<seq<byte>>, j: nat, key: seq<byte>, n: nat)
    requires AllWF(a) && Freed(a, b, key) && AllWF(b) && j <= |b| && OnlyAt(b, j, key)
    requires j < |b| ==> !LiTypeInt(b[j]) && (Fits(b[j], n) || (LiveWith(b[j], key) && BlobSize(b[j]) == n))
    requires j == |b| ==> BestFit(b, |b|, n, j)
    ensures j < |b| <==> exists i :: 0 <= i < |a| && DataSlotFor(a[i], key, n)
  {
    hide WF, KeyOf, LiTypeInt, LiIsUsed, SetUnused, BaseType, BlobSize;
    if j < |b| {
      KindMeaning(a[j]);
      FreedKind(a[j], b[j], key);
      assert DataSlotFor(a[j], key, n);
    }
    forall i | 0 <= i < |a| && DataSlotFor(a[i], key, n)
      ensures Fits(b[i], n) || LiveWith(b[i], key)
    {
      KindMeaning(a[i]);
      FreedKind(a[i], b[i], key);
    }
  }

  /** The strlen and strncmp test on a header recognises the prefix. */
  lemma PrefixMeaning(c: seq<byte>, prefix: seq<byte>)
    requires WF(c) && LiIsUsed(c) && 0 !in prefix
    ensures KeyOf(c[..HDR]) == KeyOf(c) && |KeyOf(c)| <= MAX_KEY_LEN && |KeyField(c[..HDR])| == 15
    ensures |prefix| <= |KeyOf(c)| ==> (StrNCmpEq(KeyField(c[..HDR]), prefix + [0], |prefix|) <==> prefix <= KeyOf(c))
  {
    hide WF, KeyOf, KeyField, StrNCmpEq, Take;
    UsedKey(c);
    var k := KeyOf(c);
    if |prefix| <= |k| {
      StrNCmpEqMeaning(k, Zeros(15 - |k|), prefix, |prefix|);
      TakeShort(prefix, |prefix|);
      TakePrefix(k, |prefix|);
    }
  }

  lemma UsedBit(c: seq<byte>)
    requires |c| >= HDR && LiIsUsed(c)
    ensures |SetUnused(c)| == |c| && |SetUnused(c[..HDR])| == HDR
    ensures SetUnused(c)[16 := 0] == SetUnused(c[..HDR])[16 := 0] + c[HDR..]
  {
  }

  /** The header of a record meets the assertion of the writer, whatever the bits of its type say about its use. */
  lemma HeaderWritable(c: seq<byte>, k0: byte)
    requires WF(c)
    ensures var li := SetUnused(c[..HDR]); LiTypeInt(li) || BlobSize(li) >= BlobLen(li)
    ensures var li := SetUnused(c[..HDR])[16 := k0]; LiTypeInt(li) || BlobSize(li) >= BlobLen(li)
  {
  }

  lemma SetUnusedFacts(c: seq<byte>)
    requires |c| >= HDR && LiIsUsed(c)
    ensures var u := SetUnused(c); |u| == |c| && !LiIsUsed(u) && LiTypeInt(u) == LiTypeInt(c)
    ensures BlobSize(SetUnused(c)) == BlobSize(c)
  {
  }

  /** The first n payload bytes of record j, read behind its header. */
  lemma PayloadAt(recs: seq<seq<byte>>, j: nat, n: nat)
    requires j < |recs| && HDR + n <= |recs[j]|
    ensures var p := Off(recs, j) + HDR; p + n <= |Flatten(recs)| && Flatten(recs)[p..p + n] == recs[j][HDR..][..n]
  {
    hide Flatten, Off;
    ChunkAt(recs, j);
    SubSlice(Flatten(recs), Off(recs, j), Off(recs, j + 1), HDR, n);
  }

  lemma HeaderAt(recs: seq<seq<byte>>, j: nat)
    requires j < |recs| && HDR <= |recs[j]|
    ensures var p := Off(recs, j); p + HDR <= |Flatten(recs)| && Flatten(recs)[p..p + HDR] == recs[j][..HDR]
  {
    hide Flatten, Off;
    ChunkAt(recs, j);
    SubSlice(Flatten(recs), Off(recs, j), Off(recs, j + 1), 0, HDR);
  }

  /** What the first wanted record says about the map. */
  lemma LookupMeaning(recs: seq<seq<byte>>, j: nat, key: seq<byte>, t: byte)
    requires AllWF(recs) && Unique(Slots(recs)) && j <= |recs|
    requires forall x :: 0 <= x < j ==> !Wanted(recs[x], Some(key), t)
    requires j < |recs| ==> Wanted(recs[j], Some(key), t)
    ensures var m := Abs(Slots(recs)); var k := Take(key, MAX_KEY_LEN);
            && (j < |recs| <==> k in m && (t == TYPE_ANY || m[k].t == t))
            && (j < |recs| ==> m[k] == ValueOf(recs[j]))
  {
    hide WF, ValueOf, KeyOf, LiIsUsed;
    var k := Take(key, MAX_KEY_LEN);
    if j < |recs| {
      assert Slots(recs)[j] == Used(k, ValueOf(recs[j]));
      UsedValue(recs[j]);
    } else if k in Abs(Slots(recs)) {
      var i :| Holds(Slots(recs), i, k);
      assert Slots(recs)[i] == View(recs[i]);
      UsedValue(recs[i]);
      assert !Wanted(recs[i], Some(key), t);
    }
  }

  lemma UsedValue(c: seq<byte>)
    requires WF(c) && LiIsUsed(c)
    ensures ValueOf(c).t == c[2]
    ensures IntType(c[2]) ==> ValueOf(c) == IntV(c[2], DecodeInt(c[2], c[..HDR][8..16]))
    ensures DataType(c[2]) ==> ValueOf(c) == DataV(c[2], c[HDR..][..BlobLen(c)])
    ensures DataType(c[2]) ==> BlobLen(c) <= |c| - HDR
  {
    hide DecodeInt, KeyOf, KeyField, ValidKey, PadKey;
    assert c[..HDR][8..16] == c[8..16];
  }

  /** The records that a kvs_foreach over type t and key prefix counts. */
  predicate Counted(c: seq<byte>, t: byte, prefix: seq<byte>)
    requires |c| >= HDR
  {
    LiIsUsed(c) && (t == TYPE_ANY || c[2] == t) && prefix <= KeyOf(c)
  }

  ghost function CountedKeys(recs: seq<seq<byte>>, i: nat, t: byte, prefix: seq<byte>): (s: set<seq<byte>>)
    requires AllWF(recs) && i <= |recs|
    ensures i == 0 ==> s == {}
  {
    set x | 0 <= x < i && Counted(recs[x], t, prefix) :: KeyOf(recs[x])
  }

  lemma CountStep(recs: seq<seq<byte>>, i: nat, t: byte, prefix: seq<byte>)
    requires AllWF(recs) && Unique(Slots(recs)) && i < |recs|
    ensures |CountedKeys(recs, i + 1, t, prefix)|
         == |CountedKeys(recs, i, t, prefix)| + if Counted(recs[i], t, prefix) then 1 else 0
    ensures CountedKeys(recs, i + 1, t, prefix)
         == CountedKeys(recs, i, t, prefix) + if Counted(recs[i], t, prefix) then {KeyOf(recs[i])} else {}
  {
    hide KeyOf, WF;
    var s, k := CountedKeys(recs, i, t, prefix), KeyOf(recs[i]);
    if Counted(recs[i], t, prefix) {
      OnlyOne(recs, i, k);
      assert k !in s;
      assert CountedKeys(recs, i + 1, t, prefix) == s + {k};
    } else {
      assert CountedKeys(recs, i + 1, t, prefix) == s;
    }
  }

  /** Keys and types of the counted records, in file order. */
  function Visits(recs: seq<seq<byte>>, i: nat, t: byte, prefix: seq<byte>): (v: seq<(seq<byte>, byte)>)
    requires AllWF(recs) && i <= |recs|
    ensures i == 0 ==> v == []
  {
    if i == 0 then []
    else
      var c := recs[i - 1];
      Visits(recs, i - 1, t, prefix) + if Counted(c, t, prefix) then [(KeyOf(c), KvsType(c))] else []
  }

  /** Skipping records of other types visits nothing. */
  lemma {:induction false} VisitSkip(recs: seq<seq<byte>>, i: nat, j: nat, t: byte, prefix: seq<byte>)
    requires AllWF(recs) && i <= j <= |recs|
    requires forall x :: i <= x < j ==> !Wanted(recs[x], None, t)
    ensures Visits(recs, j, t, prefix) == Visits(recs, i, t, prefix)
    decreases j
  {
    hide WF, KeyOf;
    if i < j {
      VisitSkip(recs, i, j - 1, t, prefix);
      assert !Wanted(recs[j - 1], None, t);
    }
  }

  lemma VisitStep(recs: seq<seq<byte>>, i: nat, t: byte, prefix: seq<byte>)
    requires AllWF(recs) && i < |recs|
    ensures var c := recs[i];
            Visits(recs, i + 1, t, prefix) ==
            Visits(recs, i, t, prefix) + if Counted(c, t, prefix) then [(KeyOf(c), KvsType(c))] else []
    ensures KvsType(recs[i][..HDR]) == KvsType(recs[i])
  {
  }

  lemma {:induction false} VisitCount(recs: seq<seq<byte>>, i: nat, t: byte, prefix: seq<byte>)
    requires AllWF(recs) && Unique(Slots(recs)) && i <= |recs|
    ensures |Visits(recs, i, t, prefix)| == |CountedKeys(recs, i, t, prefix)|
    ensures forall k :: k in CountedKeys(recs, i, t, prefix) <==> Visited(Visits(recs, i, t, prefix), k)
  {
    hide WF, KeyOf, Unique, Slots, CountedKeys, Visits, Visited;
    if i == 0 {
      VisitedStep([], ([], 0));
    } else {
      VisitCount(recs, i - 1, t, prefix);
      CountStep(recs, i - 1, t, prefix);
      VisitStep(recs, i - 1, t, prefix);
      var v := Visits(recs, i - 1, t, prefix);
      VisitedStep(v, (KeyOf(recs[i - 1]), KvsType(recs[i - 1])));
      assert v + [] == v;
    }
  }

  predicate Visited(v: seq<(seq<byte>, byte)>, key: seq<byte>) {
    exists x :: 0 <= x < |v| && v[x].0 == key
  }

  lemma VisitedStep(v: seq<(seq<byte>, byte)>, c: (seq<byte>, byte))
    ensures forall k :: Visited(v + [c], k) <==> Visited(v, k) || k == c.0
    ensures forall k :: !Visited([], k)
  {
    assert (v + [c])[|v|] == c;
    assert forall x :: 0 <= x < |v| ==> (v + [c])[x] == v[x];
  }

  /** A whole iteration visits every key of the map with the type and the prefix, each once. */
  lemma VisitsMeaning(recs: seq<seq<byte>>, t: byte, prefix: seq<byte>)
    requires AllWF(recs) && Unique(Slots(recs))
    ensures var v, m := Visits(recs, |recs|, t, prefix), Abs(Slots(recs));
            var keys := set k | k in m && (t == TYPE_ANY || m[k].t == t) && prefix <= k;
            |v| == |keys| && forall k :: k in keys <==> Visited(v, k)
  {
    hide WF, KeyOf, Unique, Slots, Abs, CountedKeys, Visits, Visited;
    VisitCount(recs, |recs|, t, prefix);
    CountedMeaning(recs, t, prefix);
  }

  // what the callback of an iteration may answer
  datatype Answer = Matches | NoMatch | Done

  /** kvs_foreach_cbT: it sees keys and types, and answers as it likes. */
  class Callback {
    var calls: seq<(seq<byte>, byte)>
    var answers: seq<Answer>

    constructor ()
      ensures calls == [] && answers == []
    {
      calls, answers := [], [];
    }

    method Ask(key: seq<byte>, t: byte) returns (a: Answer)
      modifies this
      ensures calls == old(calls) + [(key, t)] && answers == old(answers) + [a]
    {
      a := *;
      calls, answers := calls + [(key, t)], answers + [a];
    }
  }

  function Hits(answers: seq<Answer>): nat {
    if answers == [] then 0
    else Hits(answers[..|answers| - 1]) + if answers[|answers| - 1] == NoMatch then 0 else 1
  }

  lemma HitsStep(answers: seq<Answer>, a: Answer)
    ensures Hits(answers + [a]) == Hits(answers) + if a == NoMatch then 0 else 1
  {
    assert (answers + [a])[..|answers|] == answers;
  }

  /** The answers that are counted. */
  lemma {:induction false} HitsMeaning(answers: seq<Answer>)
    ensures Hits(answers) == multiset(answers)[Matches] + multiset(answers)[Done]
  {
    if answers != [] {
      var n := |answers| - 1;
      HitsMeaning(answers[..n]);
      assert answers == answers[..n] + [answers[n]];
    }
  }

  /** With every key comes the type that the map has for it. */
  lemma {:induction false} VisitedTypes(recs: seq<seq<byte>>, i: nat, t: byte, prefix: seq<byte>)
    requires AllWF(recs) && Unique(Slots(recs)) && i <= |recs|
    ensures var v, m := Visits(recs, i, t, prefix), Abs(Slots(recs));
            forall x :: 0 <= x < |v| ==> v[x].0 in m && m[v[x].0].t == v[x].1
  {
    hide WF, KeyOf, Unique, Slots, Abs, Visits, View;
    if i > 0 {
      VisitedTypes(recs, i - 1, t, prefix);
      VisitStep(recs, i - 1, t, prefix);
      UsedType(recs, i - 1);
    } else {
      assert Visits(recs, 0, t, prefix) == [];
    }
  }

  lemma UsedType(recs: seq<seq<byte>>, i: nat)
    requires AllWF(recs) && Unique(Slots(recs)) && i < |recs|
    ensures var k, m := KeyOf(recs[i]), Abs(Slots(recs)); LiIsUsed(recs[i]) ==> k in m && m[k].t == KvsType(recs[i])
  {
    hide WF, KeyOf, Unique, Abs, ValueOf;
    assert Slots(recs)[i] == View(recs[i]);
    if LiIsUsed(recs[i]) {
      UsedValue(recs[i]);
    }
  }

  lemma CountedMeaning(recs: seq<seq<byte>>, t: byte, prefix: seq<byte>)
    requires AllWF(recs) && Unique(Slots(recs))
    ensures var m := Abs(Slots(recs));
            CountedKeys(recs, |recs|, t, prefix) == set k | k in m && (t == TYPE_ANY || m[k].t == t) && prefix <= k
  {
    hide WF, ValueOf, KeyOf, LiIsUsed;
    var m := Abs(Slots(recs));
    var s := set k | k in m && (t == TYPE_ANY || m[k].t == t) && prefix <= k;
    forall k | k in s
      ensures k in CountedKeys(recs, |recs|, t, prefix)
    {
      var i :| Holds(Slots(recs), i, k);
      assert Slots(recs)[i] == View(recs[i]);
      UsedValue(recs[i]);
    }
    forall i | 0 <= i < |recs| && Counted(recs[i], t, prefix)
      ensures KeyOf(recs[i]) in s
    {
      assert Slots(recs)[i] == View(recs[i]);
      UsedValue(recs[i]);
    }
  }

  // (uint16_t)n
  function Cut(n: nat): (r: int)
    ensures 0 <= r < 0x10000 && (n < 0x10000 ==> r == n) && (n - r) % 0x10000 == 0
  {
    n % 0x10000
  }

  /** The bytes are those of a store that holds the value under the key. */
  ghost predicate StandsFor(file: seq<byte>, key: seq<byte>, v: Value) {
    exists rs :: IsStore(rs, file) && key in Abs(Slots(rs)) && Abs(Slots(rs))[key] == v
  }

  ghost predicate IsStore(rs: seq<seq<byte>>, file: seq<byte>) {
    AllWF(rs) && Unique(Slots(rs)) && Flatten(rs) == file
  }

  lemma StandsForMeaning(rs: seq<seq<byte>>, key: seq<byte>)
    requires AllWF(rs) && Unique(Slots(rs)) && key in Abs(Slots(rs))
    ensures StandsFor(Flatten(rs), key, Abs(Slots(rs))[key])
  {
    hide AllWF, Unique, Slots, Abs, Flatten;
    assert IsStore(rs, Flatten(rs));
  }

  /** No store holds a string or blob of 65536 bytes or more. */
  lemma NeverHeld(key: seq<byte>, t: byte, data: seq<byte>)
    requires |data| >= 0x10000
    ensures forall file :: !StandsFor(file, key, DataV(t, data))
  {
    hide Abs, Flatten, Unique;
    forall rs | AllWF(rs) && Unique(Slots(rs)) && key in Abs(Slots(rs))
      ensures Abs(Slots(rs))[key] != DataV(t, data)
    {
      if Abs(Slots(rs))[key].DataV? {
        var i := RecordOf(rs, key);
      }
    }
  }

  /** The write of a value that fits the header: DataStep, and what it means for the length of the file. */
  lemma ShortWritten(a: seq<seq<byte>>, b: seq<seq<byte>>, j: nat, key: seq<byte>, t: byte, src: seq<byte>)
    requires AllWF(a) && Unique(Slots(a)) && Freed(a, b, key) && AllWF(b) && j <= |b| && OnlyAt(b, j, key)
    requires ValidKey(key) && |src| < 0x10000 && DataType(t)
    requires j < |b| ==> !LiTypeInt(b[j]) && (Fits(b[j], |src|) || (LiveWith(b[j], key) && BlobSize(b[j]) == |src|))
    requires j == |b| ==> BestFit(b, |b|, |src|, j)
    requires j < |b| ==> |src| <= BlobSize(b[j])
    ensures var s := Stored(b, j, DataRec(b, j, key, t, src));
            var size := if j < |b| then BlobSize(b[j]) else |src|;
            var p := if j < |b| then Off(b, j) else |Flatten(b)|;
            && 0 <= size < 0x10000 && p <= |Flatten(b)|
            && Flatten(s) == Splice(Flatten(b), p, MakeHeader(t, LenNval(Cut(|src|), Cut(size)), key) + src)
            && AllWF(s) && Unique(Slots(s)) && OthersUntouched(a, s, key)
            && Abs(Slots(s)) == Abs(Slots(a))[key := DataV(t, src)]
            && StandsFor(Flatten(s), key, DataV(t, src))
            && |Flatten(s)| == |Flatten(a)| +
                 (if exists i :: 0 <= i < |a| && DataSlotFor(a[i], key, |src|) then 0 else HDR + |src|)
            && (key in Abs(Slots(a)) && Abs(Slots(a))[key].DataV? && |Abs(Slots(a))[key].data| == |src| ==>
                  |Flatten(s)| == |Flatten(a)|)
  {
    hide WF, Off, Flatten, Unique, View, LiTypeInt, KeyOf, MakeHeader, LenNval, DataRec, Freed, OnlyAt,
      OthersUntouched, Stored, BestFit, LiveWith, Abs, Slots, Splice, StandsFor, Fits, BlobSize, ValidKey, Cut,
      DataSlotFor;
    if key in Abs(Slots(a)) && Abs(Slots(a))[key].DataV? && |Abs(Slots(a))[key].data| == |src| {
      RewriteFits(a, b, j, key, |src|);
    }
    DataStep(a, b, j, key, t, src);
    DataGrowth(a, b, j, key, |src|);
    StandsForMeaning(Stored(b, j, DataRec(b, j, key, t, src)), key);
  }

  /** A longer value is appended. */
  lemma LongWritten(b: seq<seq<byte>>, j: nat, key: seq<byte>, t: byte, src: seq<byte>)
    requires AllWF(b) && j <= |b| && |src| >= 0x10000 && ValidKey(key)
    requires j < |b| && LiveWith(b[j], key) ==> BlobSize(b[j]) == |src|
    requires j == |b| || !LiveWith(b[j], key) ==> BestFit(b, |b|, |src|, j)
    ensures j == |b|
    ensures var li := MakeHeader(t, LenNval(Cut(|src|), Cut(|src|)), key);
            Splice(Flatten(b), |Flatten(b)|, li + src) == Flatten(b) + li + src
    ensures forall file :: !StandsFor(file, key, DataV(t, src))
  {
    hide Flatten, MakeHeader, LenNval, LiveWith, BestFit, Splice, StandsFor, BlobSize, WF, Cut, PadKey, KeyField,
      BlobLen, MagicOk, ValidKey;
    NoSlotForLong(b, j, key, |src|);
    SpliceAtEnd(Flatten(b), MakeHeader(t, LenNval(Cut(|src|), Cut(|src|)), key), src);
    NeverHeld(key, t, src);
  }

  lemma NoSlotForLong(b: seq<seq<byte>>, j: nat, key: seq<byte>, n: nat)
    requires AllWF(b) && j <= |b| && n >= 0x10000
    requires j < |b| && LiveWith(b[j], key) ==> BlobSize(b[j]) == n
    requires j == |b| || !LiveWith(b[j], key) ==> BestFit(b, |b|, n, j)
    ensures j == |b|
  {
    hide LiveWith;
  }

  /** A record of key that n bytes of a string or blob cannot simply be written over. */
  predicate Misfit(c: seq<byte>, key: seq<byte>, n: nat)
    requires WF(c)
  {
    c[2] < 128 && KeyOf(c) == key && !(DataType(BaseType(c)) && BlobSize(c) == n)
  }

  /** If there is such a record, it is gone, and otherwise nothing has changed. */
  ghost predicate Released(a: seq<seq<byte>>, b: seq<seq<byte>>, key: seq<byte>, n: nat)
    requires AllWF(a) && AllWF(b) && Unique(Slots(a)) && Unique(Slots(b))
  {
    && OthersUntouched(a, b, key)
    && if exists i :: 0 <= i < |a| && Misfit(a[i], key, n) then Abs(Slots(b)) == Abs(Slots(a)) - {key} else b == a
  }

  /** No string or blob record of key with room for exactly n bytes has been touched. */
  predicate ExactKept(a: seq<seq<byte>>, b: seq<seq<byte>>, key: seq<byte>, n: nat)
    requires AllWF(a)
  {
    |a| == |b| && forall i :: 0 <= i < |a| && LiveWith(a[i], key) && !LiTypeInt(a[i]) && BlobSize(a[i]) == n ==>
      b[i] == a[i]
  }

  lemma ExactKeptFrom(a: seq<seq<byte>>, key: seq<byte>, n: nat)
    requires AllWF(a)
    ensures ExactKept(a, a, key, n)
  {
  }

  lemma ExactKeptStep(a: seq<seq<byte>>, j: nat, key: seq<byte>, n: nat)
    requires AllWF(a) && j < |a| && (LiTypeInt(a[j]) || BlobSize(a[j]) != n)
    ensures ExactKept(a, a[j := SetUnused(a[j])], key, n)
  {
  }

  lemma WriterAborted(a: seq<seq<byte>>, b: seq<seq<byte>>, j: nat, key: seq<byte>, n: nat)
    requires AllWF(a) && Unique(Slots(a)) && Freed(a, b, key) && AllWF(b) && OnlyAt(b, j, key)
    requires ExactKept(a, b, key, n)
    requires j < |b| && LiveWith(b[j], key) ==> BlobSize(b[j]) == n && !LiTypeInt(b[j])
    ensures AllWF(b) && Unique(Slots(b)) && Released(a, b, key, n)
  {
    hide WF, KeyOf, LiTypeInt, LiIsUsed, SetUnused, BaseType, BlobSize, Unique, Slots, Abs, OthersUntouched, NoneLive;
    FreedMeaning(a, b, key);
    forall i | 0 <= i < |a|
      ensures Misfit(a[i], key, n) <==> LiveWith(a[i], key) && (LiTypeInt(a[i]) || BlobSize(a[i]) != n)
    {
      KindMeaning(a[i]);
    }
    if forall i :: 0 <= i < |a| ==> !Misfit(a[i], key, n) {
      assert b == a;
    }
  }

  // both 16-bit fields lose the same bits, or none
  lemma CutKeepsOrder(n: nat, size: nat)
    requires n <= size && (size < 0x10000 || size == n)
    ensures Cut(n) <= Cut(size)
  {
  }

  lemma IntWritable(li: LineInfo)
    requires IntType(KvsType(li))
    ensures LiTypeInt(li)
  {
  }

  lemma SpliceAtEnd(file: seq<byte>, x: seq<byte>, y: seq<byte>)
    ensures Splice(file, |file|, x + y) == file + x + y
  {
    assert file + (x + y) == file + x + y;
  }

  // what the NUL makes of a buffer that held before, when a text has been copied to it, or is too long
  lemma Terminated(text: seq<byte>, before: seq<byte>)
    requires text != [] && before != []
    ensures var n, m := |text|, |before|;
            var was := if n <= m then text + before[n..] else before;
            was[(if n < m - 1 then n else m - 1) := 0] ==
            if n < m then text + [0] + before[n + 1..] else if n == m then text[..n - 1] + [0] else before[m - 1 := 0]
  {
  }

  // where a scan goes on that last read li at pos
  function Next(li: LineInfo, pos: nat): nat {
    if li[2] != 0 then pos + LiSize(li) else pos
  }

  class Kvs {
    var file: seq<byte>
    var fpos: nat
    ghost var recs: seq<seq<byte>>

    /** The file is tiled by well-formed records and no two used ones carry the same key. */
    ghost predicate Valid()
      reads this
    {
      file == Flatten(recs) && AllWF(recs) && Unique(Slots(recs))
    }

    ghost function Contents(): map<seq<byte>, Value>
      reads this
      requires Valid()
    {
      Abs(Slots(recs))
    }

    constructor ()
      ensures Valid() && file == [] && Contents() == map[]
    {
      file, fpos, recs := [], 0, [];
    }

    // ------------------------------------------------------------ file access

    method Lseek(pos: nat)
      modifies this`fpos
      ensures fpos == pos
    {
      fpos := pos;
    }

    method Read(n: nat) returns (buf: seq<byte>)
      requires fpos <= |file|
      modifies this`fpos
      ensures fpos == old(fpos) + |buf| <= |file|
      ensures |buf| == if |file| - old(fpos) < n then |file| - old(fpos) else n
      ensures buf == file[old(fpos)..fpos]
    {
      var end := if |file| - fpos < n then |file| else fpos + n;
      buf := file[fpos..end];
      fpos := end;
    }

    method Write(data: seq<byte>)
      requires fpos <= |file|
      modifies this`file, this`fpos
      ensures file == Splice(old(file), old(fpos), data) && fpos == old(fpos) + |data| <= |file|
    {
      file := Splice(file, fpos, data);
      fpos := fpos + |data|;
    }

    method KvsRead(li0: LineInfo, pos: nat, ghost i: nat) returns (ok: bool, li: LineInfo)
      requires |li0| == HDR && file == Flatten(recs) && AllWF(recs)
      requires i <= |recs| && pos == Off(recs, i)
      modifies this`fpos
      ensures |li| == HDR && ok == (i < |recs|)
      ensures ok ==> li == recs[i][..HDR] && fpos == pos + HDR
    {
      hide Flatten, Off, BlobSize, BlobLen, ValidKey, PadKey, KeyField, KeyOf;
      if i < |recs| {
        HeaderAt(recs, i);
      } else {
        OffIsLength(recs);
      }
      Lseek(pos);
      var buf := Read(HDR);
      li := buf + li0[|buf|..];
      ok := |buf| == HDR && MagicOk(li);
    }

    method KvsWrite(li: LineInfo, pos: int) returns (end: int)
      requires |li| == HDR && pos <= |file|
      requires LiTypeInt(li) || BlobSize(li) >= BlobLen(li)
      modifies this`file, this`fpos
      ensures var p := if pos >= 0 then pos else |old(file)|;
              file == Splice(old(file), p, li) && fpos == end == p + HDR <= |file|
    {
      if pos >= 0 {
        Lseek(pos);
      } else {
        Lseek(|file|);
      }
      Write(li);
      end := fpos;
    }

    // ------------------------------------------------------------ scanning

    /** The first wanted record at or behind record i. */
    method FindNext(li0: LineInfo, pos0: nat, key: Option<seq<byte>>, t: byte, ghost i: nat)
      returns (li: LineInfo, pos: int, ghost j: nat)
      requires file == Flatten(recs) && AllWF(recs)
      requires |li0| == HDR && (key.Some? ==> 0 !in key.value)
      requires i <= |recs| && Next(li0, pos0) == Off(recs, i)
      modifies this`fpos
      ensures |li| == HDR && i <= j <= |recs| && (pos < 0 <==> j == |recs|)
      ensures forall x :: i <= x < j ==> !Wanted(recs[x], key, t)
      ensures j < |recs| ==> Wanted(recs[j], key, t)
      ensures j < |recs| ==> li == recs[j][..HDR] && pos == Off(recs, j) && fpos == pos + HDR
    {
      hide Flatten, Off, Wanted, Skip, LiSize, WF;
      j := i;
      var p := Next(li0, pos0);
      var ok;
      ok, li := KvsRead(li0, p, j);
      while ok
        invariant |li| == HDR && i <= j <= |recs| && p == Off(recs, j)
        invariant ok == (j < |recs|)
        invariant ok ==> li == recs[j][..HDR] && fpos == p + HDR
        invariant forall x :: i <= x < j ==> !Wanted(recs[x], key, t)
        decreases |recs| - j
      {
        SkipMeaning(recs[j], key, t);
        if Skip(li, key, t) {
          HeaderFacts(recs[j]);
          ChunkAt(recs, j);
          p := p + LiSize(li);
          j := j + 1;
          ok, li := KvsRead(li, p, j);
          continue;
        }
        return li, p, j;
      }
      pos := -1;
    }

    method DeleteNode(pos: nat, ghost i: nat)
      requires Valid() && i < |recs| && pos == Off(recs, i) && LiIsUsed(recs[i])
      modifies this
      ensures Valid() && recs == old(recs)[i := SetUnused(old(recs)[i])]
      ensures forall x :: 0 <= x <= |recs| ==> Off(recs, x) == Off(old(recs), x)
      ensures !LiIsUsed(recs[i]) && LiTypeInt(recs[i]) == LiTypeInt(old(recs)[i])
      ensures BlobSize(recs[i]) == BlobSize(old(recs)[i])
    {
      hide WF, Off, Flatten;
      var c := recs[i];
      var _, li := KvsRead(MakeHeader(0, Zeros(8), []), pos, i);
      HeaderFacts(c);
      li := SetUnused(li);
      ReplaceChunk(recs, i, li);
      Lseek(pos);
      HeaderWritable(c, 0);
      var _ := KvsWrite(li, pos);
      UnusedSlot(c, 0);
      SetUnusedFacts(c);
      FreeStep(recs, i, SetUnused(c), KeyOf(c));
      SameSizesSameOffs(recs, recs[i := SetUnused(c)]);
      recs := recs[i := SetUnused(c)];
    }

    // ------------------------------------------------------------ choosing a slot

    /** Frees a string or blob record of key and returns its integer record, else the first free
        integer slot, else -1. */
    method FindKeyIntW(li0: LineInfo, key: seq<byte>) returns (li: LineInfo, pos: int, ghost j: nat)
      requires Valid() && |li0| == HDR && li0[2] == 0 && 0 !in key
      modifies this
      ensures var k := Take(key, MAX_KEY_LEN);
              && Valid() && Freed(old(recs), recs, k) && IntsKept(old(recs), recs) && OnlyAt(recs, j, k)
              && j <= |recs| && (pos < 0 <==> j == |recs|)
              && (j < |recs| ==> pos == Off(recs, j) && LiTypeInt(recs[j]))
              // first fit
              && (j == |recs| || !LiveWith(recs[j], k) ==> NoFreeInt(recs, j))
              && (j == |recs| || LiveWith(recs[j], k) || FreeInt(recs[j]))
    {
      hide WF, Off, Flatten, Unique, View, LiSize, LiTypeInt, LiIsUsed, KeyOf, SetUnused, LiMatchKey,
        Freed, NoneLive, OnlyAt, NoFreeInt, LiveWith, Slots, IntsKept, Take;
      ghost var a, k := recs, Take(key, MAX_KEY_LEN);
      var ignoreKey, best := false, -1;
      ghost var i: nat, bj: nat := 0, 0;
      pos, li, j := 0, li0, 0;
      FreedNothing(a, k);
      IntsKeptFrom(a);
      while true
        invariant Valid() && Freed(a, recs, k) && IntsKept(a, recs) && |li| == HDR && i <= |recs| && pos >= 0
        invariant Next(li, pos) == Off(recs, i)
        invariant !ignoreKey ==> recs == a
        invariant NoneLive(recs, if ignoreKey then |recs| else i, k)
        invariant bj <= i && NoFreeInt(recs, bj)
        invariant if best < 0 then bj == i else bj < i && best == Off(recs, bj) && FreeInt(recs[bj])
        decreases |recs| - i
      {
        if i < |recs| {
          AnyWanted(recs[i]);
        }
        li, pos, j := FindNext(li, pos, None, TYPE_ANY, i);
        if pos < 0 {
          break;
        }
        i := i + 1;
        HeaderFacts(recs[j]);
        MatchLive(recs[j], key);
        ChunkAt(recs, j);
        if ignoreKey {
          NoneLiveAtEnd(recs, j, k);
        }
        if LiMatchKey(li, key) {
          OnlyOne(recs, j, k);
          if !LiTypeInt(li) {
            NoFreeIntFrame(recs, recs[j := SetUnused(recs[j])], bj);
            IntsKeptStep(recs, j);
            DeleteNode(pos, j);
            if best < 0 {
              NoFreeIntStep(recs, j);
              bj := i;
            }
            ignoreKey := true;
            continue;
          }
          return;
        }
        if !ignoreKey {
          NoneLiveStep(recs, j, k);
        }
        if best >= 0 {
          continue;
        }
        NoFreeIntStep(recs, j);
        if LiIsUsed(li) || !LiTypeInt(li) {
          bj := i;
          continue;
        }
        if ignoreKey {
          return;
        }
        best, bj := pos, j;
      }
      pos, j := best, if best < 0 then |recs| else bj;
      NoneLiveAtEnd(recs, j, k);
    }

    /** Where the scan meets the key's own record: that is the slot if its size is right, and else it is freed. */
    method ReleaseOwn(li: LineInfo, pos: nat, key: seq<byte>, reqSize: nat, ignoreKey: bool, ghost j: nat,
        ghost bj: nat)
      returns (exact: bool, freed: bool)
      requires Valid() && 0 !in key && j < |recs| && li == recs[j][..HDR] && pos == Off(recs, j)
      requires NoneLive(recs, if ignoreKey then |recs| else j, Take(key, MAX_KEY_LEN))
      requires BestFit(recs, j, reqSize, bj)
      modifies this
      ensures Valid() && |recs| == |old(recs)|
      ensures var k := Take(key, MAX_KEY_LEN);
              && (exact ==> recs == old(recs) && OnlyAt(recs, j, k) && LiveWith(recs[j], k))
              && (exact ==> BlobSize(recs[j]) == reqSize && !LiTypeInt(recs[j]))
              && (freed ==> !exact && !ignoreKey && Freed(old(recs), recs, k) && !LiIsUsed(recs[j]))
              && (!exact ==> NoneLive(recs, if freed || ignoreKey then |recs| else j + 1, k))
      ensures !freed ==> recs == old(recs)
      ensures !exact ==> BestFit(recs, j, reqSize, bj)
      ensures ExactKept(old(recs), recs, Take(key, MAX_KEY_LEN), reqSize)
      ensures BlobSize(recs[j]) == BlobSize(old(recs)[j]) && LiTypeInt(recs[j]) == LiTypeInt(old(recs)[j])
      ensures forall x :: 0 <= x <= |recs| ==> Off(recs, x) == Off(old(recs), x)
      ensures bj < j ==> recs[bj] == old(recs)[bj]
    {
      hide WF, Off, Flatten, Unique, View, LiSize, LiTypeInt, LiIsUsed, KeyOf, SetUnused, LiMatchKey, BlobSize,
        Freed, NoneLive, OnlyAt, BestFit, LiveWith, Slots, HasPayload, BlobLen, Take, ExactKept;
      ghost var k := Take(key, MAX_KEY_LEN);
      ExactKeptFrom(recs, k, reqSize);
      HeaderFacts(recs[j]);
      MatchLive(recs[j], key);
      if ignoreKey {
        NoneLiveAtEnd(recs, j, k);
      }
      exact, freed := false, false;
      if LiMatchKey(li, key) {
        OnlyOne(recs, j, k);
        if !LiTypeInt(li) && BlobSize(li) == reqSize {
          exact := true;
          return;
        }
        BestFitFrame(recs, recs[j := SetUnused(recs[j])], j, reqSize, bj);
        ExactKeptStep(recs, j, k, reqSize);
        DeleteNode(pos, j);
        freed := true;
      } else if !ignoreKey {
        NoneLiveStep(recs, j, k);
      }
    }

    /** One turn of the search: the slot at pos is taken at once, or becomes the best one so far, or is passed. */
    method WeighSlot(li: LineInfo, pos: nat, endPos: nat, key: seq<byte>, reqSize: nat, ignoreKey: bool, best: Best,
        ghost j: nat, ghost bj: nat)
      returns (take: bool, ignored: bool, better: Best, ghost bk: nat)
      requires Valid() && 0 !in key && j < |recs| && li == recs[j][..HDR]
      requires pos == Off(recs, j) && endPos == Off(recs, j + 1)
      requires NoneLive(recs, if ignoreKey then |recs| else j, Take(key, MAX_KEY_LEN))
      requires BestFit(recs, j, reqSize, bj) && BestSlot(recs, j, reqSize, best, bj)
      modifies this
      ensures Valid() && |recs| == |old(recs)| && (ignoreKey ==> ignored)
      ensures ExactKept(old(recs), recs, Take(key, MAX_KEY_LEN), reqSize)
      ensures ignored == ignoreKey ==> recs == old(recs)
      ensures forall x :: 0 <= x <= |recs| ==> Off(recs, x) == Off(old(recs), x)
      ensures var k := Take(key, MAX_KEY_LEN);
              && (ignored != ignoreKey ==> Freed(old(recs), recs, k))
              && (take ==> OnlyAt(recs, j, k) && !LiTypeInt(recs[j]))
              && (take && LiveWith(recs[j], k) ==> BlobSize(recs[j]) == reqSize)
              && (take && !LiveWith(recs[j], k) ==> BestFit(recs, |recs|, reqSize, j))
              && (!take ==> NoneLive(recs, if ignored then |recs| else j + 1, k))
      ensures !take ==> BestFit(recs, j + 1, reqSize, bk) && BestSlot(recs, j + 1, reqSize, better, bk)
    {
      hide WF, Off, Flatten, Unique, View, LiSize, LiTypeInt, LiIsUsed, KeyOf, SetUnused, LiMatchKey, BlobSize,
        Freed, NoneLive, OnlyAt, BestFit, LiveWith, Slots, HasPayload, BlobLen, Take, ExactKept;
      take, ignored, better, bk := false, ignoreKey, best, bj;
      HeaderFacts(recs[j]);
      var unusedNode := !LiIsUsed(li);
      var wasted := BlobSize(li) - reqSize;
      var exact, freed := ReleaseOwn(li, pos, key, reqSize, ignoreKey, j, bj);
      if exact {
        take := true;
        return;
      }
      if freed {
        ignored, unusedNode := true, true;
      }
      BestFitStep(recs, j, reqSize, bj);
      if LiTypeInt(li) || !unusedNode || wasted < 0 {
        return;
      }
      if wasted == 0 && ignored {
        NoneLiveAtEnd(recs, j, Take(key, MAX_KEY_LEN));
        take := true;
        return;
      }
      if best.wasted < wasted {
        return;
      }
      better, bk := Best(pos, wasted, endPos), j;
    }

    /** Frees the record of key unless it is a string or blob of exactly reqSize bytes, which is
        returned; else returns a free slot of least waste in 0..1000, else -1. */
    method FindKeyBlobW(key: seq<byte>, reqSize: nat) returns (pos: int, endPos: int, ghost j: nat)
      requires Valid() && 0 !in key
      modifies this
      ensures var k := Take(key, MAX_KEY_LEN);
              && Valid() && Freed(old(recs), recs, k) && ExactKept(old(recs), recs, k, reqSize) && OnlyAt(recs, j, k)
              && j <= |recs| && (pos < 0 <==> j == |recs|)
              && (j < |recs| ==> pos == Off(recs, j) && endPos == Off(recs, j + 1) && !LiTypeInt(recs[j]))
              && (j < |recs| && LiveWith(recs[j], k) ==> BlobSize(recs[j]) == reqSize)
              // best fit, also among the slots that were just freed
              && (j == |recs| || !LiveWith(recs[j], k) ==> BestFit(recs, |recs|, reqSize, j))
    {
      hide WF, Off, Flatten, Unique, View, LiSize, LiTypeInt, LiIsUsed, KeyOf, SetUnused, LiMatchKey, BlobSize,
        Freed, NoneLive, OnlyAt, BestFit, LiveWith, Slots, HasPayload, BlobLen, MakeHeader, Wanted, Take, BestSlot,
        ExactKept;
      ghost var a, k := recs, Take(key, MAX_KEY_LEN);
      var li: LineInfo := MakeHeader(0, Zeros(8), []);
      var ignoreKey, best := false, Best(-1, MAX_WASTE, -1);
      ghost var i: nat, bj: nat := 0, |recs|;
      pos, endPos, j := 0, -1, 0;
      FreedNothing(a, k);
      ExactKeptFrom(a, k, reqSize);
      NoSlotYet(recs, reqSize);
      while true
        invariant Valid() && Freed(a, recs, k) && |li| == HDR && i <= |recs| && pos >= 0
        invariant Next(li, pos) == Off(recs, i)
        invariant (!ignoreKey ==> recs == a) && ExactKept(a, recs, k, reqSize)
        invariant NoneLive(recs, if ignoreKey then |recs| else i, k)
        invariant BestFit(recs, i, reqSize, bj) && BestSlot(recs, i, reqSize, best, bj)
        decreases |recs| - i
      {
        if i < |recs| {
          AnyWanted(recs[i]);
        }
        li, pos, j := FindNext(li, pos, None, TYPE_ANY, i);
        if pos < 0 {
          break;
        }
        i := i + 1;
        HeaderFacts(recs[j]);
        ChunkAt(recs, j);
        endPos := pos + LiSize(li);
        var take;
        take, ignoreKey, best, bj := WeighSlot(li, pos, endPos, key, reqSize, ignoreKey, best, j, bj);
        if take {
          return;
        }
      }
      pos, endPos, j := best.pos, best.end, bj;
      BestSlotMeaning(recs, reqSize, best, bj);
      NoneLiveAtEnd(recs, j, k);
    }

    // ------------------------------------------------------------ setters

    /** kvs_set_i8 ... kvs_set_u32: t is the type code. A key that is too long aborts the program when it is copied
        to the header, after a string or blob of its first 14 characters has been freed. */
    method SetInt(key: seq<byte>, t: byte, val: int) returns (aborted: bool, ok: bool)
      requires Valid() && 0 !in key && IntType(t) && InRange(t, val)
      modifies this
      ensures aborted == (|key| > 14) && ok == !aborted && Valid()
      ensures var m, k := old(Contents()), Take(key, MAX_KEY_LEN);
              && OthersUntouched(old(recs), recs, k)
              && Contents() == if !aborted then m[key := IntV(t, val)]
                               else if k in m && m[k].DataV? then m - {k}
                               else m
      // the file grows only if there is nothing to write over
      ensures !aborted ==>
          |file| == |old(file)| + if exists i :: 0 <= i < |old(recs)| && IntSlotFor(old(recs)[i], key) then 0 else HDR
    {
      hide WF, Off, Flatten, Unique, View, LiTypeInt, LiIsUsed, KeyOf, MakeHeader, EncodeInt, InRange, LiSize,
        Freed, OnlyAt, OthersUntouched, Stored, NoFreeInt, Splice, LiveWith, FreeInt, Abs, Slots, AllWF, IntsKept, Take,
        IntSlotFor;
      ghost var a := recs;
      var li: LineInfo := MakeHeader(0, Zeros(8), []);
      var pos: int;
      ghost var j: nat;
      li, pos, j := FindKeyIntW(li, key);
      if |key| > MAX_KEY_LEN {
        IntAborted(a, recs, j, Take(key, MAX_KEY_LEN));
        return true, false;
      }
      TakeShort(key, MAX_KEY_LEN);
      li := MakeHeader(t, EncodeInt(t, val), key);
      IntRecord(t, val, key);
      IntStep(a, recs, j, li, key, IntV(t, val));
      IntGrowth(a, recs, j, key);
      IntLength(a, recs, j, li, key);
      IntWritable(li);
      var res := KvsWrite(li, pos);
      recs := Stored(recs, j, li);
      aborted, ok := false, res > 0;
    }

    /** Lengths are written to 16-bit fields. A longer value is appended behind a header that says less, and
        the file no longer is a store that holds it; the result is the length all the same. */
    method WriteStrOrBlob(key: seq<byte>, src: seq<byte>, t: byte) returns (aborted: bool, res: nat)
      requires Valid() && 0 !in key && DataType(t)
      modifies this
      ensures aborted == (|key| > 14) && res == if aborted then 0 else |src|
      ensures aborted ==> Valid() && Released(old(recs), recs, Take(key, MAX_KEY_LEN), |src|)
      ensures !aborted ==> (StandsFor(file, key, DataV(t, src)) <==> |src| < 0x10000)
      ensures !aborted && |src| < 0x10000 ==>
          && Valid() && Contents() == old(Contents())[key := DataV(t, src)]
          && OthersUntouched(old(recs), recs, key)
          && |file| == |old(file)| +
               (if exists i :: 0 <= i < |old(recs)| && DataSlotFor(old(recs)[i], key, |src|) then 0 else HDR + |src|)
      // rewriting a key with a value of the same length never grows the file
      ensures !aborted && |src| < 0x10000 ==>
          key in old(Contents()) && old(Contents())[key].DataV? && |old(Contents())[key].data| == |src| ==>
            |file| == |old(file)|
      ensures !aborted && |src| >= 0x10000 ==>
          && AllWF(recs) && Freed(old(recs), recs, key)
          && file == Flatten(recs) + MakeHeader(t, LenNval(Cut(|src|), Cut(|src|)), key) + src
    {
      hide WF, Off, Flatten, Unique, View, LiTypeInt, LiIsUsed, KeyOf, MakeHeader, LiSize, LenNval, DataRec,
        Freed, OnlyAt, OthersUntouched, Stored, BestFit, LiveWith, Fits, Abs, Slots, Splice, BlobSize, StandsFor, Cut,
        Take, Released, DataSlotFor, ExactKept;
      ghost var a := recs;
      var pos, endPos;
      ghost var j: nat;
      pos, endPos, j := FindKeyBlobW(key, |src|);
      // the slot is never too small, so the size < length branch of the source is not taken
      SlotRoom(recs, j, Take(key, MAX_KEY_LEN), |src|);
      if |key| > MAX_KEY_LEN {
        WriterAborted(a, recs, j, Take(key, MAX_KEY_LEN), |src|);
        return true, 0;
      }
      TakeShort(key, MAX_KEY_LEN);
      var size := if pos >= 0 then endPos - pos - HDR else |src|;
      var li := MakeHeader(t, LenNval(Cut(|src|), Cut(size)), key);
      SpliceTwice(file, if pos >= 0 then pos else |file|, li, src);
      if |src| < 0x10000 {
        ShortWritten(a, recs, j, key, t, src);
      } else {
        LongWritten(recs, j, key, t, src);
      }
      CutKeepsOrder(|src|, size);
      var _ := KvsWrite(li, pos);
      Write(src);
      if |src| < 0x10000 {
        recs := Stored(recs, j, DataRec(recs, j, key, t, src));
      }
      aborted, res := false, |src|;
    }

    /** kvs_set_str; src is the string without its NUL. */
    method SetStr(key: seq<byte>, src: seq<byte>) returns (aborted: bool, ok: bool)
      requires Valid() && 0 !in key && 0 !in src
      modifies this
      ensures aborted == (|key| > 14) && ok == !aborted
      ensures aborted ==> Valid() && Released(old(recs), recs, Take(key, MAX_KEY_LEN), |src|)
      ensures !aborted ==> (StandsFor(file, key, DataV(TYPE_STR, src)) <==> |src| < 0x10000)
      ensures !aborted && |src| < 0x10000 ==>
          && Valid() && Contents() == old(Contents())[key := DataV(TYPE_STR, src)]
          && OthersUntouched(old(recs), recs, key)
    {
      hide StandsFor, Released, Take, Abs, Slots, AllWF, Flatten, OthersUntouched, Unique;
      var res;
      aborted, res := WriteStrOrBlob(key, src, TYPE_STR);
      ok := !aborted && res == |src|;
    }

    /** kvs_set_blob stores an empty blob, but reports it as a failure. */
    method SetBlob(key: seq<byte>, src: seq<byte>) returns (aborted: bool, ok: bool)
      requires Valid() && 0 !in key
      modifies this
      ensures aborted == (|key| > 14) && ok == (!aborted && src != [])
      ensures aborted ==> Valid() && Released(old(recs), recs, Take(key, MAX_KEY_LEN), |src|)
      ensures !aborted ==> (StandsFor(file, key, DataV(TYPE_BLOB, src)) <==> |src| < 0x10000)
      ensures !aborted && |src| < 0x10000 ==>
          && Valid() && Contents() == old(Contents())[key := DataV(TYPE_BLOB, src)]
          && OthersUntouched(old(recs), recs, key)
    {
      hide StandsFor, Released, Take, Abs, Slots, AllWF, Flatten, OthersUntouched, Unique;
      var res;
      aborted, res := WriteStrOrBlob(key, src, TYPE_BLOB);
      ok := res != 0;
    }

    method EraseKey(key: seq<byte>) returns (ok: bool)
      requires Valid() && 0 !in key
      modifies this
      ensures Valid() && ok == (Take(key, MAX_KEY_LEN) in old(Contents()))
      ensures Contents() == old(Contents()) - {Take(key, MAX_KEY_LEN)}
      ensures |file| == |old(file)| && OthersUntouched(old(recs), recs, Take(key, MAX_KEY_LEN))
    {
      hide WF, Off, Flatten, View, LiIsUsed, KeyOf, LiSize, SetUnused, Abs, Slots, Unique, Take, MakeHeader,
        LiTypeInt, BlobSize, BlobLen, HasPayload;
      var li: LineInfo := MakeHeader(0, Zeros(8), []);
      var pos: int;
      ghost var j: nat;
      li, pos, j := FindNext(li, 0, Some(key), TYPE_ANY, 0);
      LookupMeaning(recs, j, key, TYPE_ANY);
      if pos < 0 {
        ok := false;
        assert old(Contents()) - {Take(key, MAX_KEY_LEN)} == old(Contents());
        return;
      }
      ghost var c := recs[j];
      HeaderFacts(c);
      ChunkAt(recs, j);
      UsedBit(c);
      li := SetUnused(li)[16 := 0];
      UnusedSlot(c, 0);
      HeaderWritable(c, 0);
      ghost var d := SetUnused(c)[16 := 0];
      assert d == li + c[HDR..];
      FreeStep(recs, j, d, Take(key, MAX_KEY_LEN));
      ReplaceChunk(recs, j, li);
      var _ := KvsWrite(li, pos);
      recs := recs[j := d];
      ok := true;
    }

    // ------------------------------------------------------------ getters

    /** kvs_get_i8 ... kvs_get_u32: t is the type code. */
    method GetInt(key: seq<byte>, t: byte, defaultVal: int) returns (val: int, success: bool)
      requires Valid() && 0 !in key && IntType(t)
      modifies this`fpos
      ensures var k := Take(key, MAX_KEY_LEN);
              && success == (k in Contents() && Contents()[k].t == t)
              && (success ==> Contents()[k] == IntV(t, val))
              && (!success ==> val == defaultVal)
    {
      hide WF, Off, Flatten, View, KeyOf, LiSize, Abs, ValueOf, DecodeInt;
      var li: LineInfo := MakeHeader(0, Zeros(8), []);
      var pos: int;
      ghost var j: nat;
      li, pos, j := FindNext(li, 0, Some(key), t, 0);
      LookupMeaning(recs, j, key, t);
      success := pos >= 0;
      if pos < 0 {
        return defaultVal, success;
      }
      UsedValue(recs[j]);
      val := DecodeInt(KvsType(li), li[8..16]);
    }

    /** Copies the value if it fits and returns its length either way; 0 when there is none. */
    method ReadStrOrBlob(key: seq<byte>, dst: array<byte>, t: byte) returns (n: nat)
      requires Valid() && 0 !in key && DataType(t)
      modifies this`fpos, dst
      ensures var k := Take(key, MAX_KEY_LEN);
              if k in Contents() && Contents()[k].t == t then
                Contents()[k].DataV? && n == |Contents()[k].data|
                && dst[..] == (if n <= dst.Length then Contents()[k].data + old(dst[..])[n..] else old(dst[..]))
              else n == 0 && dst[..] == old(dst[..])
    {
      hide WF, Off, Flatten, View, KeyOf, LiSize, Abs, ValueOf, Slots, Unique, Take, LiTypeInt, BlobSize, MakeHeader,
        LiIsUsed, HasPayload;
      var li: LineInfo := MakeHeader(0, Zeros(8), []);
      var pos: int;
      ghost var j: nat;
      li, pos, j := FindNext(li, 0, Some(key), t, 0);
      LookupMeaning(recs, j, key, t);
      if pos < 0 {
        return 0;
      }
      ghost var c := recs[j];
      UsedValue(c);
      HeaderFacts(c);
      n := BlobLen(li);
      PayloadAt(recs, j, n);
      if n > dst.Length {
        return;
      }
      var buf := Read(n);
      forall i | 0 <= i < n {
        dst[i] := buf[i];
      }
    }

    /** kvs_get_str: true iff a nonempty string is stored that fits with its NUL. One that fits without it is cut by
        its last character, and of a longer one nothing is copied; a NUL ends the buffer in both cases. outside:
        a NUL goes outside a buffer of size 0; that store is only recorded here. */
    method GetStr(key: seq<byte>, dst: array<byte>) returns (ok: bool, outside: bool)
      requires Valid() && 0 !in key
      modifies this`fpos, dst
      ensures var k := Take(key, MAX_KEY_LEN);
              var found := k in Contents() && Contents()[k].t == TYPE_STR && Contents()[k].DataV?;
              && ok == (found && 0 < |Contents()[k].data| < dst.Length)
              && (ok ==> dst[..|Contents()[k].data| + 1] == Contents()[k].data + [0])
              && (!found || Contents()[k].data == [] ==> dst[..] == old(dst[..]))
              && (found && Contents()[k].data != [] && dst.Length > 0 ==>
                    var data, n := Contents()[k].data, |Contents()[k].data|;
                    dst[..] == if n < dst.Length then data + [0] + old(dst[..])[n + 1..]
                               else if n == dst.Length then data[..n - 1] + [0]
                               else old(dst[..])[dst.Length - 1 := 0])
              && outside == (found && Contents()[k].data != [] && dst.Length == 0)
    {
      hide Abs, Slots, AllWF, Flatten, Take, Unique;
      var n := ReadStrOrBlob(key, dst, TYPE_STR);
      // dst[MIN(n, size - 1)], where size is unsigned
      outside := n > 0 && dst.Length == 0;
      if n > 0 && !outside {
        Terminated(Contents()[Take(key, MAX_KEY_LEN)].data, old(dst[..]));
        dst[if n < dst.Length - 1 then n else dst.Length - 1] := 0;
      }
      ok := n != 0 && n < dst.Length;
    }

    /** kvs_get_blob: true iff the stored length is the length asked for; a missing blob has length 0. */
    method GetBlob(key: seq<byte>, dst: array<byte>) returns (ok: bool)
      requires Valid() && 0 !in key
      modifies this`fpos, dst
      ensures var k := Take(key, MAX_KEY_LEN);
              var data := if k in Contents() && Contents()[k].t == TYPE_BLOB && Contents()[k].DataV?
                          then Contents()[k].data else [];
              && ok == (|data| == dst.Length)
              && dst[..] == if |data| <= dst.Length then data + old(dst[..])[|data|..] else old(dst[..])
    {
      var n := ReadStrOrBlob(key, dst, TYPE_BLOB);
      ok := dst.Length == n;
    }

    /** kvs_foreach: the callback sees the keys of the type that start with the prefix, in file order, until it
        answers Done; the result counts its answers other than NoMatch, or all such keys without a callback. */
    method Foreach(t: byte, keyMatch: Option<seq<byte>>, cb: Callback?) returns (count: nat)
      requires Valid() && (keyMatch.Some? ==> 0 !in keyMatch.value)
      requires cb != null ==> cb.calls == [] && cb.answers == []
      modifies this`fpos, cb
      ensures var m := Contents(); var prefix := if keyMatch.Some? then keyMatch.value else [];
              cb == null ==> count == |set k | k in m && (t == TYPE_ANY || m[k].t == t) && prefix <= k|
      ensures var v := Visits(recs, |recs|, t, if keyMatch.Some? then keyMatch.value else []);
              cb != null ==>
                && count == Hits(cb.answers) && cb.calls <= v && |cb.answers| == |cb.calls|
                && (forall i :: 0 <= i < |cb.answers| - 1 ==> cb.answers[i] != Done)
                && (cb.calls == v || (cb.answers != [] && cb.answers[|cb.answers| - 1] == Done))
    {
      hide WF, Off, Flatten, View, KeyOf, LiSize, Abs, ValueOf, Slots, Unique, LiIsUsed, Visits, KeyField, StrNCmpEq,
        LiTypeInt, BlobSize, BlobLen, HasPayload, Hits, VisitedSoFar, Wanted;
      ghost var prefix := if keyMatch.Some? then keyMatch.value else [];
      var li: LineInfo := MakeHeader(0, Zeros(8), []);
      var pos: int := 0;
      ghost var i: nat, j: nat := 0, 0;
      count := 0;
      NoVisits(cb);
      while true
        invariant |li| == HDR && i <= |recs| && pos >= 0 && Next(li, pos) == Off(recs, i)
        invariant VisitedSoFar(cb, count, Visits(recs, i, t, prefix), false)
        decreases |recs| - i
      {
        li, pos, j := FindNext(li, pos, None, t, i);
        VisitSkip(recs, i, j, t, prefix);
        if pos < 0 {
          break;
        }
        HeaderFacts(recs[j]);
        ChunkAt(recs, j);
        i := j + 1;
        var done;
        count, done := VisitOne(li, t, keyMatch, cb, count, j, recs);
        if done {
          break;
        }
      }
      VisitsGrow(recs, i, t, prefix);
      VisitsMeaning(recs, t, prefix);
      VisitedMeaning(cb, count, Visits(recs, i, t, prefix), pos >= 0);
    }
  }

  /** What an iteration has counted and told its callback, which has not answered Done, or just has. */
  ghost predicate VisitedSoFar(cb: Callback?, count: nat, v: seq<(seq<byte>, byte)>, done: bool)
    reads cb
  {
    if cb == null then !done && count == |v|
    else
      && cb.calls == v && count == Hits(cb.answers) && |cb.answers| == |v|
      && (forall x :: 0 <= x < |v| - 1 ==> cb.answers[x] != Done)
      && (if done then v != [] && cb.answers[|v| - 1] == Done else v != [] ==> cb.answers[|v| - 1] != Done)
  }

  lemma VisitedMeaning(cb: Callback?, count: nat, v: seq<(seq<byte>, byte)>, done: bool)
    requires VisitedSoFar(cb, count, v, done)
    ensures cb == null ==> !done && count == |v|
    ensures cb != null ==>
        && cb.calls == v && count == Hits(cb.answers) && |cb.answers| == |v|
        && (forall x :: 0 <= x < |v| - 1 ==> cb.answers[x] != Done)
        && (done ==> v != [] && cb.answers[|v| - 1] == Done)
  {
  }

  lemma NoVisits(cb: Callback?)
    requires cb != null ==> cb.calls == [] && cb.answers == []
    ensures VisitedSoFar(cb, 0, [], false)
  {
  }

  /** One record that the scan stopped at. */
  method VisitOne(li: LineInfo, t: byte, keyMatch: Option<seq<byte>>, cb: Callback?, before: nat, ghost j: nat,
                  ghost recs: seq<seq<byte>>)
    returns (count: nat, done: bool)
    requires AllWF(recs) && j < |recs| && li == recs[j][..HDR] && Wanted(recs[j], None, t)
    requires keyMatch.Some? ==> 0 !in keyMatch.value
    requires VisitedSoFar(cb, before, Visits(recs, j, t, if keyMatch.Some? then keyMatch.value else []), false)
    modifies cb
    ensures VisitedSoFar(cb, count, Visits(recs, j + 1, t, if keyMatch.Some? then keyMatch.value else []), done)
  {
    hide WF, KeyOf, LiSize, LiIsUsed, Visits, KeyField, StrNCmpEq, LiTypeInt, BlobSize, BlobLen, Hits;
    ghost var prefix := if keyMatch.Some? then keyMatch.value else [];
    VisitStep(recs, j, t, prefix);
    HeaderFacts(recs[j]);
    count, done := before, false;
    if !LiIsUsed(li) {
      return;
    }
    PrefixMeaning(recs[j], prefix);
    if keyMatch.Some? {
      if |KeyOf(li)| < |keyMatch.value| || !StrNCmpEq(KeyField(li), keyMatch.value + [0], |keyMatch.value|) {
        return;
      }
    }
    if cb == null {
      count := count + 1;
      return;
    }
    ghost var answers := cb.answers;
    var a := cb.Ask(KeyOf(li), KvsType(li));
    HitsStep(answers, a);
    if a != NoMatch {
      count := count + 1;
    }
    done := a == Done;
  }

  lemma {:induction false} VisitsGrow(recs: seq<seq<byte>>, i: nat, t: byte, prefix: seq<byte>)
    requires AllWF(recs) && i <= |recs|
    ensures Visits(recs, i, t, prefix) <= Visits(recs, |recs|, t, prefix)
    decreases |recs| - i
  {
    hide WF, KeyOf;
    if i < |recs| {
      VisitsGrow(recs, i + 1, t, prefix);
    }
  }

  // ---------------------------------------------------------------- runs

  datatype Op =
    | PutInt(key: seq<byte>, t: byte, v: int)
    | PutStr(key: seq<byte>, data: seq<byte>)
    | PutBlob(key: seq<byte>, data: seq<byte>)
    | Erase(key: seq<byte>)

  /** What the types of the setters admit: C strings, and integers of the type. */
  predicate ValidOp(op: Op) {
    && 0 !in op.key
    && match op
       case PutInt(_, t, v) => IntType(t) && InRange(t, v)
       case PutStr(_, data) => 0 !in data
       case PutBlob(_, _) => true
       case Erase(_) => true
  }

  /** What the record format has room for: keys of 14 characters, lengths of 16 bits. */
  predicate Representable(op: Op) {
    match op
    case PutInt(key, _, _) => |key| <= MAX_KEY_LEN
    case PutStr(key, data) => |key| <= MAX_KEY_LEN && |data| < 0x10000
    case PutBlob(key, data) => |key| <= MAX_KEY_LEN && |data| < 0x10000
    case Erase(_) => true
  }

  // the key whose records an operation touches
  function Target(op: Op): seq<byte> { Take(op.key, MAX_KEY_LEN) }

  /** The value that an operation leaves under its key. */
  function Outcome(op: Op): Option<Value> {
    match op
    case PutInt(_, t, v) => Some(IntV(t, v))
    case PutStr(_, data) => Some(DataV(TYPE_STR, data))
    case PutBlob(_, data) => Some(DataV(TYPE_BLOB, data))
    case Erase(_) => None
  }

  ghost function RunMap(ops: seq<Op>): map<seq<byte>, Value> {
    if ops == [] then map[]
    else
      var m, op := RunMap(ops[..|ops| - 1]), ops[|ops| - 1];
      match Outcome(op)
      case Some(v) => m[Target(op) := v]
      case None => m - {Target(op)}
  }

  function LastOp(ops: seq<Op>, key: seq<byte>): Option<Op> {
    if ops == [] then None
    else if Target(ops[|ops| - 1]) == key then Some(ops[|ops| - 1])
    else LastOp(ops[..|ops| - 1], key)
  }

  /** The last operation on a key decides alone what the key holds. */
  lemma {:induction false} LastOpWins(ops: seq<Op>, key: seq<byte>)
    ensures var last := LastOp(ops, key);
            if last.Some? && Outcome(last.value).Some? then
              key in RunMap(ops) && RunMap(ops)[key] == Outcome(last.value).value
            else
              key !in RunMap(ops)
  {
    hide Target;
    if ops != [] {
      LastOpWins(ops[..|ops| - 1], key);
    }
  }

  /** Every run from the empty file leaves a tiled file that stands for the map of the run, up to the first
      operation that the record format has no room for. That one aborts, if its key is too long, or writes a
      value that the file does not hold afterwards. */
  method Run(ops: seq<Op>) returns (store: Kvs, done: nat)
    requires forall i :: 0 <= i < |ops| ==> ValidOp(ops[i])
    ensures done <= |ops| && (forall i :: 0 <= i < done ==> Representable(ops[i]))
    ensures done < |ops| ==> !Representable(ops[done])
    ensures fresh(store) && (done == |ops| ==> store.Valid() && store.Contents() == RunMap(ops))
    ensures done < |ops| ==>
        var m, op := RunMap(ops[..done]), ops[done];
        if |op.key| > MAX_KEY_LEN then
          store.Valid() && (store.Contents() == m || store.Contents() == m - {Target(op)})
        else
          Outcome(op).Some? && !StandsFor(store.file, op.key, Outcome(op).value)
  {
    hide Flatten, AllWF, Unique, Slots, Abs, InRange, Take, Target, StandsFor, Representable, ValidOp, Outcome;
    store := new Kvs();
    done := 0;
    while done < |ops|
      invariant fresh(store) && store.Valid() && done <= |ops| && store.Contents() == RunMap(ops[..done])
      invariant forall i :: 0 <= i < done ==> Representable(ops[i])
    {
      var room := RunStep(store, ops[done]);
      if !room {
        return;
      }
      assert ops[..done + 1][..done] == ops[..done];
      done := done + 1;
    }
    assert ops[..|ops|] == ops;
  }

  method RunStep(store: Kvs, op: Op) returns (room: bool)
    requires store.Valid() && ValidOp(op)
    modifies store
    ensures room == Representable(op)
    ensures room ==> store.Valid()
    ensures room ==> store.Contents() == match Outcome(op)
                                         case Some(v) => old(store.Contents())[Target(op) := v]
                                         case None => old(store.Contents()) - {Target(op)}
    ensures !room && |op.key| > MAX_KEY_LEN ==>
        && store.Valid()
        && (store.Contents() == old(store.Contents()) || store.Contents() == old(store.Contents()) - {Target(op)})
    ensures !room && |op.key| <= MAX_KEY_LEN ==>
        Outcome(op).Some? && !StandsFor(store.file, op.key, Outcome(op).value)
  {
    hide Flatten, AllWF, Unique, Slots, Abs, InRange, Take, StandsFor, OthersUntouched;
    TakeShort(op.key, MAX_KEY_LEN);
    match op
    case PutInt(key, t, v) =>
      var aborted, _ := store.SetInt(key, t, v);
      room := !aborted;
    case PutStr(key, data) =>
      var aborted, _ := store.SetStr(key, data);
      room := !aborted && |data| < 0x10000;
    case PutBlob(key, data) =>
      var aborted, _ := store.SetBlob(key, data);
      room := !aborted && |data| < 0x10000;
    case Erase(key) =>
      var _ := store.EraseKey(key);
      room := true;
  }
}
