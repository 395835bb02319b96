/** What a list of key-value slots stands for, and which changes of the list update one key only. */
module KvsMap {
  datatype Slot<K, V> = Free | Used(key: K, value: V)

  predicate Unique<K(==), V>(s: seq<Slot<K, V>>) {
    forall i, j :: 0 <= i < j < |s| && s[i].Used? && s[j].Used? ==> s[i].key != s[j].key
  }

  predicate Holds<K(==), V>(s: seq<Slot<K, V>>, i: int, key: K) {
    0 <= i < |s| && s[i].Used? && s[i].key == key
  }

  ghost function Abs<K, V>(s: seq<Slot<K, V>>): (m: map<K, V>)
    requires Unique(s)
    ensures forall i :: 0 <= i < |s| && s[i].Used? ==> s[i].key in m && m[s[i].key] == s[i].value
    ensures forall k :: k in m ==> exists i :: Holds(s, i, k)
  {
    var m := map i | 0 <= i < |s| && s[i].Used? :: s[i].key := s[i].value;
    assert forall k :: k in m ==> exists i :: Holds(s, i, k) by {
      forall k | k in m
        ensures exists i :: Holds(s, i, k)
      {
        var i :| 0 <= i < |s| && s[i].Used? && s[i].key == k;
        assert Holds(s, i, k);
      }
    }
    m
  }

  /** b is a with only the slots of key changed, freed or added. */
  predicate Frame<K(==), V(==)>(a: seq<Slot<K, V>>, b: seq<Slot<K, V>>, key: K) {
    && |a| <= |b|
    && (forall i :: 0 <= i < |a| && a[i].Used? && a[i].key != key ==> b[i] == a[i])
    && (forall i :: 0 <= i < |b| && b[i].Used? && b[i].key != key ==> i < |a| && a[i] == b[i])
  }

  lemma FrameUnique<K, V>(a: seq<Slot<K, V>>, b: seq<Slot<K, V>>, key: K, m: int)
    requires Unique(a) && Frame(a, b, key) && forall i :: Holds(b, i, key) ==> i == m
    ensures Unique(b)
  {
    forall i, j | 0 <= i < j < |b| && b[i].Used? && b[j].Used?
      ensures b[i].key != b[j].key
    {
      if b[i].key == key {
        assert Holds(b, i, key);
        assert b[j].key == key ==> Holds(b, j, key);
      }
    }
  }

  /** A frame step that leaves key used in slot m only is a map update. */
  lemma FrameStore<K, V>(a: seq<Slot<K, V>>, b: seq<Slot<K, V>>, key: K, m: nat)
    requires Unique(a) && Frame(a, b, key)
    requires Holds(b, m, key) && forall i :: Holds(b, i, key) ==> i == m
    ensures Unique(b) && Abs(b) == Abs(a)[key := b[m].value]
  {
    hide Abs, Frame, Unique;
    FrameUnique(a, b, key, m);
    FrameOthers(a, b, key);
    assert Abs(b).Keys == Abs(a).Keys + {key};
  }

  /** A frame step that leaves key used nowhere is a map removal. */
  lemma FrameRemove<K, V>(a: seq<Slot<K, V>>, b: seq<Slot<K, V>>, key: K)
    requires Unique(a) && Frame(a, b, key)
    requires forall i :: !Holds(b, i, key)
    ensures Unique(b) && Abs(b) == Abs(a) - {key}
  {
    hide Abs, Frame, Unique;
    FrameUnique(a, b, key, -1);
    FrameOthers(a, b, key);
    assert Abs(b).Keys == Abs(a).Keys - {key};
  }

  lemma FrameOthers<K, V>(a: seq<Slot<K, V>>, b: seq<Slot<K, V>>, key: K)
    requires Unique(a) && Unique(b) && Frame(a, b, key)
    ensures forall k :: k != key ==> (k in Abs(a) <==> k in Abs(b))
    ensures forall k :: k != key && k in Abs(a) ==> Abs(a)[k] == Abs(b)[k]
  {
  }
}
