/** The annotation store (`mapData`): a JavaScript object from intrinsic
    key to annotation record. A JavaScript object enumerates keys of this
    shape in insertion order, so the store keeps that order beside the map;
    overwriting a key keeps its place. Nothing is ever deleted. */
module Annotations {
  import opened Wrappers
  import opened Keys

  /** One saved annotation. `setting` is None for a loaded record whose
      `data.setting` is undefined. `scale` is written but never read back. */
  datatype Record = Record(intrinsicX: int, intrinsicY: int, scale: real, setting: Option<string>)

  datatype Store = Store(keys: seq<string>, entries: map<string, Record>)

  /** The order lists every key of the map once. */
  ghost predicate Valid(s: Store) {
    && (forall i, j :: 0 <= i < j < |s.keys| ==> s.keys[i] != s.keys[j])
    && (forall k :: k in s.entries <==> k in s.keys)
  }

  /** Every record sits under the key its own coordinates spell. */
  predicate WellKeyed(s: Store) {
    forall k :: k in s.entries ==> k == KeyOf(s.entries[k].intrinsicX, s.entries[k].intrinsicY)
  }

  function Empty(): (s: Store)
    ensures Valid(s) && WellKeyed(s)
    ensures forall k :: Lookup(s, k) == None
  {
    Store([], map[])
  }

  function Lookup(s: Store, k: string): Option<Record> {
    if k in s.entries then Some(s.entries[k]) else None
  }

  /** `mapData[key] = record`: the key now holds the record, every other
      key reads as before, a new key goes last and an existing key keeps
      its place. */
  function Put(s: Store, k: string, r: Record): (s': Store)
    requires Valid(s)
    ensures Valid(s')
    ensures Lookup(s', k) == Some(r)
    ensures forall k' :: k' != k ==> Lookup(s', k') == Lookup(s, k')
    ensures k in s.entries ==> s'.keys == s.keys
    ensures k !in s.entries ==> s'.keys == s.keys + [k]
  {
    if k in s.entries then Store(s.keys, s.entries[k := r])
    else Store(s.keys + [k], s.entries[k := r])
  }

  /** The store holds one entry per listed key: the order has as many
      elements as the map has keys. */
  lemma OrderCoversEntries(s: Store)
    requires Valid(s)
    ensures |s.keys| == |s.entries|
  {
    DistinctCount(s.keys, s.entries.Keys);
  }

  /** A sequence without repeats has as many elements as the set of them. */
  lemma {:induction false} DistinctCount(ks: seq<string>, ss: set<string>)
    requires forall i, j :: 0 <= i < j < |ks| ==> ks[i] != ks[j]
    requires forall k :: k in ss <==> k in ks
    ensures |ks| == |ss|
    decreases |ks|
  {
    if |ks| == 0 {
      assert ss == {};
    } else {
      var last := ks[|ks| - 1];
      var init := ks[..|ks| - 1];
      assert last !in init;
      assert forall k :: k in ss - {last} <==> k in init by {
        forall k ensures k in ss - {last} <==> k in init {
          if k in ks && k != last {
            var i :| 0 <= i < |ks| && ks[i] == k;
            assert init[i] == k;
          }
        }
      }
      DistinctCount(init, ss - {last});
    }
  }

  /** Writing a record under its own key keeps every record under its own key. */
  lemma PutKeepsWellKeyed(s: Store, r: Record)
    requires Valid(s) && WellKeyed(s)
    ensures WellKeyed(Put(s, KeyOf(r.intrinsicX, r.intrinsicY), r))
  {
    var k := KeyOf(r.intrinsicX, r.intrinsicY);
    var s' := Put(s, k, r);
    forall k' | k' in s'.entries
      ensures k' == KeyOf(s'.entries[k'].intrinsicX, s'.entries[k'].intrinsicY)
    {
      assert Lookup(s', k') == Some(s'.entries[k']);
      if k' != k {
        assert Lookup(s, k') == Some(s'.entries[k']);
      }
    }
  }

  /** Saving grows the store by one entry for a new key and by none for an
      existing one; no save removes anything. */
  lemma PutSize(s: Store, k: string, r: Record)
    requires Valid(s)
    ensures |Put(s, k, r).entries| == if k in s.entries then |s.entries| else |s.entries| + 1
    ensures s.entries.Keys <= Put(s, k, r).entries.Keys
  {
    OrderCoversEntries(s);
    OrderCoversEntries(Put(s, k, r));
  }
}
