/**
 * The secondary indices of the cube. Each maps a key to its bucket, the ids
 * of the records carrying that key; the RSSI and timestamp indices are
 * ordered by key and answer range scans.
 */
module Index {

  import opened Observation
  import opened IdSeq

  /** The ids of the records whose key is `k`, in insertion order. */
  function IdsWithKey<K(==)>(records: seq<Obs>, key: Obs -> K, k: K): seq<nat>
  {
    Select(records, (i: nat, o: Obs) => key(o) == k)
  }

  /** The ids with key `k` are exactly the records carrying `k`, in insertion order. */
  lemma IdsWithKeyMeaning<K>(records: seq<Obs>, key: Obs -> K, k: K)
    ensures var r := IdsWithKey(records, key, k);
      && (forall j :: 0 <= j < |r| ==> r[j] < |records| && key(records[r[j]]) == k)
      && (forall i :: 0 <= i < |records| && key(records[i]) == k ==> i in r)
      && StrictlyIncreasing(r)
  {
    SelectMeaning(records, (i: nat, o: Obs) => key(o) == k);
  }

  /** Appending a record adds its id to the end of its own key's ids and nowhere else. */
  lemma IdsWithKeyAppend<K>(records: seq<Obs>, key: Obs -> K, o: Obs, k: K)
    ensures IdsWithKey(records + [o], key, k)
         == IdsWithKey(records, key, k) + (if key(o) == k then [|records|] else [])
  {
    SelectAppend(records, o, (i: nat, o: Obs) => key(o) == k);
  }

  /** A key that no record carries has no ids. */
  lemma IdsWithKeyNone<K>(records: seq<Obs>, key: Obs -> K, k: K)
    requires forall i :: 0 <= i < |records| ==> key(records[i]) != k
    ensures IdsWithKey(records, key, k) == []
  {
    SelectNone(records, (i: nat, o: Obs) => key(o) == k);
  }

  /** The bucket of `k`, empty when the key is unknown (`get(k).unwrap_or_default()`). */
  function Bucket<K>(index: map<K, seq<nat>>, k: K): seq<nat>
  {
    if k in index then index[k] else []
  }

  /** `index.entry(k).or_insert_with(Vec::new).push(id)`. */
  function Push<K>(index: map<K, seq<nat>>, k: K, id: nat): map<K, seq<nat>>
  {
    index[k := Bucket(index, k) + [id]]
  }

  /** A push makes `k` present with `id` at the end of its bucket, and leaves every other bucket alone. */
  lemma PushMeaning<K>(index: map<K, seq<nat>>, k: K, id: nat)
    ensures var r := Push(index, k, id);
      && r.Keys == index.Keys + {k}
      && r[k] == Bucket(index, k) + [id]
      && forall k' :: k' in index && k' != k ==> r[k'] == index[k']
  {
  }

  /**
   * `index` is the index of `records` under `key`: the bucket of every key
   * present holds exactly the ids of the records with that key, in insertion
   * order; no bucket is empty; and every record's key is present.
   */
  ghost predicate IsIndex<K>(records: seq<Obs>, index: map<K, seq<nat>>, key: Obs -> K)
  {
    && (forall k {:trigger index[k]} :: k in index ==> index[k] == IdsWithKey(records, key, k) && index[k] != [])
    && (forall i :: 0 <= i < |records| ==> key(records[i]) in index)
  }

  /**
   * The bucket invariant stated record by record: every id below the store
   * size sits in the bucket of its own key, a bucket holds only ids of its
   * key and of existing records, and every bucket is non-empty and strictly
   * increasing.
   */
  ghost predicate BucketsPartition<K>(records: seq<Obs>, index: map<K, seq<nat>>, key: Obs -> K)
  {
    && (forall i :: 0 <= i < |records| ==> key(records[i]) in index && i in index[key(records[i])])
    && (forall k :: k in index ==> forall i :: i in index[k] ==> i < |records| && key(records[i]) == k)
    && (forall k :: k in index ==> index[k] != [] && StrictlyIncreasing(index[k]))
  }

  /** The empty index is the index of the empty store. */
  lemma EmptyIsIndex<K>(key: Obs -> K)
    ensures IsIndex([], map[], key)
  {
  }

  /** Pushing the new id onto its key's bucket keeps the index exact. */
  lemma {:induction false} PushKeepsIndex<K>(records: seq<Obs>, index: map<K, seq<nat>>, key: Obs -> K, o: Obs)
    requires IsIndex(records, index, key)
    ensures IsIndex(records + [o], Push(index, key(o), |records|), key)
  {
    var records', index' := records + [o], Push(index, key(o), |records|);
    forall k | k in index'
      ensures index'[k] == IdsWithKey(records', key, k) && index'[k] != []
    {
      IdsWithKeyAppend(records, key, o, k);
      if k != key(o) {
        assert k in index;
      } else if k !in index {
        IdsWithKeyNone(records, key, k);
      }
    }
    forall i | 0 <= i < |records'| ensures key(records'[i]) in index' {
      if i < |records| {
        assert records'[i] == records[i];
      }
    }
  }

  /** An exact index satisfies the record-by-record bucket invariant. */
  lemma IndexPartitions<K>(records: seq<Obs>, index: map<K, seq<nat>>, key: Obs -> K)
    requires IsIndex(records, index, key)
    ensures BucketsPartition(records, index, key)
  {
    forall i | 0 <= i < |records| ensures key(records[i]) in index && i in index[key(records[i])] {
      IdsWithKeyMeaning(records, key, key(records[i]));
    }
    forall k | k in index
      ensures (forall i :: i in index[k] ==> i < |records| && key(records[i]) == k)
      ensures index[k] != [] && StrictlyIncreasing(index[k])
    {
      var r := IdsWithKey(records, key, k);
      IdsWithKeyMeaning(records, key, k);
      forall i | i in r ensures i < |records| && key(records[i]) == k {
        var j :| 0 <= j < |r| && r[j] == i;
      }
    }
  }

  /** The record-by-record bucket invariant pins the index down exactly. */
  lemma PartitionIsIndex<K>(records: seq<Obs>, index: map<K, seq<nat>>, key: Obs -> K)
    requires BucketsPartition(records, index, key)
    ensures IsIndex(records, index, key)
  {
    forall k | k in index ensures index[k] == IdsWithKey(records, key, k) {
      var r := IdsWithKey(records, key, k);
      IdsWithKeyMeaning(records, key, k);
      forall x: nat ensures x in index[k] <==> x in r {
        if x in r {
          var j :| 0 <= j < |r| && r[j] == x;
        }
        if x in index[k] {
          assert x < |records| && key(records[x]) == k;
        }
      }
      IncreasingUnique(index[k], r);
    }
  }

  /** Under an exact index, looking up any key gives exactly the ids with that key. */
  lemma BucketIsIdsWithKey<K>(records: seq<Obs>, index: map<K, seq<nat>>, key: Obs -> K, k: K)
    requires IsIndex(records, index, key)
    ensures Bucket(index, k) == IdsWithKey(records, key, k)
  {
    if k !in index {
      IdsWithKeyNone(records, key, k);
    }
  }

  /** The keys of an exact index are exactly the keys the records carry. */
  lemma KeysOfIndex<K>(records: seq<Obs>, index: map<K, seq<nat>>, key: Obs -> K)
    requires IsIndex(records, index, key)
    ensures forall k :: k in index <==> exists i :: 0 <= i < |records| && key(records[i]) == k
  {
    forall k | k in index ensures exists i :: 0 <= i < |records| && key(records[i]) == k {
      IdsWithKeyMeaning(records, key, k);
      var ids := index[k];
      assert ids[0] < |records| && key(records[ids[0]]) == k;
    }
  }

  // ----- Ordered indices -----

  /**
   * The keys of `index` within [lo, hi] in ascending order: the keys that
   * `BTreeMap::range(lo..=hi)` visits. Empty when lo > hi.
   */
  function KeysInRange(index: map<int, seq<nat>>, lo: int, hi: int): (ks: seq<int>)
    ensures forall k :: k in ks <==> k in index && lo <= k <= hi
    ensures forall i, j :: 0 <= i < j < |ks| ==> ks[i] < ks[j]
    decreases hi - lo
  {
    if lo > hi then []
    else
      var rest := KeysInRange(index, lo + 1, hi);
      assert forall j :: 0 <= j < |rest| ==> rest[j] in rest;
      (if lo in index then [lo] else []) + rest
  }

  /** The buckets of `ks`, concatenated in the order of `ks` (`flat_map`). */
  function Gather(index: map<int, seq<nat>>, ks: seq<int>): seq<nat>
  {
    if ks == [] then [] else Bucket(index, ks[0]) + Gather(index, ks[1..])
  }

  lemma {:induction false} GatherAppend(index: map<int, seq<nat>>, a: seq<int>, b: seq<int>)
    ensures Gather(index, a + b) == Gather(index, a) + Gather(index, b)
  {
    if a == [] {
      assert a + b == b;
    } else {
      assert (a + b)[1..] == a[1..] + b;
      GatherAppend(index, a[1..], b);
    }
  }

  /** The ids an ordered index yields for `range(lo..=hi)`, before resolution to records. */
  function RangeIds(index: map<int, seq<nat>>, lo: int, hi: int): seq<nat>
  {
    Gather(index, KeysInRange(index, lo, hi))
  }

  /**
   * The specification of a range scan, from the records alone: the ids whose
   * key lies in [lo, hi], grouped by ascending key and in insertion order
   * within a key.
   */
  function KeyOrdered(records: seq<Obs>, key: Obs -> int, lo: int, hi: int): seq<nat>
    decreases hi - lo
  {
    if lo > hi then [] else IdsWithKey(records, key, lo) + KeyOrdered(records, key, lo + 1, hi)
  }

  /**
   * A range specification lists each id whose key lies in [lo, hi], only
   * those, by ascending key and then by insertion order.
   */
  lemma {:induction false} KeyOrderedMeaning(records: seq<Obs>, key: Obs -> int, lo: int, hi: int)
    ensures var r := KeyOrdered(records, key, lo, hi);
      && (forall j :: 0 <= j < |r| ==> r[j] < |records| && lo <= key(records[r[j]]) <= hi)
      && (forall i :: 0 <= i < |records| && lo <= key(records[i]) <= hi ==> i in r)
      && ByKeyThenId(records, key, r)
    decreases hi - lo
  {
    if lo <= hi {
      var here, rest := IdsWithKey(records, key, lo), KeyOrdered(records, key, lo + 1, hi);
      IdsWithKeyMeaning(records, key, lo);
      KeyOrderedMeaning(records, key, lo + 1, hi);
      var r := here + rest;
      forall i | 0 <= i < |records| && lo <= key(records[i]) <= hi ensures i in r {
        if key(records[i]) == lo { assert i in here; } else { assert i in rest; }
      }
      forall a, b | 0 <= a < b < |r| && r[a] < |records| && r[b] < |records|
        ensures || key(records[r[a]]) < key(records[r[b]])
                || (key(records[r[a]]) == key(records[r[b]]) && r[a] < r[b])
      {
        if b < |here| {
        } else if a < |here| {
          assert r[b] == rest[b - |here|];
        } else {
          assert r[a] == rest[a - |here|] && r[b] == rest[b - |here|];
        }
      }
    }
  }

  /** Each earlier id has a smaller key, or the same key and a smaller id. */
  ghost predicate ByKeyThenId(records: seq<Obs>, key: Obs -> int, s: seq<nat>)
  {
    forall a, b :: 0 <= a < b < |s| && s[a] < |records| && s[b] < |records| ==>
      || key(records[s[a]]) < key(records[s[b]])
      || (key(records[s[a]]) == key(records[s[b]]) && s[a] < s[b])
  }

  /** A range scan over an exact ordered index meets its specification. */
  lemma {:induction false} RangeIdsMeetSpec(records: seq<Obs>, index: map<int, seq<nat>>, key: Obs -> int, lo: int, hi: int)
    requires IsIndex(records, index, key)
    ensures RangeIds(index, lo, hi) == KeyOrdered(records, key, lo, hi)
    decreases hi - lo
  {
    if lo <= hi {
      var head := if lo in index then [lo] else [];
      GatherAppend(index, head, KeysInRange(index, lo + 1, hi));
      BucketIsIdsWithKey(records, index, key, lo);
      RangeIdsMeetSpec(records, index, key, lo + 1, hi);
    }
  }

  /** An id is in a range scan of an exact index exactly when its record's key lies in the range. */
  lemma RangeIdsMembers(records: seq<Obs>, index: map<int, seq<nat>>, key: Obs -> int, lo: int, hi: int)
    requires IsIndex(records, index, key)
    ensures forall x: nat :: x in RangeIds(index, lo, hi) <==> x < |records| && lo <= key(records[x]) <= hi
  {
    RangeIdsMeetSpec(records, index, key, lo, hi);
    KeyOrderedMeaning(records, key, lo, hi);
    var r := RangeIds(index, lo, hi);
    forall x: nat | x in r ensures x < |records| && lo <= key(records[x]) <= hi {
      var j :| 0 <= j < |r| && r[j] == x;
    }
  }

  /** A range splits at any key inside it. */
  lemma {:induction false} KeyOrderedSplit(records: seq<Obs>, key: Obs -> int, lo: int, mid: int, hi: int)
    requires lo <= mid <= hi
    ensures KeyOrdered(records, key, lo, hi) == KeyOrdered(records, key, lo, mid) + KeyOrdered(records, key, mid + 1, hi)
    decreases mid - lo
  {
    if lo < mid {
      KeyOrderedSplit(records, key, lo + 1, mid, hi);
    } else {
      assert KeyOrdered(records, key, lo + 1, mid) == [];
    }
  }

  /** A range that no record's key falls in yields nothing. */
  lemma {:induction false} KeyOrderedVacant(records: seq<Obs>, key: Obs -> int, lo: int, hi: int)
    requires forall i :: 0 <= i < |records| ==> !(lo <= key(records[i]) <= hi)
    ensures KeyOrdered(records, key, lo, hi) == []
    decreases hi - lo
  {
    if lo <= hi {
      IdsWithKeyNone(records, key, lo);
      KeyOrderedVacant(records, key, lo + 1, hi);
    }
  }

}
