/**
 * Scenarios on the model. Three replay the non-geographic unit tests at the
 * end of `src/ble_cube.rs` and promise the outcomes those tests check; the
 * last two are further examples of `query_multi`, which no test there covers.
 * Each method builds a fresh cube.
 */
module Scenarios {
  import opened Observation
  import opened Wrappers
  import opened IdSeq
  import opened Index
  import opened Cube

  /** An observation at the origin with the zero address, as the RSSI test inserts. */
  function AtOrigin(rssi: Int8): (o: Obs)
    ensures o.rssi == rssi && o.mac == [0, 0, 0, 0, 0, 0] && o.timestamp == 0
  {
    Obs(rssi, [0, 0, 0, 0, 0, 0], 0, 0, 0)
  }

  /** `test_basic_insert_and_query`: the first id is 0 and the address finds the one record. */
  method BasicInsertAndQuery() returns (id: nat, len: nat, results: seq<Obs>)
    ensures id == 0 && len == 1
    ensures |results| == 1 && results[0].rssi == -65
  {
    var cube := new BleCube();
    // 37.7749 and -122.4194 as IEEE 754 binary64 bit patterns
    var obs1 := Obs(-65, [0xAA, 0xBB, 0xCC, 0xDD, 0xEE, 0xFF], 1700000000,
                    0x4042_e32f_ec56_d5d0, 0xc05e_9ad7_7318_fc50);
    id := cube.Insert(obs1);
    len := cube.Len();
    results := cube.QueryMac([0xAA, 0xBB, 0xCC, 0xDD, 0xEE, 0xFF]);
    assert cube.records == [obs1];
    assert IdsWithKey([obs1], MacOf, obs1.mac) == [0];
  }

  /** A selection over three records, spelled out. */
  lemma SelectOfThree(a: Obs, b: Obs, c: Obs, p: (nat, Obs) -> bool)
    ensures Select([a, b, c], p)
         == (if p(0, a) then [0] else []) + (if p(1, b) then [1] else []) + (if p(2, c) then [2] else [])
  {
    SelectAppend([], a, p);
    assert [] + [a] == [a];
    SelectAppend([a], b, p);
    assert [a] + [b] == [a, b];
    SelectAppend([a, b], c, p);
    assert [a, b] + [c] == [a, b, c];
  }

  /** The ids with one key among three records, spelled out. */
  lemma IdsWithKeyOfThree<K>(a: Obs, b: Obs, c: Obs, key: Obs -> K, k: K)
    ensures IdsWithKey([a, b, c], key, k)
         == (if key(a) == k then [0] else []) + (if key(b) == k then [1] else []) + (if key(c) == k then [2] else [])
  {
    IdsWithKeyAppend([], key, a, k);
    assert [] + [a] == [a];
    IdsWithKeyAppend([a], key, b, k);
    assert [a] + [b] == [a, b];
    IdsWithKeyAppend([a, b], key, c, k);
    assert [a, b] + [c] == [a, b, c];
  }

  /** A range in which the records carry only the key `k` specifies the ids with key `k`. */
  lemma KeyOrderedOnly(records: seq<Obs>, key: Obs -> int, lo: int, k: int, hi: int)
    requires lo <= k <= hi
    requires forall i :: 0 <= i < |records| && lo <= key(records[i]) <= hi ==> key(records[i]) == k
    ensures KeyOrdered(records, key, lo, hi) == IdsWithKey(records, key, k)
  {
    KeyOrderedSplit(records, key, lo, k, hi);
    KeyOrderedVacant(records, key, k + 1, hi);
    if lo < k {
      KeyOrderedSplit(records, key, lo, k - 1, k);
      KeyOrderedVacant(records, key, lo, k - 1);
    }
    assert KeyOrdered(records, key, k + 1, k) == [];
  }

  /** A range in which the records carry only the keys `k1 < k2` lists those of `k1`, then those of `k2`. */
  lemma KeyOrderedPair(records: seq<Obs>, key: Obs -> int, lo: int, k1: int, k2: int, hi: int)
    requires lo <= k1 < k2 <= hi
    requires forall i :: 0 <= i < |records| && lo <= key(records[i]) <= hi ==> key(records[i]) in {k1, k2}
    ensures KeyOrdered(records, key, lo, hi) == IdsWithKey(records, key, k1) + IdsWithKey(records, key, k2)
  {
    KeyOrderedSplit(records, key, lo, k1, hi);
    KeyOrderedOnly(records, key, lo, k1, k1);
    KeyOrderedOnly(records, key, k1 + 1, k2, hi);
  }

  /** The ids with RSSI -70 and -50 among the RSSI test's three records. */
  lemma RssiScenarioKeys(rs: seq<Obs>)
    requires rs == [AtOrigin(-50), AtOrigin(-70), AtOrigin(-90)]
    ensures IdsWithKey(rs, RssiOf, -70) == [1]
    ensures IdsWithKey(rs, RssiOf, -50) == [0]
  {
    IdsWithKeyOfThree(rs[0], rs[1], rs[2], RssiOf, -70);
    IdsWithKeyOfThree(rs[0], rs[1], rs[2], RssiOf, -50);
  }

  /** The RSSI test's scan of [-80, -60] specifies the second record alone. */
  lemma RssiScenarioInRange(rs: seq<Obs>)
    requires rs == [AtOrigin(-50), AtOrigin(-70), AtOrigin(-90)]
    ensures KeyOrdered(rs, RssiOf, -80, -60) == [1]
  {
    RssiScenarioKeys(rs);
    KeyOrderedOnly(rs, RssiOf, -80, -70, -60);
  }

  /** The RSSI test's scan of RSSI >= -70 specifies the second record, then the first. */
  lemma RssiScenarioAtLeast(rs: seq<Obs>)
    requires rs == [AtOrigin(-50), AtOrigin(-70), AtOrigin(-90)]
    ensures KeyOrdered(rs, RssiOf, -70, I8_MAX) == [1, 0]
  {
    RssiScenarioKeys(rs);
    KeyOrderedPair(rs, RssiOf, -70, -70, -50, I8_MAX);
  }

  /** The prefix of length i + 1 is the prefix of length i and one more element. */
  lemma PrefixGrows(s: seq<Obs>, i: nat)
    requires i < |s|
    ensures s[..i + 1] == s[..i] + [s[i]]
  {
  }

  /** A new cube into which `obs` has been inserted, in order. */
  method Build(obs: seq<Obs>) returns (cube: BleCube)
    ensures fresh(cube) && cube.Valid()
    ensures cube.records == obs
  {
    cube := new BleCube();
    for i := 0 to |obs|
      invariant fresh(cube) && cube.Valid()
      invariant cube.records == obs[..i]
    {
      PrefixGrows(obs, i);
      var _ := cube.Insert(obs[i]);
    }
    assert obs[..|obs|] == obs;
  }

  /** `test_rssi_range_query`, first half: [-80, -60] holds only the record at -70. */
  method RssiRangeQuery() returns (inRange: seq<Obs>)
    ensures |inRange| == 1 && inRange[0].rssi == -70
  {
    var cube := Build([AtOrigin(-50), AtOrigin(-70), AtOrigin(-90)]);
    RssiScenarioInRange(cube.records);
    inRange := cube.QueryRssiRange(-80, -60);
  }

  /** `test_rssi_range_query`, second half: `>= -70` holds -70, then -50. */
  method RssiGteQuery() returns (atLeast: seq<Obs>)
    ensures |atLeast| == 2
    ensures atLeast[0].rssi == -70 && atLeast[1].rssi == -50
  {
    var cube := Build([AtOrigin(-50), AtOrigin(-70), AtOrigin(-90)]);
    RssiScenarioAtLeast(cube.records);
    atLeast := cube.QueryRssiGte(-70);
  }

  /** `query_multi` with every filter omitted returns each record once, in insertion order. */
  method UnfilteredMulti() returns (all: seq<Obs>)
    ensures all == [AtOrigin(-50), AtOrigin(-70)]
  {
    var cube := Build([AtOrigin(-50), AtOrigin(-70)]);
    all := cube.QueryMulti(None, None, None, None);
  }

  /** A record with the RSSI of the second one but another address. */
  function Elsewhere(): (o: Obs)
    ensures o.rssi == -70 && o.mac != [0, 0, 0, 0, 0, 0]
  {
    Obs(-70, [1, 2, 3, 4, 5, 6], 0, 0, 0)
  }

  /** Of the three records, only the second passes both the zero address and [-80, -60]. */
  lemma MacRssiScenarioIds(rs: seq<Obs>)
    requires rs == [AtOrigin(-50), AtOrigin(-70), Elsewhere()]
    ensures MultiIds(rs, Filters(Some([0, 0, 0, 0, 0, 0]), Some((-80, -60)), None, None)) == [1]
  {
    var f := Filters(Some([0, 0, 0, 0, 0, 0]), Some((-80, -60)), None, None);
    SelectOfThree(rs[0], rs[1], rs[2], (i: nat, o: Obs) => Admits(f, i, o));
    assert !Admits(f, 0, rs[0]) && Admits(f, 1, rs[1]) && !Admits(f, 2, rs[2]);
  }

  /** A MAC filter combined with an RSSI range keeps the records that pass both. */
  method MacAndRssiMulti() returns (r: seq<Obs>)
    ensures |r| == 1 && r[0] == AtOrigin(-70)
  {
    var cube := Build([AtOrigin(-50), AtOrigin(-70), Elsewhere()]);
    MacRssiScenarioIds(cube.records);
    r := cube.QueryMulti(Some([0, 0, 0, 0, 0, 0]), Some((-80, -60)), None, None);
  }
}
