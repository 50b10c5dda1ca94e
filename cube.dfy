/**
 * The indexing engine: an append-only store of observations with three
 * synchronised secondary indices (by MAC, by RSSI, by timestamp) that hold
 * record ids only, and the queries answered from them.
 */
module Cube {

  import opened Observation
  import opened Wrappers
  import opened IdSeq
  import opened Index
  import opened MacOrder

  /**
   * The optional filters of `query_multi`. The geographic leg is given by the
   * ids that its radius query matched; that query is not part of this model.
   */
  datatype Filters = Filters(
    mac: Option<Mac>,
    rssiRange: Option<(Int8, Int8)>,
    timeRange: Option<(Int64, Int64)>,
    geoIds: Option<seq<nat>>)

  predicate MacPasses(f: Filters, o: Obs)
  {
    f.mac.Some? ==> o.mac == f.mac.value
  }

  predicate RssiPasses(f: Filters, o: Obs)
  {
    f.rssiRange.Some? ==> f.rssiRange.value.0 <= o.rssi <= f.rssiRange.value.1
  }

  predicate TimePasses(f: Filters, o: Obs)
  {
    f.timeRange.Some? ==> f.timeRange.value.0 <= o.timestamp <= f.timeRange.value.1
  }

  predicate GeoPasses(f: Filters, id: nat)
  {
    f.geoIds.Some? ==> id in f.geoIds.value
  }

  /** Record `id`, holding `o`, passes every filter supplied; an omitted filter passes everything. */
  predicate Admits(f: Filters, id: nat, o: Obs)
  {
    MacPasses(f, o) && RssiPasses(f, o) && TimePasses(f, o) && GeoPasses(f, id)
  }

  /** Filter number `stage` of `query_multi`, in its order: 1 MAC, 2 RSSI, 3 timestamp, 4 geographic. */
  predicate StagePasses(f: Filters, stage: nat, id: nat, o: Obs)
  {
    match stage
    case 1 => MacPasses(f, o)
    case 2 => RssiPasses(f, o)
    case 3 => TimePasses(f, o)
    case 4 => GeoPasses(f, id)
    case _ => true
  }

  /** Record `id` passes the filters up to and including number `stage`. */
  predicate PassesFirst(f: Filters, stage: nat, id: nat, o: Obs)
  {
    && (stage >= 1 ==> StagePasses(f, 1, id, o))
    && (stage >= 2 ==> StagePasses(f, 2, id, o))
    && (stage >= 3 ==> StagePasses(f, 3, id, o))
    && (stage >= 4 ==> StagePasses(f, 4, id, o))
  }

  /** After `stage` narrowing steps the candidates are the passing ids, ascending. */
  ghost predicate Candidates(records: seq<Obs>, f: Filters, stage: nat, ids: seq<nat>)
  {
    && StrictlyIncreasing(ids)
    && forall x: nat :: x in ids <==> x < |records| && PassesFirst(f, stage, x, records[x])
  }

  /** `(0..n).collect()`: every id below `n`, ascending. */
  function AllIds(n: nat): seq<nat>
  {
    seq(n, (i: nat) => i)
  }

  /** The starting candidates, the MAC bucket or every id, pass the first filter. */
  lemma BaseCandidates(records: seq<Obs>, macIndex: map<Mac, seq<nat>>, f: Filters)
    requires IsIndex(records, macIndex, MacOf)
    ensures Candidates(records, f, 1,
      if f.mac.Some? then Bucket(macIndex, f.mac.value) else AllIds(|records|))
  {
    if f.mac.Some? {
      var ids := Bucket(macIndex, f.mac.value);
      BucketIsIdsWithKey(records, macIndex, MacOf, f.mac.value);
      IdsWithKeyMeaning(records, MacOf, f.mac.value);
      forall x: nat | x in ids ensures x < |records| && MacPasses(f, records[x]) {
        var j :| 0 <= j < |ids| && ids[j] == x;
      }
      forall x: nat | x < |records| && MacPasses(f, records[x]) ensures x in ids {
        assert MacOf(records[x]) == f.mac.value;
      }
    } else {
      var ids := AllIds(|records|);
      forall x: nat | x < |records| ensures x in ids {
        assert ids[x] == x;
      }
    }
  }

  /** A `retain` by a list holding exactly the ids that pass the next filter narrows to that filter. */
  lemma {:induction false} NarrowCandidates(records: seq<Obs>, f: Filters, stage: nat, ids: seq<nat>, keep: seq<nat>)
    requires Candidates(records, f, stage, ids)
    requires forall x: nat :: x < |records| ==> (x in keep <==> StagePasses(f, stage + 1, x, records[x]))
    ensures Candidates(records, f, stage + 1, Retain(ids, keep))
  {
    RetainIncreasing(ids, keep);
  }

  /** The RSSI step: `retain` by the ids of the RSSI range, when one is given. */
  lemma RssiStage(records: seq<Obs>, rssiIndex: map<int, seq<nat>>, f: Filters, ids: seq<nat>)
    requires IsIndex(records, rssiIndex, RssiOf)
    requires Candidates(records, f, 1, ids)
    ensures Candidates(records, f, 2,
      if f.rssiRange.Some? then Retain(ids, RangeIds(rssiIndex, f.rssiRange.value.0, f.rssiRange.value.1)) else ids)
  {
    if f.rssiRange.Some? {
      RangeIdsMembers(records, rssiIndex, RssiOf, f.rssiRange.value.0, f.rssiRange.value.1);
      NarrowCandidates(records, f, 1, ids, RangeIds(rssiIndex, f.rssiRange.value.0, f.rssiRange.value.1));
    } else {
      SkipStage(records, f, 1, ids);
    }
  }

  /** The timestamp step: `retain` by the ids of the time range, when one is given. */
  lemma TimeStage(records: seq<Obs>, timeIndex: map<int, seq<nat>>, f: Filters, ids: seq<nat>)
    requires IsIndex(records, timeIndex, TimeOf)
    requires Candidates(records, f, 2, ids)
    ensures Candidates(records, f, 3,
      if f.timeRange.Some? then Retain(ids, RangeIds(timeIndex, f.timeRange.value.0, f.timeRange.value.1)) else ids)
  {
    if f.timeRange.Some? {
      RangeIdsMembers(records, timeIndex, TimeOf, f.timeRange.value.0, f.timeRange.value.1);
      NarrowCandidates(records, f, 2, ids, RangeIds(timeIndex, f.timeRange.value.0, f.timeRange.value.1));
    } else {
      SkipStage(records, f, 2, ids);
    }
  }

  /** The geographic step: `retain` by the caller's geographic ids, when given. */
  lemma GeoStage(records: seq<Obs>, f: Filters, ids: seq<nat>)
    requires Candidates(records, f, 3, ids)
    ensures Candidates(records, f, 4, if f.geoIds.Some? then Retain(ids, f.geoIds.value) else ids)
  {
    if f.geoIds.Some? {
      NarrowCandidates(records, f, 3, ids, f.geoIds.value);
    } else {
      SkipStage(records, f, 3, ids);
    }
  }

  /** With no filter at all, the result is every record in insertion order. */
  lemma ResolveAll(records: seq<Obs>)
    ensures Resolve(records, AllIds(|records|)) == records
  {
    var r := Resolve(records, AllIds(|records|));
    assert ListsRecords(r, records, AllIds(|records|));
  }

  /** An omitted filter leaves the candidates as they are. */
  lemma SkipStage(records: seq<Obs>, f: Filters, stage: nat, ids: seq<nat>)
    requires Candidates(records, f, stage, ids)
    requires forall x: nat :: x < |records| ==> StagePasses(f, stage + 1, x, records[x])
    ensures Candidates(records, f, stage + 1, ids)
  {
  }

  /** The candidates left after the four filters are the specification's ids. */
  lemma FinalCandidates(records: seq<Obs>, f: Filters, ids: seq<nat>)
    requires Candidates(records, f, 4, ids)
    ensures ids == MultiIds(records, f)
  {
    var spec := MultiIds(records, f);
    MultiIdsMeaning(records, f);
    forall x: nat ensures x in ids <==> x in spec {
      if x in spec {
        var j :| 0 <= j < |spec| && spec[j] == x;
      }
    }
    IncreasingUnique(ids, spec);
  }

  /** The specification of `query_multi`: the ids of the records passing every filter, ascending. */
  function MultiIds(records: seq<Obs>, f: Filters): seq<nat>
  {
    Select(records, (i: nat, o: Obs) => Admits(f, i, o))
  }

  /** The conjunctive specification lists every id passing all filters, only those, ascending. */
  lemma MultiIdsMeaning(records: seq<Obs>, f: Filters)
    ensures var r := MultiIds(records, f);
      && (forall j :: 0 <= j < |r| ==> r[j] < |records| && Admits(f, r[j], records[r[j]]))
      && (forall i :: 0 <= i < |records| && Admits(f, i, records[i]) ==> i in r)
      && StrictlyIncreasing(r)
  {
    SelectMeaning(records, (i: nat, o: Obs) => Admits(f, i, o));
  }

  /**
   * A scan of an exact ordered index over [lo, hi], resolved to records: the
   * records whose key lies in the range, by ascending key, then in insertion
   * order.
   */
  function Scan(records: seq<Obs>, index: map<int, seq<nat>>, key: Obs -> int, lo: int, hi: int): (r: seq<Obs>)
    requires IsIndex(records, index, key)
    ensures ListsRecords(r, records, KeyOrdered(records, key, lo, hi))
    ensures forall j :: 0 <= j < |r| ==> lo <= key(r[j]) <= hi
    ensures forall a, b :: 0 <= a < b < |r| ==> key(r[a]) <= key(r[b])
    ensures forall i :: 0 <= i < |records| && lo <= key(records[i]) <= hi ==> records[i] in r
  {
    RangeIdsMeetSpec(records, index, key, lo, hi);
    KeyOrderedMeaning(records, key, lo, hi);
    var ids := RangeIds(index, lo, hi);
    ResolveCovers(records, ids);
    Resolve(records, ids)
  }

  /** An exact-key lookup on an exact index, resolved to records. */
  function Lookup<K>(records: seq<Obs>, index: map<K, seq<nat>>, key: Obs -> K, k: K): (r: seq<Obs>)
    requires IsIndex(records, index, key)
    ensures ListsRecords(r, records, IdsWithKey(records, key, k))
    ensures forall j :: 0 <= j < |r| ==> key(r[j]) == k
    ensures forall i :: 0 <= i < |records| && key(records[i]) == k ==> records[i] in r
  {
    BucketIsIdsWithKey(records, index, key, k);
    IdsWithKeyMeaning(records, key, k);
    var ids := Bucket(index, k);
    ResolveCovers(records, ids);
    Resolve(records, ids)
  }

  /**
   * `keys().copied().collect()`: the keys of a hash map, each once, in an
   * order the model leaves unspecified (the hash map's iteration order).
   */
  method CollectKeys(keySet: set<Mac>) returns (keys: seq<Mac>)
    ensures forall m :: m in keys <==> m in keySet
    ensures Distinct(keys)
  {
    keys := [];
    var pending := keySet;
    while pending != {}
      invariant pending <= keySet
      invariant forall m :: m in keySet ==> (m in keys <==> m !in pending)
      invariant forall m :: m in keys ==> m in keySet
      invariant Distinct(keys)
      decreases |pending|
    {
      var m :| m in pending;
      keys := keys + [m];
      pending := pending - {m};
    }
  }

  class BleCube {

    /** The canonical store; a record's id is its position. */
    var records: seq<Obs>
    var macIndex: map<Mac, seq<nat>>
    var rssiIndex: map<int, seq<nat>>
    var timeIndex: map<int, seq<nat>>

    /** Each index is exact for the store (see `Index.IsIndex`). */
    ghost predicate Valid()
      reads this
    {
      && IsIndex(records, macIndex, MacOf)
      && IsIndex(records, rssiIndex, RssiOf)
      && IsIndex(records, timeIndex, TimeOf)
    }

    /** `BleCube::new`: an empty store with empty indices. */
    constructor ()
      ensures Valid()
      ensures records == [] && macIndex == map[] && rssiIndex == map[] && timeIndex == map[]
    {
      records := [];
      macIndex := map[];
      rssiIndex := map[];
      timeIndex := map[];
      EmptyIsIndex(MacOf);
      EmptyIsIndex(RssiOf);
      EmptyIsIndex(TimeOf);
    }

    /**
     * `insert`: appends `obs` under the next id and pushes that id onto the
     * end of the bucket of each of its keys.
     */
    method Insert(obs: Obs) returns (id: nat)
      requires Valid()
      modifies this
      ensures Valid()
      ensures id == old(Len()) && Len() == old(Len()) + 1
      ensures records == old(records) + [obs]
      ensures macIndex == Push(old(macIndex), obs.mac, id)
      ensures rssiIndex == Push(old(rssiIndex), obs.rssi, id)
      ensures timeIndex == Push(old(timeIndex), obs.timestamp, id)
      ensures Get(id) == Some(obs) && Get(Len()) == None
      ensures forall j :: 0 <= j < id ==> Get(j) == old(Get(j))
    {
      PushKeepsIndex(records, macIndex, MacOf, obs);
      PushKeepsIndex(records, rssiIndex, RssiOf, obs);
      PushKeepsIndex(records, timeIndex, TimeOf, obs);
      id := |records|;
      records := records + [obs];
      macIndex := Push(macIndex, obs.mac, id);
      rssiIndex := Push(rssiIndex, obs.rssi, id);
      timeIndex := Push(timeIndex, obs.timestamp, id);
    }

    /** `get`: the record with this id, or None past the end. */
    function Get(id: nat): (r: Option<Obs>)
      reads this
      ensures r.Some? <==> id < |records|
      ensures r.Some? ==> r.value == records[id]
    {
      if id < |records| then Some(records[id]) else None
    }

    /** `len`: the first id that names no record. */
    function Len(): (n: nat)
      reads this
      ensures forall id: nat :: Get(id).Some? <==> id < n
    {
      |records|
    }

    /** `is_empty`: no id names a record. */
    function IsEmpty(): (b: bool)
      reads this
      ensures b <==> Len() == 0
      ensures b <==> Get(0) == None
    {
      |records| == 0
    }

    // ----- MAC queries -----

    /** `query_mac`: the records with this address, in insertion order; none for an unknown address. */
    function QueryMac(mac: Mac): (r: seq<Obs>)
      reads this
      requires Valid()
      ensures ListsRecords(r, records, IdsWithKey(records, MacOf, mac))
      ensures forall j :: 0 <= j < |r| ==> r[j].mac == mac
      ensures forall i :: 0 <= i < |records| && records[i].mac == mac ==> records[i] in r
    {
      Lookup(records, macIndex, MacOf, mac)
    }

    /** `get_all_macs`: every address seen, once each, in lexicographic byte order. */
    method GetAllMacs() returns (macs: seq<Mac>)
      requires Valid()
      ensures StrictlySorted(macs)
      ensures forall i :: 0 <= i < |records| ==> records[i].mac in macs
      ensures forall m :: m in macs ==> exists i :: 0 <= i < |records| && records[i].mac == m
    {
      var keys := CollectKeys(macIndex.Keys);
      macs := SortMacs(keys);
      KeysOfIndex(records, macIndex, MacOf);
      forall m ensures m in macs <==> m in macIndex {
        assert m in macs <==> m in multiset(macs);
        assert m in keys <==> m in multiset(keys);
      }
    }

    // ----- RSSI queries -----

    /** `query_rssi`: the records with exactly this signal strength, in insertion order. */
    function QueryRssi(rssi: Int8): (r: seq<Obs>)
      reads this
      requires Valid()
      ensures ListsRecords(r, records, IdsWithKey(records, RssiOf, rssi))
      ensures forall j :: 0 <= j < |r| ==> r[j].rssi == rssi
      ensures forall i :: 0 <= i < |records| && records[i].rssi == rssi ==> records[i] in r
    {
      Lookup(records, rssiIndex, RssiOf, rssi)
    }

    /**
     * `query_rssi_range`: the records with min <= rssi <= max, by ascending
     * RSSI, then in insertion order. The source's `BTreeMap::range` panics
     * when min > max, so that call is outside the contract.
     */
    function QueryRssiRange(min: Int8, max: Int8): (r: seq<Obs>)
      reads this
      requires Valid()
      requires min <= max
      ensures ListsRecords(r, records, KeyOrdered(records, RssiOf, min, max))
      ensures forall j :: 0 <= j < |r| ==> min <= r[j].rssi <= max
      ensures forall a, b :: 0 <= a < b < |r| ==> r[a].rssi <= r[b].rssi
      ensures forall i :: 0 <= i < |records| && min <= records[i].rssi <= max ==> records[i] in r
    {
      Scan(records, rssiIndex, RssiOf, min, max)
    }

    /**
     * `query_rssi_gt`: the records with rssi > threshold, by ascending RSSI.
     * The scan starts at `threshold + 1` computed without overflow, so the
     * largest threshold gives no records (see `QueryRssiGtWrapping`).
     */
    function QueryRssiGt(threshold: Int8): (r: seq<Obs>)
      reads this
      requires Valid()
      ensures ListsRecords(r, records, KeyOrdered(records, RssiOf, threshold + 1, I8_MAX))
      ensures forall j :: 0 <= j < |r| ==> r[j].rssi > threshold
      ensures forall a, b :: 0 <= a < b < |r| ==> r[a].rssi <= r[b].rssi
      ensures threshold == I8_MAX ==> r == []
      ensures forall i :: 0 <= i < |records| && records[i].rssi > threshold ==> records[i] in r
    {
      Scan(records, rssiIndex, RssiOf, threshold + 1, I8_MAX)
    }

    /**
     * `query_rssi_gt` as written, in a release build: `threshold + 1` wraps
     * in `i8`, so a threshold of 127 scans from -128.
     */
    function QueryRssiGtWrapping(threshold: Int8): (r: seq<Obs>)
      reads this
      requires Valid()
      ensures ListsRecords(r, records, KeyOrdered(records, RssiOf, WrapI8(threshold + 1), I8_MAX))
      ensures threshold < I8_MAX ==> r == QueryRssiGt(threshold)
    {
      Scan(records, rssiIndex, RssiOf, WrapI8(threshold + 1), I8_MAX)
    }

    /** At the largest threshold the wrapping scan returns every record, although none is greater. */
    lemma RssiGtWrapsAtMax()
      requires Valid()
      ensures forall i :: 0 <= i < Len() ==> records[i] in QueryRssiGtWrapping(I8_MAX)
      ensures QueryRssiGt(I8_MAX) == []
    {
      var lo := WrapI8(I8_MAX + 1);
      assert lo == I8_MIN;
    }

    /** `query_rssi_gte`: the records with rssi >= threshold. */
    function QueryRssiGte(threshold: Int8): (r: seq<Obs>)
      reads this
      requires Valid()
      ensures ListsRecords(r, records, KeyOrdered(records, RssiOf, threshold, I8_MAX))
      ensures forall j :: 0 <= j < |r| ==> r[j].rssi >= threshold
      ensures forall a, b :: 0 <= a < b < |r| ==> r[a].rssi <= r[b].rssi
      ensures forall i :: 0 <= i < |records| && records[i].rssi >= threshold ==> records[i] in r
    {
      Scan(records, rssiIndex, RssiOf, threshold, I8_MAX)
    }

    /** `query_rssi_lt`: the records with rssi < threshold; none when threshold is -128. */
    function QueryRssiLt(threshold: Int8): (r: seq<Obs>)
      reads this
      requires Valid()
      ensures ListsRecords(r, records, KeyOrdered(records, RssiOf, I8_MIN, threshold - 1))
      ensures forall j :: 0 <= j < |r| ==> r[j].rssi < threshold
      ensures forall a, b :: 0 <= a < b < |r| ==> r[a].rssi <= r[b].rssi
      ensures forall i :: 0 <= i < |records| && records[i].rssi < threshold ==> records[i] in r
      ensures threshold == I8_MIN ==> r == []
    {
      Scan(records, rssiIndex, RssiOf, I8_MIN, threshold - 1)
    }

    /** `query_rssi_lte`: the records with rssi <= threshold. */
    function QueryRssiLte(threshold: Int8): (r: seq<Obs>)
      reads this
      requires Valid()
      ensures ListsRecords(r, records, KeyOrdered(records, RssiOf, I8_MIN, threshold))
      ensures forall j :: 0 <= j < |r| ==> r[j].rssi <= threshold
      ensures forall a, b :: 0 <= a < b < |r| ==> r[a].rssi <= r[b].rssi
      ensures forall i :: 0 <= i < |records| && records[i].rssi <= threshold ==> records[i] in r
    {
      Scan(records, rssiIndex, RssiOf, I8_MIN, threshold)
    }

    // ----- Timestamp queries -----

    /** `query_timestamp`: the records with exactly this timestamp, in insertion order. */
    function QueryTimestamp(timestamp: Int64): (r: seq<Obs>)
      reads this
      requires Valid()
      ensures ListsRecords(r, records, IdsWithKey(records, TimeOf, timestamp))
      ensures forall j :: 0 <= j < |r| ==> r[j].timestamp == timestamp
      ensures forall i :: 0 <= i < |records| && records[i].timestamp == timestamp ==> records[i] in r
    {
      Lookup(records, timeIndex, TimeOf, timestamp)
    }

    /**
     * `query_time_range`: the records with start <= timestamp <= end, by
     * ascending timestamp, then in insertion order; start > end panics in the
     * source.
     */
    function QueryTimeRange(start: Int64, end: Int64): (r: seq<Obs>)
      reads this
      requires Valid()
      requires start <= end
      ensures ListsRecords(r, records, KeyOrdered(records, TimeOf, start, end))
      ensures forall j :: 0 <= j < |r| ==> start <= r[j].timestamp <= end
      ensures forall a, b :: 0 <= a < b < |r| ==> r[a].timestamp <= r[b].timestamp
      ensures forall i :: 0 <= i < |records| && start <= records[i].timestamp <= end ==> records[i] in r
    {
      Scan(records, timeIndex, TimeOf, start, end)
    }

    /**
     * `query_time_after`: the records strictly after `timestamp`, oldest
     * first. The scan starts at `timestamp + 1` computed without overflow,
     * so the largest timestamp gives no records (see `QueryTimeAfterWrapping`).
     */
    function QueryTimeAfter(timestamp: Int64): (r: seq<Obs>)
      reads this
      requires Valid()
      ensures ListsRecords(r, records, KeyOrdered(records, TimeOf, timestamp + 1, I64_MAX))
      ensures forall j :: 0 <= j < |r| ==> r[j].timestamp > timestamp
      ensures forall a, b :: 0 <= a < b < |r| ==> r[a].timestamp <= r[b].timestamp
      ensures timestamp == I64_MAX ==> r == []
      ensures forall i :: 0 <= i < |records| && records[i].timestamp > timestamp ==> records[i] in r
    {
      Scan(records, timeIndex, TimeOf, timestamp + 1, I64_MAX)
    }

    /**
     * `query_time_after` as written, in a release build: `timestamp + 1`
     * wraps in `i64`, so the largest timestamp scans from the smallest.
     */
    function QueryTimeAfterWrapping(timestamp: Int64): (r: seq<Obs>)
      reads this
      requires Valid()
      ensures ListsRecords(r, records, KeyOrdered(records, TimeOf, WrapI64(timestamp + 1), I64_MAX))
      ensures timestamp < I64_MAX ==> r == QueryTimeAfter(timestamp)
    {
      Scan(records, timeIndex, TimeOf, WrapI64(timestamp + 1), I64_MAX)
    }

    /** At the largest timestamp the wrapping scan returns every record, although none is later. */
    lemma TimeAfterWrapsAtMax()
      requires Valid()
      ensures forall i :: 0 <= i < Len() ==> records[i] in QueryTimeAfterWrapping(I64_MAX)
      ensures QueryTimeAfter(I64_MAX) == []
    {
      var lo := WrapI64(I64_MAX + 1);
      assert lo == I64_MIN;
    }

    /** `query_time_before`: the records strictly before `timestamp`. */
    function QueryTimeBefore(timestamp: Int64): (r: seq<Obs>)
      reads this
      requires Valid()
      ensures ListsRecords(r, records, KeyOrdered(records, TimeOf, I64_MIN, timestamp - 1))
      ensures forall j :: 0 <= j < |r| ==> r[j].timestamp < timestamp
      ensures forall a, b :: 0 <= a < b < |r| ==> r[a].timestamp <= r[b].timestamp
      ensures forall i :: 0 <= i < |records| && records[i].timestamp < timestamp ==> records[i] in r
      ensures timestamp == I64_MIN ==> r == []
    {
      Scan(records, timeIndex, TimeOf, I64_MIN, timestamp - 1)
    }

    // ----- Conjunctive query -----

    /**
     * `query_multi`: starts from the MAC bucket (or every id) and narrows it
     * with `retain` by the RSSI range's ids, then the timestamp range's ids,
     * then the geographic ids; the survivors are resolved to records.
     */
    method QueryMulti(mac: Option<Mac>, rssiRange: Option<(Int8, Int8)>,
                      timeRange: Option<(Int64, Int64)>, geoIds: Option<seq<nat>>)
      returns (r: seq<Obs>)
      requires Valid()
      requires rssiRange.Some? ==> rssiRange.value.0 <= rssiRange.value.1
      requires timeRange.Some? ==> timeRange.value.0 <= timeRange.value.1
      ensures ListsRecords(r, records, MultiIds(records, Filters(mac, rssiRange, timeRange, geoIds)))
      ensures mac.None? && rssiRange.None? && timeRange.None? && geoIds.None? ==> r == records
    {
      ghost var f := Filters(mac, rssiRange, timeRange, geoIds);
      var resultIds: seq<nat>;
      if mac.Some? {
        resultIds := Bucket(macIndex, mac.value);
      } else {
        resultIds := AllIds(|records|);
      }
      BaseCandidates(records, macIndex, f);

      RssiStage(records, rssiIndex, f, resultIds);
      if rssiRange.Some? {
        var (lo, hi) := rssiRange.value;
        resultIds := Retain(resultIds, RangeIds(rssiIndex, lo, hi));
      }

      TimeStage(records, timeIndex, f, resultIds);
      if timeRange.Some? {
        var (start, end) := timeRange.value;
        resultIds := Retain(resultIds, RangeIds(timeIndex, start, end));
      }

      GeoStage(records, f, resultIds);
      if geoIds.Some? {
        resultIds := Retain(resultIds, geoIds.value);
      }

      FinalCandidates(records, f, resultIds);
      MultiIdsMeaning(records, f);
      if mac.None? && rssiRange.None? && timeRange.None? && geoIds.None? {
        ResolveAll(records);
      }
      r := Resolve(records, resultIds);
    }
  }

}
