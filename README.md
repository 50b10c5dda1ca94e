# BleCube in Dafny

A model of `BleCube` in `src/ble_cube.rs`, an in-memory store of BLE observations. Each observation holds an RSSI (`i8`), a six-byte MAC address, an `i64` timestamp and a latitude/longitude pair. The cube keeps:

- `records`: an append-only vector in which a record's id is its position;
- three secondary indices that hold ids only:
  - a hash map from MAC address to that address's ids;
  - an ordered map from RSSI to ids;
  - an ordered map from timestamp to ids.

Queries look ids up in an index and resolve them back to records. `query_multi` starts from one candidate list and narrows it with `retain`.

Files and modules:

- `observation.dfy` (`Observation`): the record type, the integer widths, the index keys, and two's-complement wrap-around.
- `ids.dfy` (`IdSeq`): id lists. It has selection by a predicate, `retain`, and resolution back to records (`filter_map(|&id| records.get(id))`).
- `index.dfy` (`Index`): the exactness invariant of an index (`IsIndex`) and its record-by-record form (`BucketsPartition`). It also has `entry(k).or_insert_with(Vec::new).push(id)` (`Push`), the walk `BTreeMap::range(lo..=hi)` + `flat_map` (`RangeIds`), and its specification from the records alone (`KeyOrdered`: by ascending key, then by id).
- `mac_order.dfy` (`MacOrder`): Rust's lexicographic order on byte arrays and the sort behind `get_all_macs`.
- `cube.dfy` (`Cube`):
  - the class `BleCube`, with `records` as a `seq` and the three indices as `map` fields that its methods reassign;
  - `Valid()`, which says every index is exact for `records`;
  - every query, and `query_multi` proved step by step against `MultiIds`.
- `scenarios.dfy` (`Scenarios`): five scenarios as methods with postconditions. `BasicInsertAndQuery`, `RssiRangeQuery` and `RssiGteQuery` replay the unit tests `test_basic_insert_and_query` and `test_rssi_range_query` of `src/ble_cube.rs` and give the outcomes those tests check. `UnfilteredMulti` and `MacAndRssiMulti` are extra examples of `query_multi`, not source tests. The geographic test `test_geo_radius_query` is not replayed (see Left out).

Decisions:

- `insert`, `get_all_macs` and `query_multi` change state step by step in the source, so they are methods. The other queries are iterator chains and are functions.
- The ids a scan yields are proved equal to a specification. For `range(lo..=hi)` this is `Index.RangeIdsMeetSpec`; the conjunctive query's `retain` steps are proved against `Cube.MultiIds`.
- `Valid()` is kept across `insert`.
- `f64` coordinates are kept as their 64-bit patterns. Nothing outside the geographic queries computes on them.
- The MAC index's iteration order is left unspecified: `Cube.CollectKeys` picks keys in an arbitrary order.

## Model

| member | source | states |
|---|---|---|
| Cube.BleCube.constructor | src/ble_cube.rs:43-51 | `new`: no records, all three indices empty, and the invariant holds |
| Cube.BleCube.Insert | src/ble_cube.rs:65-94 | the id returned is the old length; the length grows by one; records gain exactly `obs` at the end; each index gets that id appended to the bucket of the record's own key, and every other bucket is unchanged; `get(id)` is the record, `get(len)` is None, earlier records are unchanged; the invariant is kept |
| Cube.BleCube.Get | src/ble_cube.rs:97-99 | Some exactly for ids below the length, and then the record at that position |
| Cube.BleCube.Len | src/ble_cube.rs:102-104 | the length is the first id for which `get` gives None |
| Cube.BleCube.IsEmpty | src/ble_cube.rs:106-108 | true exactly when the length is 0, and exactly when `get(0)` is None |
| Cube.BleCube.QueryMac | src/ble_cube.rs:113-118 | exactly the ids with this address, resolved in insertion order: only records with this address, and every one of them; none for an unknown address |
| Cube.BleCube.GetAllMacs | src/ble_cube.rs:121-125 | strictly ascending in byte-lexicographic order (so each address once); every record's address is present; every address listed belongs to some record |
| Cube.CollectKeys | src/ble_cube.rs:122 | `keys().copied().collect()`: the map's keys, each exactly once |
| MacOrder.SortMacs | src/ble_cube.rs:123 | `sort`: the output is sorted and a permutation of the input, and strictly sorted when the input has no duplicates |
| MacOrder.InsertSorted | src/ble_cube.rs:123 | inserting into a sorted list gives a sorted list holding one more copy of the element |
| MacOrder.InsertSortedStrict | src/ble_cube.rs:123 | inserting a new element into a strictly sorted list keeps it strictly sorted |
| MacOrder.LexLessIrreflexive | src/ble_cube.rs:123 | no address sorts before itself |
| MacOrder.LexLessTransitive | src/ble_cube.rs:123 | the byte order is transitive |
| MacOrder.LexLessTotal | src/ble_cube.rs:123 | of two different addresses, one sorts before the other |
| Cube.BleCube.QueryRssi | src/ble_cube.rs:130-135 | exactly the ids with this RSSI, resolved in insertion order: only records with this RSSI, and every one of them |
| Cube.BleCube.QueryRssiRange | src/ble_cube.rs:138-143 | the ids of `KeyOrdered` over [min, max], resolved: only records with min <= rssi <= max, every such record, by ascending RSSI and in insertion order within one RSSI (requires min <= max, where `range` would panic) |
| Cube.BleCube.QueryRssiGt | src/ble_cube.rs:146-151 | only and all records with rssi > threshold, by ascending RSSI then insertion order; empty at threshold 127 (corrected member, see Findings) |
| Cube.BleCube.QueryRssiGtWrapping | src/ble_cube.rs:146-151 | the scan as written with an `i8` wrap of `threshold + 1`; it agrees with `QueryRssiGt` below 127 |
| Cube.BleCube.RssiGtWrapsAtMax | src/ble_cube.rs:148 | at threshold 127 the wrapping scan returns every record, while the corrected query returns none |
| Cube.BleCube.QueryRssiGte | src/ble_cube.rs:154-159 | only and all records with rssi >= threshold, by ascending RSSI then insertion order |
| Cube.BleCube.QueryRssiLt | src/ble_cube.rs:162-167 | only and all records with rssi < threshold (the end is excluded), by ascending RSSI then insertion order; empty at -128 |
| Cube.BleCube.QueryRssiLte | src/ble_cube.rs:170-175 | only and all records with rssi <= threshold, by ascending RSSI then insertion order |
| Cube.BleCube.QueryTimestamp | src/ble_cube.rs:180-185 | exactly the ids with this timestamp, resolved in insertion order: only records with this timestamp, and every one of them |
| Cube.BleCube.QueryTimeRange | src/ble_cube.rs:188-193 | only and all records with start <= timestamp <= end, by ascending timestamp then insertion order (requires start <= end, where `range` would panic) |
| Cube.BleCube.QueryTimeAfter | src/ble_cube.rs:196-201 | only and all records with timestamp > the argument, by ascending timestamp then insertion order; empty at `i64::MAX` (corrected member, see Findings) |
| Cube.BleCube.QueryTimeAfterWrapping | src/ble_cube.rs:196-201 | the scan as written with an `i64` wrap of `timestamp + 1`; it agrees with `QueryTimeAfter` below `i64::MAX` |
| Cube.BleCube.TimeAfterWrapsAtMax | src/ble_cube.rs:198 | at `i64::MAX` the wrapping scan returns every record, while the corrected query returns none |
| Cube.BleCube.QueryTimeBefore | src/ble_cube.rs:204-209 | only and all records with timestamp < the argument, by ascending timestamp then insertion order; empty at `i64::MIN` |
| Cube.BleCube.QueryMulti | src/ble_cube.rs:284-336 | the result resolves exactly `MultiIds`: the ids passing every supplied filter, ascending; with no filter, every record in id order (each supplied range must be ordered, where `range` would panic) |
| Cube.MultiIdsMeaning | src/ble_cube.rs:284-336 | an id is in the conjunctive result if and only if its record passes every supplied filter; the ids ascend |
| Cube.BaseCandidates | src/ble_cube.rs:292-296 | the starting list, the MAC bucket (empty if the address is unknown) or `0..len`, is exactly the ascending ids passing the MAC filter |
| Cube.NarrowCandidates | src/ble_cube.rs:305 | a `retain` by a list holding exactly the ids passing the next filter narrows the candidates to that filter, in order |
| Cube.RssiStage | src/ble_cube.rs:299-306 | the RSSI step keeps exactly the candidates whose RSSI is in the range; omitted, it changes nothing |
| Cube.TimeStage | src/ble_cube.rs:309-316 | the timestamp step keeps exactly the candidates whose timestamp is in the range; omitted, it changes nothing |
| Cube.GeoStage | src/ble_cube.rs:319-330 | the geographic step keeps exactly the candidates among the geographic ids; omitted, it changes nothing |
| Cube.SkipStage | src/ble_cube.rs:299 | an omitted filter leaves the candidates unchanged |
| Cube.FinalCandidates | src/ble_cube.rs:332-335 | the survivors of the four steps are exactly the specification's ids |
| Cube.ResolveAll | src/ble_cube.rs:295 | resolving `0..len` gives every record in order |
| Cube.Scan | src/ble_cube.rs:139-142 | a range scan of an exact index resolves to exactly the ids of `KeyOrdered` (so only records whose key lies in the range), grouped by ascending key; it includes every record whose key lies in the range |
| Cube.Lookup | src/ble_cube.rs:131-134 | an exact-key lookup resolves to exactly the ids with that key: only records with that key, and all of them |
| Index.PushMeaning | src/ble_cube.rs:70-73 | `entry(k).or_insert_with(Vec::new).push(id)`: `k` becomes present, its bucket gains `id` at the end, and every other bucket is unchanged |
| Index.EmptyIsIndex | src/ble_cube.rs:43-51 | empty indices are exact for the empty store |
| Index.PushKeepsIndex | src/ble_cube.rs:65-85 | pushing the new id onto its key's bucket keeps an index exact for the grown store |
| Index.IndexPartitions | src/ble_cube.rs:65-85 | under an exact index each id below the length sits in the bucket of its own key; a bucket holds only ids of its key and of existing records; buckets are non-empty and strictly increasing |
| Index.PartitionIsIndex | src/ble_cube.rs:65-85 | conversely, that record-by-record invariant determines the index uniquely |
| Index.BucketIsIdsWithKey | src/ble_cube.rs:113-117 | under an exact index, the bucket of any key, present or not, is exactly the ids with that key |
| Index.KeysOfIndex | src/ble_cube.rs:122 | the keys of an exact index are exactly the keys the records carry |
| Index.IdsWithKeyMeaning | src/ble_cube.rs:69-85 | the ids with a key are exactly those of the records carrying it, strictly ascending |
| Index.IdsWithKeyAppend | src/ble_cube.rs:66-73 | appending a record adds its id at the end of its own key's ids and nowhere else |
| Index.IdsWithKeyNone | src/ble_cube.rs:117 | a key no record carries has no ids |
| Index.KeysInRange | src/ble_cube.rs:140 | the keys `range(lo..=hi)` visits: exactly the present keys within the bounds, strictly ascending |
| Index.GatherAppend | src/ble_cube.rs:141 | `flat_map` over a concatenation of key lists is the concatenation of the two |
| Index.RangeIdsMeetSpec | src/ble_cube.rs:139-141 | on an exact index, the ids `range(lo..=hi)` + `flat_map` yields are exactly `KeyOrdered`: by ascending key, then by id |
| Index.RangeIdsMembers | src/ble_cube.rs:300-305 | an id is in a range scan's id list if and only if its record's key lies in the range |
| Index.KeyOrderedMeaning | src/ble_cube.rs:138-143 | the specified ids are exactly those whose key lies in the range, grouped by key and ordered by id within a key |
| Index.KeyOrderedSplit | src/ble_cube.rs:138-143 | a range scan splits at any key inside the range |
| Index.KeyOrderedVacant | src/ble_cube.rs:138-143 | a range that no record's key falls in yields nothing |
| IdSeq.SelectMeaning | src/ble_cube.rs:295 | a selection holds exactly the ids passing the predicate, strictly ascending |
| IdSeq.SelectAppend | src/ble_cube.rs:66-67 | appending a record extends a selection by that record's id alone, if it passes |
| IdSeq.SelectNone | src/ble_cube.rs:117 | when no record passes, the selection is empty |
| IdSeq.HeadIsLeast | src/ble_cube.rs:305 | the first id of an ascending list is its least |
| IdSeq.IncreasingUnique | src/ble_cube.rs:305 | two ascending id lists with the same members are equal |
| IdSeq.Retain | src/ble_cube.rs:305 | `retain(\|id\| keep.contains(id))`: the survivors are exactly the ids in both lists, and never more than before |
| IdSeq.RetainIncreasing | src/ble_cube.rs:305 | `retain` keeps the candidates in their order: ascending in, ascending out |
| IdSeq.RetainAll | src/ble_cube.rs:305 | retaining by a list holding every candidate keeps them all |
| IdSeq.Resolve | src/ble_cube.rs:116 | `filter_map(\|&id\| records.get(id))`: never longer than the ids, only stored records, and one record per id when all ids are in range |
| IdSeq.ResolveCovers | src/ble_cube.rs:116 | when every id names a record, the record of each id is in the result |
| Observation.WrapI8 | src/ble_cube.rs:148 | `i8` two's-complement wrap: identity in range, and congruent modulo 256 |
| Observation.WrapI64 | src/ble_cube.rs:198 | `i64` two's-complement wrap: identity in range, and congruent modulo 2^64 |
| Scenarios.BasicInsertAndQuery | src/ble_cube.rs:388-407 | on a new cube the first insert returns id 0; the length is then 1; the address finds one record, with RSSI -65 |
| Scenarios.RssiRangeQuery | src/ble_cube.rs:409-438 | with RSSIs -50, -70, -90, the range [-80, -60] finds only the -70 record |
| Scenarios.RssiGteQuery | src/ble_cube.rs:409-441 | with RSSIs -50, -70, -90, `>= -70` finds two records, -70 then -50 |
| Scenarios.UnfilteredMulti | src/ble_cube.rs:292-296 | `query_multi` with every filter omitted returns all records in insertion order |
| Scenarios.MacAndRssiMulti | src/ble_cube.rs:292-306 | a MAC filter with an RSSI range keeps exactly the one record that passes both |

## Left out

- `query_geo_radius`, `query_geo_bbox`, `query_geo_polygon` and the `geo_index` R-tree (src/ble_cube.rs:215-278, 38, 88-91): they rest on an external R-tree crate and on floating-point envelopes, so the model keeps no geographic index.
- The unit test `test_geo_radius_query` (src/ble_cube.rs:443-472): it exercises only the geographic radius query, which the model leaves out.
- `haversine_distance` and `point_in_polygon` (src/ble_cube.rs:342-376): floating-point trigonometry and division.
- The geographic leg of `query_multi` (src/ble_cube.rs:319-330): the radius query and the mapping of its results back to ids by reference identity (`std::ptr::eq`) are replaced by a caller-supplied id list (`geoIds`).
- `with_capacity` (src/ble_cube.rs:54-62) and `Default` (src/ble_cube.rs:378-382): capacity hints only, the same empty cube as `new`.
- Cube.BleCube.Insert: ids are unbounded naturals, so the `usize` overflow of `records.len()` after 2^64 records is not modelled.
- Cube.BleCube.QueryMac and the other queries return records as values, not as references into `records`. Aliasing is not modelled, and reference identity cannot occur.
- Cube.BleCube.GetAllMacs: `sort` is modelled as an insertion sort on a sequence, not as an in-place sort of the vector. Only its result (sorted, a permutation) is claimed.
- Cube.CollectKeys: the hash map's iteration order is left unspecified. The chosen key order is arbitrary, and only the sorted result matters.
- Hash-map hashing and the B-tree structure are modelled as Dafny maps with an ascending walk over the integer keys.
- The latitude and longitude are kept as their 64-bit patterns. No floating-point arithmetic is modelled.
- Debug builds panic on the overflow the Findings table describes. That panic is not modelled as an outcome: the corrected members specify the intended empty result, and the wrapping members specify the release-build behaviour.
- The demo program `usage.rs` and the benchmark harness `benches/cube_bench.rs`: they only call the operations above.

## Findings

The doc comments at src/ble_cube.rs:145 ("Query RSSI greater than threshold") and src/ble_cube.rs:195 ("Query timestamps after (greater than) a point") promise the records strictly above the argument; at `i8::MAX` and `i64::MAX` there are none, so the evident result is empty. The code computes `threshold + 1` (and `timestamp + 1`) unchecked. The model keeps both: the code as written (release-build wrap-around) and the intended behaviour, which the rest of the model uses.

| source | as written | input that shows it | evidently intended | confidence | as-written member | corrected member |
|---|---|---|---|---|---|---|
| src/ble_cube.rs:148 | `range((threshold + 1)..=i8::MAX)`: `threshold + 1` is an unchecked `i8` addition | `query_rssi_gt(127)` on a non-empty cube. It panics in a debug build. In a release build it wraps to -128 and returns every record, although no RSSI exceeds 127 | no record is greater than 127, so the result is empty | not executed | Cube.BleCube.QueryRssiGtWrapping (counterexample: Cube.BleCube.RssiGtWrapsAtMax) | Cube.BleCube.QueryRssiGt |
| src/ble_cube.rs:198 | `range((timestamp + 1)..=i64::MAX)`: `timestamp + 1` is an unchecked `i64` addition | `query_time_after(i64::MAX)` on a non-empty cube. It panics in a debug build. In a release build it wraps to `i64::MIN` and returns every record | the result is empty | not executed | Cube.BleCube.QueryTimeAfterWrapping (counterexample: Cube.BleCube.TimeAfterWrapsAtMax) | Cube.BleCube.QueryTimeAfter |
