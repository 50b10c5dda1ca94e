/**
 * Sequences of record ids: the buckets of the indices, the candidate lists
 * of the conjunctive query, and their resolution back to records.
 */
module IdSeq {

  import opened Observation

  /** Ids in insertion order, each at most once. */
  ghost predicate StrictlyIncreasing(s: seq<nat>)
  {
    forall i, j :: 0 <= i < j < |s| ==> s[i] < s[j]
  }

  /** `r` holds exactly the records `ids` designate, one for one. */
  ghost predicate ListsRecords(r: seq<Obs>, records: seq<Obs>, ids: seq<nat>)
  {
    && |r| == |ids|
    && forall j :: 0 <= j < |ids| ==> ids[j] < |records| && r[j] == records[ids[j]]
  }

  /** The ids `i` of `records` with `p(i, records[i])`, in ascending order. */
  function Select(records: seq<Obs>, p: (nat, Obs) -> bool): seq<nat>
    decreases |records|
  {
    if records == [] then []
    else
      var n := |records| - 1;
      Select(records[..n], p) + (if p(n, records[n]) then [n] else [])
  }

  /** A selection lists each id that passes, only those, in ascending order. */
  lemma {:induction false} SelectMeaning(records: seq<Obs>, p: (nat, Obs) -> bool)
    ensures var r := Select(records, p);
      && (forall j :: 0 <= j < |r| ==> r[j] < |records| && p(r[j], records[r[j]]))
      && (forall i :: 0 <= i < |records| && p(i, records[i]) ==> i in r)
      && StrictlyIncreasing(r)
    decreases |records|
  {
    if records != [] {
      var n := |records| - 1;
      var prefix := records[..n];
      SelectMeaning(prefix, p);
      var front := Select(prefix, p);
      var tail := if p(n, records[n]) then [n] else [];
      var r := Select(records, p);
      assert r == front + tail;
      forall j | 0 <= j < |r| ensures r[j] < |records| && p(r[j], records[r[j]]) {
        if j < |front| {
          assert r[j] == front[j] && prefix[front[j]] == records[front[j]];
        } else {
          assert r[j] == n;
        }
      }
      forall i | 0 <= i < |records| && p(i, records[i]) ensures i in r {
        if i < n {
          assert prefix[i] == records[i];
          assert i in front;
        }
      }
      forall a, b | 0 <= a < b < |r| ensures r[a] < r[b] {
        if b >= |front| {
          assert r[b] == n && r[a] == front[a];
        }
      }
    }
  }

  /** Appending a record can only append its own id to a selection. */
  lemma SelectAppend(records: seq<Obs>, o: Obs, p: (nat, Obs) -> bool)
    ensures Select(records + [o], p)
         == Select(records, p) + (if p(|records|, o) then [|records|] else [])
  {
    assert (records + [o])[..|records|] == records;
  }

  /** A selection that no record passes is empty. */
  lemma {:induction false} SelectNone(records: seq<Obs>, p: (nat, Obs) -> bool)
    requires forall i :: 0 <= i < |records| ==> !p(i, records[i])
    ensures Select(records, p) == []
    decreases |records|
  {
    if records != [] {
      var n := |records| - 1;
      SelectNone(records[..n], p);
      assert !p(n, records[n]);
    }
  }

  /** In a strictly increasing sequence every later id is larger than the first. */
  lemma {:induction false} HeadIsLeast(s: seq<nat>)
    requires StrictlyIncreasing(s) && s != []
    ensures forall x :: x in s[1..] ==> s[0] < x
  {
    forall x | x in s[1..] ensures s[0] < x {
      var j :| 0 <= j < |s[1..]| && s[1..][j] == x;
      assert s[j + 1] == x;
    }
  }

  /** A strictly increasing sequence is determined by its elements. */
  lemma {:induction false} IncreasingUnique(a: seq<nat>, b: seq<nat>)
    requires StrictlyIncreasing(a) && StrictlyIncreasing(b)
    requires forall x :: x in a <==> x in b
    ensures a == b
    decreases |a|
  {
    if b != [] { assert b[0] in a; }
    if a != [] { assert a[0] in b; }
    if a != [] && b != [] {
      HeadIsLeast(a);
      HeadIsLeast(b);
      assert a[0] in b && b[0] in a;
      assert a[0] == b[0];
      forall x ensures x in a[1..] <==> x in b[1..] {
        assert x in a <==> x == a[0] || x in a[1..] by { assert a == [a[0]] + a[1..]; }
        assert x in b <==> x == b[0] || x in b[1..] by { assert b == [b[0]] + b[1..]; }
      }
      IncreasingUnique(a[1..], b[1..]);
      assert a == [a[0]] + a[1..] && b == [b[0]] + b[1..];
    }
  }

  /**
   * `Vec::retain(|id| keep.contains(id))`: the ids of `s` that occur in
   * `keep`, in the order of `s`.
   */
  function Retain(s: seq<nat>, keep: seq<nat>): (r: seq<nat>)
    ensures forall x :: x in r <==> x in s && x in keep
    ensures |r| <= |s|
  {
    if s == [] then []
    else
      assert forall x :: x in s <==> x == s[0] || x in s[1..] by { assert s == [s[0]] + s[1..]; }
      (if s[0] in keep then [s[0]] else []) + Retain(s[1..], keep)
  }

  /** Retaining keeps the candidates in their order: ascending input, ascending output. */
  lemma {:induction false} RetainIncreasing(s: seq<nat>, keep: seq<nat>)
    requires StrictlyIncreasing(s)
    ensures StrictlyIncreasing(Retain(s, keep))
  {
    if s != [] {
      var rest := Retain(s[1..], keep);
      RetainIncreasing(s[1..], keep);
      HeadIsLeast(s);
      var r := Retain(s, keep);
      if s[0] in keep {
        assert r == [s[0]] + rest;
        forall i, j | 0 <= i < j < |r| ensures r[i] < r[j] {
          assert r[j] == rest[j - 1] && rest[j - 1] in rest;
        }
      }
    }
  }

  /** Retaining with a list that holds every candidate keeps them all. */
  lemma {:induction false} RetainAll(s: seq<nat>, keep: seq<nat>)
    requires forall x :: x in s ==> x in keep
    ensures Retain(s, keep) == s
  {
    if s != [] {
      RetainAll(s[1..], keep);
    }
  }

  /** Resolving ids that all name records yields the record of each id. */
  lemma ResolveCovers(records: seq<Obs>, ids: seq<nat>)
    requires forall j :: 0 <= j < |ids| ==> ids[j] < |records|
    ensures forall j :: 0 <= j < |ids| ==> records[ids[j]] in Resolve(records, ids)
  {
    var r := Resolve(records, ids);
    assert ListsRecords(r, records, ids);
    forall j | 0 <= j < |ids| ensures records[ids[j]] in r {
      assert r[j] == records[ids[j]];
    }
  }

  /**
   * `ids.iter().filter_map(|&id| records.get(id))`: the designated records,
   * silently skipping ids past the end of the store.
   */
  function Resolve(records: seq<Obs>, ids: seq<nat>): (r: seq<Obs>)
    ensures |r| <= |ids|
    ensures forall j :: 0 <= j < |r| ==> r[j] in records
    ensures (forall j :: 0 <= j < |ids| ==> ids[j] < |records|) ==> ListsRecords(r, records, ids)
  {
    if ids == [] then []
    else (if ids[0] < |records| then [records[ids[0]]] else []) + Resolve(records, ids[1..])
  }

}
