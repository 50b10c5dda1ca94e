/**
 * The order of `get_all_macs`: Rust's lexicographic order on byte arrays,
 * and the sort that produces it.
 */
module MacOrder {

  import opened Observation

  /** Lexicographic order on bytes: the first differing byte decides; a proper prefix is smaller. */
  predicate LexLess(a: seq<Byte>, b: seq<Byte>)
    decreases |a|
  {
    if a == [] then b != []
    else if b == [] then false
    else a[0] < b[0] || (a[0] == b[0] && LexLess(a[1..], b[1..]))
  }

  lemma {:induction false} LexLessIrreflexive(a: seq<Byte>)
    ensures !LexLess(a, a)
    decreases |a|
  {
    if a != [] {
      LexLessIrreflexive(a[1..]);
    }
  }

  lemma {:induction false} LexLessTransitive(a: seq<Byte>, b: seq<Byte>, c: seq<Byte>)
    requires LexLess(a, b) && LexLess(b, c)
    ensures LexLess(a, c)
    decreases |a|
  {
    if a != [] && a[0] == b[0] && b[0] == c[0] {
      LexLessTransitive(a[1..], b[1..], c[1..]);
    }
  }

  lemma {:induction false} LexLessTotal(a: seq<Byte>, b: seq<Byte>)
    requires a != b
    ensures LexLess(a, b) || LexLess(b, a)
    decreases |a|
  {
    if a != [] && b != [] && a[0] == b[0] {
      assert a == [a[0]] + a[1..] && b == [b[0]] + b[1..];
      LexLessTotal(a[1..], b[1..]);
    }
  }

  /** No element is followed by a smaller one. */
  ghost predicate Sorted(s: seq<Mac>)
  {
    forall i, j :: 0 <= i < j < |s| ==> !LexLess(s[j], s[i])
  }

  /** Every element is smaller than each one after it; in particular no element repeats. */
  ghost predicate StrictlySorted(s: seq<Mac>)
  {
    forall i, j :: 0 <= i < j < |s| ==> LexLess(s[i], s[j])
  }

  ghost predicate Distinct(s: seq<Mac>)
  {
    forall i, j :: 0 <= i < j < |s| ==> s[i] != s[j]
  }

  /** `x` placed into sorted `s` after every element not greater than it. */
  function InsertSorted(s: seq<Mac>, x: Mac): (r: seq<Mac>)
    requires Sorted(s)
    ensures Sorted(r)
    ensures multiset(r) == multiset(s) + multiset{x}
    decreases |s|
  {
    if s == [] then [x]
    else if LexLess(x, s[0]) then
      var r := [x] + s;
      assert Sorted(r) by {
        forall a, b | 0 <= a < b < |r| ensures !LexLess(r[b], r[a]) {
          if a == 0 {
            assert r[b] == s[b - 1];
            assert !LexLess(s[b - 1], s[0]) by {
              if b == 1 { LexLessIrreflexive(s[0]); }
            }
            if LexLess(s[b - 1], x) {
              LexLessTransitive(s[b - 1], x, s[0]);
            }
          } else {
            assert r[a] == s[a - 1] && r[b] == s[b - 1];
          }
        }
      }
      r
    else
      assert s == [s[0]] + s[1..];
      var rest := InsertSorted(s[1..], x);
      assert Sorted([s[0]] + rest) by {
        forall j | 0 <= j < |rest| ensures !LexLess(rest[j], s[0]) {
          assert rest[j] in multiset(rest);
          if rest[j] != x {
            assert rest[j] in s[1..];
          }
        }
      }
      [s[0]] + rest
  }

  /** Inserting a new element into a strictly sorted sequence keeps it strictly sorted. */
  lemma {:induction false} InsertSortedStrict(s: seq<Mac>, x: Mac)
    requires StrictlySorted(s) && x !in s
    ensures Sorted(s) && StrictlySorted(InsertSorted(s, x))
    decreases |s|
  {
    forall i, j | 0 <= i < j < |s| ensures !LexLess(s[j], s[i]) {
      LexLessIrreflexive(s[i]);
      if LexLess(s[j], s[i]) {
        LexLessTransitive(s[i], s[j], s[i]);
      }
    }
    var r := InsertSorted(s, x);
    if s != [] {
      if LexLess(x, s[0]) {
        assert r == [x] + s;
        forall a, b | 0 <= a < b < |r| ensures LexLess(r[a], r[b]) {
          if a == 0 {
            assert r[b] == s[b - 1];
            if b > 1 { LexLessTransitive(x, s[0], s[b - 1]); }
          } else {
            assert r[a] == s[a - 1] && r[b] == s[b - 1];
          }
        }
      } else {
        LexLessTotal(x, s[0]);
        InsertSortedStrict(s[1..], x);
        var rest := InsertSorted(s[1..], x);
        forall j | 0 <= j < |rest| ensures LexLess(s[0], rest[j]) {
          assert rest[j] in multiset(rest);
          if rest[j] != x {
            assert rest[j] in s[1..];
          }
        }
      }
    }
  }

  /**
   * `slice::sort` on a list of addresses: a sorted permutation of its input,
   * strictly sorted when the input holds no address twice.
   */
  method SortMacs(keys: seq<Mac>) returns (sorted: seq<Mac>)
    ensures Sorted(sorted)
    ensures multiset(sorted) == multiset(keys)
    ensures Distinct(keys) ==> StrictlySorted(sorted)
  {
    sorted := [];
    for i := 0 to |keys|
      invariant Sorted(sorted)
      invariant multiset(sorted) == multiset(keys[..i])
      invariant Distinct(keys) ==> StrictlySorted(sorted)
    {
      assert keys[..i + 1] == keys[..i] + [keys[i]];
      if Distinct(keys) {
        assert keys[i] !in multiset(keys[..i]);
        InsertSortedStrict(sorted, keys[i]);
      }
      sorted := InsertSorted(sorted, keys[i]);
    }
    assert keys[..|keys|] == keys;
  }

}
