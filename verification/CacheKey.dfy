/** The canonical part of the coverage cache key, and duplicate-free id lists.

    The digest of the JSON payload is taken to be injective, so the key is the payload
    itself: the fields of `StableInputHash` with the checksums sorted. */
module CacheKey {
  import opened Shuffles

  // ---- sorting strings ----

  /** Lexicographic order of code points; checksums are hexadecimal. */
  predicate AtMost(a: string, b: string) {
    a == [] || (b != [] && (a[0] < b[0] || (a[0] == b[0] && AtMost(a[1..], b[1..]))))
  }

  lemma {:induction false} AtMostTotal(a: string, b: string)
    ensures AtMost(a, b) || AtMost(b, a)
  {
    if a != [] && b != [] && a[0] == b[0] {
      AtMostTotal(a[1..], b[1..]);
    }
  }

  lemma {:induction false} AtMostAntisymmetric(a: string, b: string)
    requires AtMost(a, b) && AtMost(b, a)
    ensures a == b
  {
    if a != [] {
      AtMostAntisymmetric(a[1..], b[1..]);
      assert a == [a[0]] + a[1..] && b == [b[0]] + b[1..];
    }
  }

  lemma {:induction false} AtMostTransitive(a: string, b: string, c: string)
    requires AtMost(a, b) && AtMost(b, c)
    ensures AtMost(a, c)
  {
    if a != [] && a[0] == b[0] == c[0] {
      AtMostTransitive(a[1..], b[1..], c[1..]);
    }
  }

  /** The first position at which the texts differ, or one of them ends. */
  predicate FirstDifference(a: string, b: string, k: nat) {
    k <= |a| && k <= |b| && a[..k] == b[..k] && (k == |a| || k == |b| || a[k] != b[k])
  }

  /** The order decides at the first difference: an ended text comes first, otherwise the
      smaller character. */
  lemma {:induction false} AtMostIsLexicographic(a: string, b: string, k: nat)
    requires FirstDifference(a, b, k)
    ensures AtMost(a, b) <==> k == |a| || (k < |b| && a[k] < b[k])
  {
    if k > 0 {
      assert a[0] == a[..k][0] == b[..k][0] == b[0];
      assert a[1..][..k - 1] == a[..k][1..] && b[1..][..k - 1] == b[..k][1..];
      AtMostIsLexicographic(a[1..], b[1..], k - 1);
    }
  }

  ghost predicate Ascending(s: seq<string>) {
    forall i, j :: 0 <= i < j < |s| ==> AtMost(s[i], s[j])
  }

  function Insert(x: string, s: seq<string>): (r: seq<string>)
    ensures multiset(r) == multiset([x] + s)
  {
    if s == [] || AtMost(x, s[0]) then [x] + s
    else
      assert s == [s[0]] + s[1..];
      [s[0]] + Insert(x, s[1..])
  }

  /** `sort.Strings` on a copy. */
  function Sorted(s: seq<string>): (r: seq<string>)
    ensures multiset(r) == multiset(s)
  {
    if s == [] then []
    else
      assert s == [s[0]] + s[1..];
      Insert(s[0], Sorted(s[1..]))
  }

  lemma {:induction false} InsertAscends(x: string, s: seq<string>)
    requires Ascending(s)
    ensures Ascending(Insert(x, s))
  {
    if s == [] {
    } else if AtMost(x, s[0]) {
      forall j | 0 <= j < |s|
        ensures AtMost(x, s[j])
      {
        if j > 0 {
          AtMostTransitive(x, s[0], s[j]);
        }
      }
    } else {
      AtMostTotal(x, s[0]);
      InsertAscends(x, s[1..]);
      forall y | y in Insert(x, s[1..])
        ensures AtMost(s[0], y)
      {
        SameMembers(Insert(x, s[1..]), [x] + s[1..], y);
        if y != x {
          var k :| 0 <= k < |s[1..]| && s[1..][k] == y;
          assert s[1 + k] == y;
        }
      }
      PrependAscends(s[0], Insert(x, s[1..]));
    }
  }

  lemma PrependAscends(x: string, s: seq<string>)
    requires Ascending(s) && forall y :: y in s ==> AtMost(x, y)
    ensures Ascending([x] + s)
  {
  }

  lemma SameMembers<T>(a: seq<T>, b: seq<T>, x: T)
    requires multiset(a) == multiset(b)
    ensures x in a <==> x in b
  {
    assert x in a <==> x in multiset(a);
    assert x in b <==> x in multiset(b);
  }

  lemma {:induction false} SortedAscends(s: seq<string>)
    ensures Ascending(Sorted(s))
  {
    if s != [] {
      SortedAscends(s[1..]);
      InsertAscends(s[0], Sorted(s[1..]));
    }
  }

  // The least element of an ascending sequence is its first.
  lemma FirstIsLeast(s: seq<string>, x: string)
    requires Ascending(s) && x in s
    ensures AtMost(s[0], x)
  {
    AtMostTotal(x, x);
  }

  lemma TailsShuffle<T>(x: T, a: seq<T>, b: seq<T>)
    requires multiset([x] + a) == multiset([x] + b)
    ensures multiset(a) == multiset(b)
  {
    ConcatAsMultiset([x], a);
    ConcatAsMultiset([x], b);
    forall e
      ensures multiset(a)[e] == multiset(b)[e]
    {
      assert (multiset([x]) + multiset(a))[e] == (multiset([x]) + multiset(b))[e];
    }
  }

  lemma {:induction false} AscendingIsCanonical(a: seq<string>, b: seq<string>)
    requires Ascending(a) && Ascending(b) && multiset(a) == multiset(b)
    ensures a == b
  {
    if a == [] {
      ShuffleOfEmpty(b);
    } else if b == [] {
      ShuffleOfEmpty(a);
    } else {
      SameMembers(a, b, a[0]);
      SameMembers(a, b, b[0]);
      FirstIsLeast(a, b[0]);
      FirstIsLeast(b, a[0]);
      AtMostAntisymmetric(a[0], b[0]);
      assert a == [a[0]] + a[1..] && b == [a[0]] + b[1..];
      TailsShuffle(a[0], a[1..], b[1..]);
      AscendingIsCanonical(a[1..], b[1..]);
    }
  }

  // ---- the key ----

  datatype Key = Key(areaId: nat, crs: string, algorithm: string, checksums: seq<string>, resolution: real)

  /** The payload that `StableInputHash` digests. */
  function StableInput(areaId: nat, crs: string, algorithm: string, checksums: seq<string>, resolution: real): Key {
    Key(areaId, crs, algorithm, Sorted(checksums), resolution)
  }

  /** Two inputs share a key exactly when every field agrees and the checksums agree as
      multisets. */
  lemma KeyIsCanonical(
      areaId: nat, crs: string, algorithm: string, checksums: seq<string>, resolution: real,
      areaId': nat, crs': string, algorithm': string, checksums': seq<string>, resolution': real)
    ensures StableInput(areaId, crs, algorithm, checksums, resolution)
            == StableInput(areaId', crs', algorithm', checksums', resolution')
            <==> areaId == areaId' && crs == crs' && algorithm == algorithm' && resolution == resolution'
                 && multiset(checksums) == multiset(checksums')
  {
    if multiset(checksums) == multiset(checksums') {
      SortedAscends(checksums);
      SortedAscends(checksums');
      AscendingIsCanonical(Sorted(checksums), Sorted(checksums'));
    }
  }

  // ---- duplicate-free ids ----

  ghost predicate NoDuplicates<T>(s: seq<T>) {
    forall i, j :: 0 <= i < j < |s| ==> s[i] != s[j]
  }

  function FirstIndex(values: seq<nat>, x: nat): (k: nat)
    requires x in values
    ensures k < |values| && values[k] == x && x !in values[..k]
  {
    if values[0] == x then 0
    else
      assert values == [values[0]] + values[1..];
      assert values[..1 + FirstIndex(values[1..], x)] == [values[0]] + values[1..][..FirstIndex(values[1..], x)];
      1 + FirstIndex(values[1..], x)
  }

  /** The same ids once each, in the order of their first occurrences. */
  ghost predicate IsUniqued(values: seq<nat>, result: seq<nat>) {
    && NoDuplicates(result)
    && (forall x :: x in values <==> x in result)
    && (forall i, j :: 0 <= i < j < |result| && result[i] in values && result[j] in values ==>
          FirstIndex(values, result[i]) < FirstIndex(values, result[j]))
  }

  lemma {:induction false} FirstIndexIs(values: seq<nat>, x: nat, k: nat)
    requires k < |values| && values[k] == x && x !in values[..k]
    ensures FirstIndex(values, x) == k
  {
    if k > 0 {
      assert values[0] in values[..k];
      assert values[1..][..k - 1] == values[..k][1..];
      FirstIndexIs(values[1..], x, k - 1);
    }
  }

  lemma FirstIndexExtends(values: seq<nat>, more: seq<nat>, x: nat)
    requires x in values
    ensures FirstIndex(values + more, x) == FirstIndex(values, x)
  {
    var k := FirstIndex(values, x);
    assert (values + more)[..k] == values[..k];
    FirstIndexIs(values + more, x, k);
  }

  lemma UniquedNext(values: seq<nat>, result: seq<nat>, x: nat)
    requires IsUniqued(values, result)
    ensures x in values ==> IsUniqued(values + [x], result)
    ensures x !in values ==> IsUniqued(values + [x], result + [x])
  {
    forall y | y in values
      ensures FirstIndex(values + [x], y) == FirstIndex(values, y)
    {
      FirstIndexExtends(values, [x], y);
    }
  }

  /** `uniqueIDs`. */
  method UniqueIds(values: seq<nat>) returns (result: seq<nat>)
    ensures IsUniqued(values, result)
  {
    var seen: set<nat> := {};
    result := [];
    for k := 0 to |values|
      invariant forall x :: x in seen <==> x in values[..k]
      invariant IsUniqued(values[..k], result)
    {
      UniquedNext(values[..k], result, values[k]);
      assert values[..k + 1] == values[..k] + [values[k]];
      if values[k] !in seen {
        seen := seen + {values[k]};
        result := result + [values[k]];
      }
    }
    assert values[..|values|] == values;
  }

  ghost function Members<T>(s: seq<T>): set<T> {
    set x | x in s
  }

  lemma {:induction false} MembersCounted<T>(s: seq<T>)
    ensures |Members(s)| <= |s|
    ensures NoDuplicates(s) ==> |Members(s)| == |s|
  {
    if s != [] {
      var n := |s| - 1;
      MembersCounted(s[..n]);
      assert s == s[..n] + [s[n]];
      assert Members(s) == Members(s[..n]) + {s[n]};
    }
  }

  /** Those three facts leave one possible result. */
  lemma UniquedIsUnique(values: seq<nat>, a: seq<nat>, b: seq<nat>)
    requires IsUniqued(values, a) && IsUniqued(values, b)
    ensures a == b
  {
    MembersCounted(a);
    MembersCounted(b);
    assert Members(a) == Members(b);
    forall k | 0 <= k < |a|
      ensures a[k] == b[k]
    {
      SameAt(values, a, b, k);
    }
  }

  lemma {:induction false} SameAt(values: seq<nat>, a: seq<nat>, b: seq<nat>, k: nat)
    requires IsUniqued(values, a) && IsUniqued(values, b) && k < |a| && k < |b|
    ensures a[k] == b[k]
  {
    hide FirstIndex;
    forall j | 0 <= j < k
      ensures a[j] == b[j]
    {
      SameAt(values, a, b, j);
    }
    assert a[k] in values && b[k] in values;
    var i :| 0 <= i < |b| && b[i] == a[k];
    var j :| 0 <= j < |a| && a[j] == b[k];
    assert forall m :: 0 <= m < k ==> b[m] == a[m] && a[m] != a[k] && b[m] != b[k];
    assert i >= k && j >= k;
    OrderKept(values, b, k, i);
    OrderKept(values, a, k, j);
    SameFirstIndex(values, a[k], b[k]);
  }

  lemma OrderKept(values: seq<nat>, result: seq<nat>, i: nat, j: nat)
    requires IsUniqued(values, result) && i <= j < |result|
    ensures result[i] in values && result[j] in values
    ensures FirstIndex(values, result[i]) <= FirstIndex(values, result[j])
  {
  }

  lemma SameFirstIndex(values: seq<nat>, x: nat, y: nat)
    requires x in values && y in values && FirstIndex(values, x) == FirstIndex(values, y)
    ensures x == y
  {
  }
}
