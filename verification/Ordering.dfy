/** The standard-library algorithms every snapshot is built with: sorting by a
    key, dropping adjacent repetitions and searching a sorted vector. */
module Ordering {
  import opened Base

  predicate SortedBy<T>(s: seq<T>, key: T -> int) {
    forall i, j :: 0 <= i < j < |s| ==> key(s[i]) <= key(s[j])
  }

  predicate StrictBy<T>(s: seq<T>, key: T -> int) {
    forall i, j :: 0 <= i < j < |s| ==> key(s[i]) < key(s[j])
  }

  /** What the build routines look at: neighbours in the sorted vector. */
  predicate NoAdjacentEqual<T>(s: seq<T>, key: T -> int) {
    forall i :: 0 < i < |s| ==> key(s[i]) != key(s[i - 1])
  }

  /** In a sorted vector, comparing neighbours finds every repeated key. */
  lemma AdjacentDistinctIsStrict<T>(s: seq<T>, key: T -> int)
    requires SortedBy(s, key)
    ensures NoAdjacentEqual(s, key) <==> StrictBy(s, key)
  {
    if NoAdjacentEqual(s, key) {
      forall i, j | 0 <= i < j < |s| ensures key(s[i]) < key(s[j]) {
        assert key(s[j - 1]) < key(s[j]);
        assert i < j - 1 ==> key(s[i]) <= key(s[j - 1]);
      }
    } else {
      var i :| 0 < i < |s| && key(s[i]) == key(s[i - 1]);
      assert !(key(s[i - 1]) < key(s[i]));
    }
  }

  lemma ConsSorted<T>(h: T, rest: seq<T>, key: T -> int)
    requires SortedBy(rest, key)
    requires forall x :: x in multiset(rest) ==> key(h) <= key(x)
    ensures SortedBy([h] + rest, key)
  {
    forall j | 0 <= j < |rest| ensures key(h) <= key(rest[j]) {
      assert rest[j] in multiset(rest);
    }
  }

  function InsertBy<T>(x: T, s: seq<T>, key: T -> int): (r: seq<T>)
    ensures |r| == |s| + 1
    ensures multiset(r) == multiset(s) + multiset{x}
  {
    if |s| == 0 then [x]
    else if key(x) <= key(s[0]) then [x] + s
    else
      assert s == [s[0]] + s[1..];
      [s[0]] + InsertBy(x, s[1..], key)
  }

  lemma {:induction false} InsertSorted<T>(x: T, s: seq<T>, key: T -> int)
    requires SortedBy(s, key)
    ensures SortedBy(InsertBy(x, s, key), key)
  {
    if |s| > 0 && key(s[0]) < key(x) {
      var rest := InsertBy(x, s[1..], key);
      InsertSorted(x, s[1..], key);
      assert s == [s[0]] + s[1..];
      ConsSorted(s[0], rest, key);
    }
  }

  function SortBy<T>(s: seq<T>, key: T -> int): (r: seq<T>)
    ensures |r| == |s|
    ensures multiset(r) == multiset(s)
    ensures SortedBy(r, key)
  {
    if |s| == 0 then []
    else
      assert s == [s[0]] + s[1..];
      InsertSorted(s[0], SortBy(s[1..], key), key);
      InsertBy(s[0], SortBy(s[1..], key), key)
  }

  lemma SortMembers<T>(s: seq<T>, key: T -> int)
    ensures forall x :: x in SortBy(s, key) <==> x in s
  {
    var r := SortBy(s, key);
    forall x ensures x in r <==> x in s {
      assert x in r <==> x in multiset(r);
      assert x in s <==> x in multiset(s);
    }
  }

  lemma InsertSmallest<T>(x: T, t: seq<T>, key: T -> int)
    requires |t| > 0 ==> key(x) <= key(t[0])
    ensures InsertBy(x, t, key) == [x] + t
  {
  }

  /** Sorting what is already strictly sorted changes nothing. */
  lemma {:induction false} SortStrictIsIdentity<T>(s: seq<T>, key: T -> int)
    requires StrictBy(s, key)
    ensures SortBy(s, key) == s
  {
    if |s| == 0 {
    } else {
      var t := s[1..];
      assert StrictBy(t, key);
      SortStrictIsIdentity(t, key);
      InsertSmallest(s[0], t, key);
      assert s == [s[0]] + t;
    }
  }

  // ----- plain ids ----------------------------------------------------------

  function Identity(x: int): int { x }

  predicate Ascending(s: seq<int>) {
    forall i, j :: 0 <= i < j < |s| ==> s[i] < s[j]
  }

  function Sort(s: seq<int>): (r: seq<int>)
    ensures |r| == |s|
    ensures multiset(r) == multiset(s)
    ensures forall i, j :: 0 <= i < j < |r| ==> r[i] <= r[j]
    ensures forall x :: x in r <==> x in s
  {
    SortMembers(s, Identity);
    var r := SortBy(s, Identity);
    assert forall i, j :: 0 <= i < j < |r| ==> Identity(r[i]) <= Identity(r[j]);
    r
  }

  lemma SortAscendingIsIdentity(s: seq<int>)
    requires Ascending(s)
    ensures Sort(s) == s
  {
    assert StrictBy(s, Identity);
    SortStrictIsIdentity(s, Identity);
  }

  /** Sorting identities. */
  function SortIds(s: seq<U64>): (r: seq<U64>)
    ensures r == Sort(s)
  {
    var r := Sort(s);
    assert forall k :: 0 <= k < |r| ==> r[k] in r;
    r
  }

  predicate Distinct(s: seq<int>) {
    forall i, j :: 0 <= i < j < |s| ==> s[i] != s[j]
  }

  lemma {:induction false} DistinctOnce(s: seq<int>, x: int)
    ensures Distinct(s) ==> multiset(s)[x] <= 1
    ensures multiset(s)[x] <= 1 || !Distinct(s)
  {
    if |s| == 0 {
    } else {
      var init := s[..|s| - 1];
      assert s == init + [s[|s| - 1]];
      DistinctOnce(init, x);
      assert Distinct(s) && x == s[|s| - 1] ==> x !in init;
    }
  }

  lemma RepeatCountsTwice<T>(r: seq<T>, i: nat, j: nat)
    requires i < j < |r| && r[i] == r[j]
    ensures multiset(r)[r[i]] >= 2
  {
    assert r == r[..j] + [r[j]] + r[j + 1..];
    assert r[..j][i] == r[i];
  }

  /** Sorting distinct ids leaves no equal neighbours. */
  lemma SortDistinctAscending(s: seq<int>)
    requires Distinct(s)
    ensures Ascending(Sort(s))
  {
    var r := Sort(s);
    forall i, j | 0 <= i < j < |r| ensures r[i] < r[j] {
      if r[i] == r[j] {
        RepeatCountsTwice(r, i, j);
        DistinctOnce(s, r[i]);
      }
    }
  }

  /** std::unique on a sorted vector. */
  function Unique(s: seq<int>): (r: seq<int>)
    requires forall i, j :: 0 <= i < j < |s| ==> s[i] <= s[j]
    ensures Ascending(r)
    ensures forall x :: x in r <==> x in s
    ensures |r| <= |s|
  {
    if |s| <= 1 then s
    else
      var rest := Unique(s[1..]);
      assert s == [s[0]] + s[1..];
      if s[0] == s[1] then rest
      else
        assert forall j :: 0 <= j < |rest| ==> s[0] < rest[j] by {
          forall j | 0 <= j < |rest| ensures s[0] < rest[j] {
            assert rest[j] in s[1..];
          }
        }
        [s[0]] + rest
  }

  lemma {:induction false} UniqueAscendingIsIdentity(s: seq<int>)
    requires Ascending(s)
    ensures Unique(s) == s
  {
    if |s| > 1 {
      UniqueAscendingIsIdentity(s[1..]);
      assert s == [s[0]] + s[1..];
    }
  }

  /** Sort, then unique. */
  function SortedUnique(s: seq<int>): (r: seq<int>)
    ensures Ascending(r)
    ensures forall x :: x in r <==> x in s
    ensures |r| <= |s|
  {
    Unique(Sort(s))
  }

  function UniqueIds(s: seq<U64>): (r: seq<U64>)
    ensures r == SortedUnique(s)
  {
    var r := SortedUnique(s);
    assert forall k :: 0 <= k < |r| ==> r[k] in r;
    r
  }

  /** An ascending vector is determined by its elements. */
  lemma {:induction false} AscendingDetermined(a: seq<int>, b: seq<int>)
    requires Ascending(a) && Ascending(b)
    requires forall x :: x in a <==> x in b
    ensures a == b
  {
    assert |b| > 0 ==> b[0] in b;
    if |a| == 0 {
    } else {
      assert a[0] in a && a[0] in b;
      assert b[0] in b && b[0] in a;
      assert a == [a[0]] + a[1..] && b == [b[0]] + b[1..];
      assert forall x :: x in a[1..] <==> x in a && x != a[0];
      assert forall x :: x in b[1..] <==> x in b && x != b[0];
      AscendingDetermined(a[1..], b[1..]);
    }
  }

  /** Ascending vectors have as many entries as distinct elements. */
  lemma {:induction false} AscendingCardinality(a: seq<int>)
    requires Ascending(a)
    ensures |a| == |set x | x in a|
  {
    var all := set x | x in a;
    if |a| == 0 {
      assert all == {};
    } else {
      var init := a[..|a| - 1];
      AscendingCardinality(init);
      assert a == init + [a[|a| - 1]];
      assert all == (set x | x in init) + {a[|a| - 1]};
    }
  }

  function Elements(s: seq<nat>): set<nat> { set x | x in s }

  /** Distinct values from a set are no more than its elements. */
  lemma {:induction false} DistinctWithin(s: seq<int>, all: set<int>)
    requires Distinct(s) && forall k :: 0 <= k < |s| ==> s[k] in all
    ensures |s| <= |all|
  {
    if |s| == 0 {
    } else {
      DistinctWithin(s[..|s| - 1], all - {s[|s| - 1]});
    }
  }

  ghost function Below(n: nat): (r: set<int>)
    ensures |r| == n && forall i :: i in r <==> 0 <= i < n
  {
    if n == 0 then {} else Below(n - 1) + {n - 1}
  }

  lemma DistinctBelow(s: seq<nat>, n: nat)
    requires Distinct(s) && forall k :: 0 <= k < |s| ==> s[k] < n
    ensures |s| <= n
  {
    DistinctWithin(s, Below(n));
  }

  /** std::lower_bound: the first position whose key is not below k. */
  function LowerBound<T>(s: seq<T>, key: T -> int, k: int): (i: nat)
    ensures i <= |s|
    ensures forall j :: 0 <= j < i ==> key(s[j]) < k
    ensures i < |s| ==> k <= key(s[i])
  {
    if |s| == 0 || k <= key(s[0]) then 0 else 1 + LowerBound(s[1..], key, k)
  }

  /** The sorted-vector lookup: lower_bound followed by an equality test. */
  function Find<T>(s: seq<T>, key: T -> int, k: int): (r: Option<nat>)
    ensures r.Some? ==> r.value < |s| && key(s[r.value]) == k
    ensures StrictBy(s, key) ==> (r.Some? <==> exists i :: 0 <= i < |s| && key(s[i]) == k)
    ensures StrictBy(s, key) ==> forall i :: 0 <= i < |s| && key(s[i]) == k ==> r == Some(i)
  {
    var i := LowerBound(s, key, k);
    if i == |s| || key(s[i]) != k then None else Some(i)
  }
}
