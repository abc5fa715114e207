/** How every snapshot is built (src/topology.cpp, src/capacity.cpp,
    src/signals.cpp, src/paths.cpp, src/traffic.cpp): sort by identity, then
    refuse at the first entry that is malformed or repeats its predecessor. */
module Building {
  import opened Base
  import opened Ordering

  /** Looks at an entry and the one before it in sorted order. */
  type Check<!T> = (Option<T>, T) -> Option<ErrorCode>

  function Before<T>(s: seq<T>, i: nat): Option<T>
    requires i < |s|
  {
    if i == 0 then None else Some(s[i - 1])
  }

  /** The first refusal from position i on. */
  function FirstError<T>(s: seq<T>, check: Check<T>, i: nat): (r: Option<ErrorCode>)
    requires i <= |s|
    ensures r.None? <==> forall j :: i <= j < |s| ==> check(Before(s, j), s[j]).None?
    decreases |s| - i
  {
    if i == |s| then None
    else
      var e := check(Before(s, i), s[i]);
      if e.Some? then e else FirstError(s, check, i + 1)
  }

  /** Sort, then check; the result is the sorted vector. */
  function BuildSorted<T>(raw: seq<T>, key: T -> int, check: Check<T>): (r: Result<seq<T>>)
    ensures r.Ok? ==> r.value == SortBy(raw, key)
  {
    var s := SortBy(raw, key);
    var e := FirstError(s, check, 0);
    if e.Some? then Err(e.value) else Ok(s)
  }

  /** A check that refuses an entry with its predecessor's key. */
  ghost predicate RefusesRepeats<T(!new)>(key: T -> int, check: Check<T>) {
    forall p: T, c: T :: key(p) == key(c) ==> check(Some(p), c).Some?
  }

  /** Built vectors are strictly sorted, every entry passed its check, and
      building them again changes nothing. */
  lemma BuildSortedMeaning<T(!new)>(raw: seq<T>, key: T -> int, check: Check<T>)
    requires RefusesRepeats(key, check) && BuildSorted(raw, key, check).Ok?
    ensures var s := BuildSorted(raw, key, check).value;
            && StrictBy(s, key) && multiset(s) == multiset(raw) && |s| == |raw|
            && (forall j :: 0 <= j < |s| ==> check(Before(s, j), s[j]).None?)
            && BuildSorted(s, key, check) == Ok(s)
  {
    var s := BuildSorted(raw, key, check).value;
    forall i | 0 < i < |s| ensures key(s[i]) != key(s[i - 1]) {
      assert check(Before(s, i), s[i]).None?;
    }
    AdjacentDistinctIsStrict(s, key);
    SortStrictIsIdentity(s, key);
  }
}
