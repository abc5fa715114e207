/** SaturationTracker (src/detection.cpp): how long each resource has been
    continuously saturated. */
module SaturationHistory {
  import opened Base
  import opened Ordering

  datatype Entry = Entry(first: Millis, last: Millis, samples: U32)

  const NO_ENTRY := Entry(NO_TIME, NO_TIME, 0)

  type History = map<U64, Entry>

  // ----- one step, as a function of the history ------------------------------------

  function Carry(h: History, id: U64): Entry {
    if id !in h || h[id].last == NO_TIME then NO_ENTRY else h[id]
  }

  /** The entry of a resource saturated now. */
  function Continue(previous: Entry, now: Millis): Entry {
    if previous.samples == 0 then Entry(now, now, 1)
    else Entry(previous.first, now, if previous.samples == U32_MAX then U32_MAX else previous.samples + 1)
  }

  /** What one evaluation saw: it refused its evidence, or it found these
      resources saturated. */
  datatype Observation = Refused | Saw(now: Millis, ids: set<U64>)

  function Track(h: History, o: Observation): History {
    match o
    case Refused => map[]
    case Saw(now, ids) => map id | id in ids :: Continue(Carry(h, id), now)
  }

  function TrackAll(os: seq<Observation>): History {
    if |os| == 0 then map[] else Track(TrackAll(os[..|os| - 1]), os[|os| - 1])
  }

  // ----- the simple form: unbroken runs ------------------------------------------------

  predicate Saturated(o: Observation, id: U64) { o.Saw? && id in o.ids }

  /** How many of the latest observations, without a break, saw the resource. */
  function RunLength(os: seq<Observation>, id: U64): (n: nat)
    ensures n <= |os|
    ensures forall k :: |os| - n <= k < |os| ==> Saturated(os[k], id)
    ensures n < |os| ==> !Saturated(os[|os| - 1 - n], id)
  {
    if |os| == 0 || !Saturated(os[|os| - 1], id) then 0 else 1 + RunLength(os[..|os| - 1], id)
  }

  predicate Timed(os: seq<Observation>) {
    forall k :: 0 <= k < |os| && os[k].Saw? ==> os[k].now != NO_TIME
  }

  /** The entry a run of n observations ending now deserves. */
  function RunEntry(os: seq<Observation>, n: nat): Entry
    requires 0 < n <= |os| && os[|os| - n].Saw? && os[|os| - 1].Saw?
  {
    Entry(os[|os| - n].now, os[|os| - 1].now, Min(n, U32_MAX))
  }

  /** Over every run of evaluations the tracker holds exactly the resources
      saturated in the latest one, each with the start and the (capped) length
      of its unbroken run. */
  lemma {:induction false} TrackerHoldsRuns(os: seq<Observation>, id: U64)
    requires Timed(os)
    ensures id in TrackAll(os) <==> RunLength(os, id) > 0
    ensures id in TrackAll(os) ==> TrackAll(os)[id] == RunEntry(os, RunLength(os, id))
  {
    if |os| == 0 {
    } else {
      var init, last := os[..|os| - 1], os[|os| - 1];
      TrackerHoldsRuns(init, id);
      if Saturated(last, id) {
        var n := RunLength(init, id);
        if n > 0 {
          assert RunEntry(init, n).last != NO_TIME;
          assert Continue(Carry(TrackAll(init), id), last.now) == RunEntry(os, n + 1);
        }
      }
    }
  }

  /** The same without any assumption on time: an observation at no time at all is
      counted, and the next one starts over. */
  function Span(os: seq<Observation>, id: U64): (n: nat)
    ensures n <= |os|
    ensures n > 0 ==> os[|os| - n].Saw? && os[|os| - 1].Saw?
  {
    if |os| == 0 || !Saturated(os[|os| - 1], id) then 0
    else
      var n := Span(os[..|os| - 1], id);
      if n > 0 && os[|os| - 2].now == NO_TIME then 1 else n + 1
  }

  /** Over every sequence of observations whatsoever the tracker holds exactly the
      resources saturated in the latest one, with the start and length of the span
      since saturation began or time was last unknown. */
  lemma {:induction false} TrackerHoldsSpans(os: seq<Observation>, id: U64)
    ensures id in TrackAll(os) <==> Span(os, id) > 0
    ensures id in TrackAll(os) ==> TrackAll(os)[id] == RunEntry(os, Span(os, id))
  {
    if |os| == 0 {
    } else {
      var init, last := os[..|os| - 1], os[|os| - 1];
      TrackerHoldsSpans(init, id);
      if Saturated(last, id) {
        var n := Span(init, id);
        if n > 0 {
          assert RunEntry(init, n).last == os[|os| - 2].now;
        }
      }
    }
  }

  // ----- the class -----------------------------------------------------------------------

  type Pair = (U64, Entry)

  function PairKey(p: Pair): int { p.0 }

  ghost predicate Names(s: seq<Pair>, id: U64) { exists m :: 0 <= m < |s| && s[m].0 == id }

  /** std::unique by resource on the sorted vector. */
  function FirstOfEach(s: seq<Pair>): seq<Pair> {
    if |s| == 0 then []
    else
      var r := FirstOfEach(s[..|s| - 1]);
      if |s| > 1 && s[|s| - 2].0 == s[|s| - 1].0 then r else r + [s[|s| - 1]]
  }

  lemma {:induction false} FirstOfEachMembers(s: seq<Pair>)
    ensures forall m :: 0 <= m < |FirstOfEach(s)| ==> FirstOfEach(s)[m] in s
  {
    if |s| == 0 {
    } else {
      FirstOfEachMembers(s[..|s| - 1]);
      assert forall p :: p in s[..|s| - 1] ==> p in s;
    }
  }

  lemma {:induction false} FirstOfEachStrict(s: seq<Pair>)
    requires SortedBy(s, PairKey)
    ensures StrictBy(FirstOfEach(s), PairKey)
  {
    if |s| == 0 {
    } else {
      var init, last := s[..|s| - 1], s[|s| - 1];
      FirstOfEachStrict(init);
      FirstOfEachMembers(init);
      var r := FirstOfEach(init);
      if |init| == 0 || init[|init| - 1].0 != last.0 {
        forall m | 0 <= m < |r| ensures PairKey(r[m]) < PairKey(last) {
          var k :| 0 <= k < |init| && init[k] == r[m];
          assert k == |init| - 1 || PairKey(s[k]) <= PairKey(s[|init| - 1]);
          assert PairKey(s[|init| - 1]) <= PairKey(s[|init|]);
        }
      }
    }
  }

  lemma {:induction false} FirstOfEachNames(s: seq<Pair>, k: nat)
    requires k < |s|
    ensures Names(FirstOfEach(s), s[k].0)
  {
    var init, r := s[..|s| - 1], FirstOfEach(s);
    if k == |s| - 1 && (k == 0 || s[k - 1].0 != s[k].0) {
      assert r[|r| - 1].0 == s[k].0;
    } else {
      var j := if k == |s| - 1 then k - 1 else k;
      FirstOfEachNames(init, j);
      var m :| 0 <= m < |FirstOfEach(init)| && FirstOfEach(init)[m].0 == init[j].0;
      assert r[m].0 == s[k].0;
    }
  }

  function ViewOf(entries: seq<Pair>): (h: History)
    ensures forall id :: id in h ==> (id, h[id]) in entries
    ensures forall k :: 0 <= k < |entries| ==> entries[k].0 in h
  {
    if |entries| == 0 then map[]
    else
      var last := entries[|entries| - 1];
      assert entries == entries[..|entries| - 1] + [last];
      ViewOf(entries[..|entries| - 1])[last.0 := last.1]
  }

  /** A history made of these pairs: one of the pairs for every id they name. */
  ghost predicate MadeOf(h: History, pairs: seq<Pair>) {
    && (forall id :: id in h ==> (id, h[id]) in pairs)
    && (forall k :: 0 <= k < |pairs| ==> pairs[k].0 in h)
  }

  class SaturationTracker {
    var entries: seq<Pair>

    ghost predicate Valid() reads this { StrictBy(entries, PairKey) }

    ghost function View(): History reads this { ViewOf(entries) }

    constructor ()
      ensures Valid() && View() == map[]
    {
      entries := [];
    }

    method Find(id: U64) returns (r: Option<Entry>)
      requires Valid()
      ensures r.Some? <==> id in View()
      ensures r.Some? ==> r.value == View()[id]
    {
      var at := Ordering.Find(entries, PairKey, id);
      if at.None? {
        NotInView(entries, id);
        return None;
      }
      EntryInView(entries, at.value);
      r := Some(entries[at.value].1);
    }

    /** History carried into an evaluation that finds id saturated. */
    method Carried(id: U64) returns (e: Entry)
      requires Valid()
      ensures e == Carry(View(), id)
    {
      var found := Find(id);
      e := if found.None? || found.value.last == NO_TIME then NO_ENTRY else found.value;
    }

    /** Sort, keep one entry per resource, swap in. */
    method Replace(next: seq<Pair>)
      modifies this
      ensures Valid() && MadeOf(View(), next)
    {
      var sorted := SortBy(next, PairKey);
      SortMembers(next, PairKey);
      FirstOfEachStrict(sorted);
      entries := FirstOfEach(sorted);
      ReplacementView(next, sorted);
    }

    method Clear()
      modifies this
      ensures Valid() && View() == map[]
    {
      entries := [];
    }
  }

  lemma ReplacementView(next: seq<Pair>, sorted: seq<Pair>)
    requires forall p :: p in sorted <==> p in next
    ensures MadeOf(ViewOf(FirstOfEach(sorted)), next)
  {
    hide ViewOf, FirstOfEach;
    var kept := FirstOfEach(sorted);
    var h := ViewOf(kept);
    FirstOfEachMembers(sorted);
    forall k | 0 <= k < |next| ensures next[k].0 in h {
      assert next[k] in sorted;
      var j :| 0 <= j < |sorted| && sorted[j] == next[k];
      FirstOfEachNames(sorted, j);
      var m :| 0 <= m < |kept| && kept[m].0 == sorted[j].0;
      assert kept[m].0 in h;
    }
  }

  lemma NotInView(entries: seq<Pair>, id: U64)
    requires forall k :: 0 <= k < |entries| ==> PairKey(entries[k]) != id
    ensures id !in ViewOf(entries)
  {
  }

  lemma {:induction false} EntryInView(entries: seq<Pair>, k: nat)
    requires StrictBy(entries, PairKey) && k < |entries|
    ensures entries[k].0 in ViewOf(entries) && ViewOf(entries)[entries[k].0] == entries[k].1
  {
    var init, last := entries[..|entries| - 1], entries[|entries| - 1];
    if k < |init| {
      EntryInView(init, k);
      assert PairKey(entries[k]) < PairKey(last);
    }
  }

  /** Replacing with one pair per saturated resource is one tracking step. */
  lemma ReplacementTracks(h: History, now: Millis, ids: set<U64>, pairs: seq<Pair>, next: History)
    requires forall k :: 0 <= k < |pairs| ==> pairs[k].0 in ids && pairs[k].1 == Continue(Carry(h, pairs[k].0), now)
    requires forall id :: id in ids ==> exists k :: 0 <= k < |pairs| && pairs[k].0 == id
    requires MadeOf(next, pairs)
    ensures next == Track(h, Saw(now, ids))
  {
    hide Carry, Continue;
    var target := Track(h, Saw(now, ids));
    forall id ensures id in next <==> id in target {
      if id in ids {
        var k :| 0 <= k < |pairs| && pairs[k].0 == id;
        assert pairs[k].0 in next;
      }
      if id in next {
        var k :| 0 <= k < |pairs| && pairs[k] == (id, next[id]);
      }
    }
    forall id | id in next ensures next[id] == target[id] {
      var k :| 0 <= k < |pairs| && pairs[k] == (id, next[id]);
    }
  }
}
