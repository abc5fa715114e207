/** Region nesting (src/topology.cpp): the bounded walk that looks for parent
    cycles, and the chain from a region to its root. */
module Regions {
  import opened Base
  import opened Model
  import opened Ordering

  function RegionKey(r: Region): int { r.id }

  function FindRegion(rs: seq<Region>, id: U64): Option<nat> {
    if id == 0 then None else Find(rs, RegionKey, id)
  }

  predicate HasRegion(rs: seq<Region>, id: U64) { FindRegion(rs, id).Some? }

  /** The parent of a region; 0 above a root and for an unknown id. */
  function ParentOf(rs: seq<Region>, id: U64): U64 {
    var at := FindRegion(rs, id);
    if at.None? then 0 else rs[at.value].parent
  }

  /** The k-th ancestor, 0 once the walk has left the top. */
  function Ancestor(rs: seq<Region>, id: U64, k: nat): U64
    decreases k
  {
    if k == 0 then id else Ancestor(rs, ParentOf(rs, id), k - 1)
  }

  /** The parent relation has a cycle. */
  ghost predicate HasCycle(rs: seq<Region>) {
    exists id: U64, k: nat :: k > 0 && HasRegion(rs, id) && Ancestor(rs, id, k) == id
  }

  /** What the bounded walk reports: more steps than there are regions. */
  predicate WalkTooLong(rs: seq<Region>) {
    exists i :: 0 <= i < |rs| && Ancestor(rs, rs[i].id, |rs| + 1) != 0
  }

  lemma {:induction false} AncestorAdd(rs: seq<Region>, id: U64, m: nat, n: nat)
    ensures Ancestor(rs, id, m + n) == Ancestor(rs, Ancestor(rs, id, m), n)
    decreases m
  {
    hide ParentOf;
    if m == 0 {
    } else {
      AncestorAdd(rs, ParentOf(rs, id), m - 1, n);
    }
  }

  lemma {:induction false} AncestorOfNone(rs: seq<Region>, k: nat)
    ensures Ancestor(rs, 0, k) == 0
  {
    if k == 0 {
    } else {
      AncestorOfNone(rs, k - 1);
    }
  }

  /** Below a nonzero ancestor every ancestor is a known region. */
  lemma AncestorsKnown(rs: seq<Region>, id: U64, k: nat, n: nat)
    requires k < n && Ancestor(rs, id, n) != 0
    ensures HasRegion(rs, Ancestor(rs, id, k))
  {
    AncestorAdd(rs, id, k, n - k);
    var at := Ancestor(rs, id, k);
    if !HasRegion(rs, at) {
      AncestorOfNone(rs, n - k - 1);
    }
  }

  // ----- the pigeonhole behind the step bound ------------------------------------

  function Ids(rs: seq<Region>): (r: set<int>)
    ensures |r| <= |rs|
    ensures forall i :: 0 <= i < |rs| ==> rs[i].id in r
  {
    if |rs| == 0 then {} else Ids(rs[..|rs| - 1]) + {rs[|rs| - 1].id}
  }

  function Walk(rs: seq<Region>, id: U64, n: nat): (r: seq<U64>)
    ensures |r| == n && forall k :: 0 <= k < n ==> r[k] == Ancestor(rs, id, k)
  {
    seq(n, k requires k >= 0 => Ancestor(rs, id, k))
  }

  lemma RepeatIsCycle(rs: seq<Region>, id: U64, i: nat, j: nat)
    requires i < j && Ancestor(rs, id, i) == Ancestor(rs, id, j) && HasRegion(rs, Ancestor(rs, id, i))
    ensures HasCycle(rs)
  {
    hide Ancestor, FindRegion;
    AncestorAdd(rs, id, i, j - i);
    assert Ancestor(rs, Ancestor(rs, id, i), j - i) == Ancestor(rs, id, i);
  }

  /** A walk through more known regions than there are visits one twice. */
  lemma LongWalkRepeats(rs: seq<Region>, id: U64, n: nat)
    requires n > |rs| && forall k :: 0 <= k < n ==> HasRegion(rs, Ancestor(rs, id, k))
    ensures HasCycle(rs)
  {
    hide Ancestor, HasCycle;
    var walk := Walk(rs, id, n);
    if forall i, j :: 0 <= i < j < n ==> walk[i] != walk[j] {
      DistinctWithin(walk, Ids(rs));
    } else {
      var i, j :| 0 <= i < j < n && walk[i] == walk[j];
      RepeatIsCycle(rs, id, i, j);
    }
  }

  /** On a cycle the walk never leaves the top. */
  lemma {:induction false} CycleNeverEnds(rs: seq<Region>, id: U64, k: nat, n: nat)
    requires id != 0 && k > 0 && Ancestor(rs, id, k) == id
    ensures Ancestor(rs, id, n) != 0
    decreases n
  {
    hide Ancestor;
    if n < k {
      AncestorAdd(rs, id, n, k - n);
      AncestorOfNone(rs, k - n);
    } else {
      AncestorAdd(rs, id, k, n - k);
      CycleNeverEnds(rs, id, k, n - k);
    }
  }

  lemma TooLongIsCycle(rs: seq<Region>, id: U64)
    requires Ancestor(rs, id, |rs| + 1) != 0
    ensures HasCycle(rs)
  {
    hide Ancestor, FindRegion, HasCycle;
    var n := |rs| + 1;
    forall k | 0 <= k < n ensures HasRegion(rs, Ancestor(rs, id, k)) {
      AncestorsKnown(rs, id, k, n);
    }
    LongWalkRepeats(rs, id, n);
  }

  /** The bounded walk reports a cycle exactly when the parent relation has one. */
  lemma CycleCheckExact(rs: seq<Region>)
    ensures WalkTooLong(rs) <==> HasCycle(rs)
  {
    hide Ancestor;
    if WalkTooLong(rs) {
      var i :| 0 <= i < |rs| && Ancestor(rs, rs[i].id, |rs| + 1) != 0;
      TooLongIsCycle(rs, rs[i].id);
    }
    if HasCycle(rs) {
      var id: U64, k: nat :| k > 0 && HasRegion(rs, id) && Ancestor(rs, id, k) == id;
      CycleNeverEnds(rs, id, k, |rs| + 1);
      assert rs[FindRegion(rs, id).value].id == id;
    }
  }

  /** The walk itself: from each region up, counting steps. The ids have been
      checked to be nonzero and distinct by then. */
  method RegionsCyclic(rs: seq<Region>) returns (cyclic: bool)
    requires StrictBy(rs, RegionKey) && forall i :: 0 <= i < |rs| ==> rs[i].id != 0
    ensures cyclic <==> HasCycle(rs)
  {
    hide Ancestor, ParentOf, HasCycle;
    CycleCheckExact(rs);
    for i := 0 to |rs|
      invariant forall j :: 0 <= j < i ==> Ancestor(rs, rs[j].id, |rs| + 1) == 0
    {
      var cursor, steps := rs[i].parent, 0;
      ParentOfEntry(rs, i);
      while cursor != 0
        invariant steps <= |rs|
        invariant cursor == Ancestor(rs, rs[i].id, steps + 1)
        decreases |rs| - steps
      {
        steps := steps + 1;
        if steps > |rs| {
          return true;
        }
        AncestorAdd(rs, rs[i].id, steps, 1);
        AncestorOne(rs, cursor);
        cursor := ParentOf(rs, cursor);
      }
      AncestorAdd(rs, rs[i].id, steps + 1, |rs| - steps);
      AncestorOfNone(rs, |rs| - steps);
    }
    return false;
  }

  lemma AncestorOne(rs: seq<Region>, id: U64)
    ensures Ancestor(rs, id, 1) == ParentOf(rs, id)
  {
    assert Ancestor(rs, id, 1) == Ancestor(rs, ParentOf(rs, id), 0);
  }

  lemma ParentOfEntry(rs: seq<Region>, i: nat)
    requires StrictBy(rs, RegionKey) && i < |rs| && rs[i].id != 0
    ensures rs[i].parent == ParentOf(rs, rs[i].id) == Ancestor(rs, rs[i].id, 1)
  {
    assert RegionKey(rs[i]) == rs[i].id;
    AncestorOne(rs, rs[i].id);
  }

  // ----- chains ----------------------------------------------------------------------

  /** A region followed by its ancestors, nearest first, cut after limit. */
  function Chain(rs: seq<Region>, id: U64, limit: nat): (r: seq<U64>)
    ensures |r| <= limit
    decreases limit
  {
    if id == 0 || limit == 0 then [] else [id] + Chain(rs, ParentOf(rs, id), limit - 1)
  }

  lemma {:induction false} ChainIsWalk(rs: seq<Region>, id: U64, limit: nat)
    ensures var c := Chain(rs, id, limit);
            && (forall k :: 0 <= k < |c| ==> c[k] == Ancestor(rs, id, k) && c[k] != 0)
            && (|c| < limit ==> Ancestor(rs, id, |c|) == 0)
    decreases limit
  {
    hide ParentOf;
    if id != 0 && limit > 0 {
      ChainIsWalk(rs, ParentOf(rs, id), limit - 1);
    }
  }

  /** Every named parent exists, as the build checks. */
  predicate ParentsKnown(rs: seq<Region>) {
    forall i :: 0 <= i < |rs| ==> rs[i].parent == 0 || HasRegion(rs, rs[i].parent)
  }

  lemma {:induction false} NonzeroAncestorKnown(rs: seq<Region>, id: U64, k: nat)
    requires ParentsKnown(rs) && HasRegion(rs, id) && Ancestor(rs, id, k) != 0
    ensures HasRegion(rs, Ancestor(rs, id, k))
    decreases k
  {
    if k == 0 {
    } else {
      if ParentOf(rs, id) == 0 {
        AncestorOfNone(rs, k - 1);
      }
      NonzeroAncestorKnown(rs, ParentOf(rs, id), k - 1);
    }
  }

  lemma ChainNonempty(rs: seq<Region>, id: U64, limit: nat)
    requires id != 0 && limit > 0
    ensures Chain(rs, id, limit) != [] && Chain(rs, id, limit)[0] == id
  {
  }

  /** Without cycles the step bound never cuts a chain: it holds every
      ancestor up to a root, each once, and a root has been reached. */
  lemma ChainComplete(rs: seq<Region>, id: U64)
    requires id != 0 && HasRegion(rs, id) && ParentsKnown(rs) && !HasCycle(rs)
    ensures var c := Chain(rs, id, |rs| + 1);
            && 0 < |c| <= |rs| && c[0] == id
            && (forall k :: 0 <= k < |c| ==> c[k] == Ancestor(rs, id, k))
            && (forall k: nat :: k >= |c| ==> Ancestor(rs, id, k) == 0)
            && (forall i, j :: 0 <= i < j < |c| ==> c[i] != c[j])
  {
    hide Ancestor, FindRegion, HasCycle, Chain;
    var n := |rs| + 1;
    var c := Chain(rs, id, n);
    ChainIsWalk(rs, id, n);
    ChainNonempty(rs, id, n);
    forall k | 0 <= k < |c| ensures HasRegion(rs, Ancestor(rs, id, k)) {
      NonzeroAncestorKnown(rs, id, k);
    }
    if |c| == n {
      LongWalkRepeats(rs, id, n);
    }
    forall k: nat | k >= |c| ensures Ancestor(rs, id, k) == 0 {
      AncestorAdd(rs, id, |c|, k - |c|);
      AncestorOfNone(rs, k - |c|);
    }
    forall i, j | 0 <= i < j < |c| ensures c[i] != c[j] {
      if c[i] == c[j] {
        RepeatIsCycle(rs, id, i, j);
      }
    }
  }
}
