/** references_resolve (src/detection.cpp): does evidence name only resources
    the topology defines? */
module References {
  import opened Base
  import opened Model
  import opened Ordering
  import opened Snapshots
  import opened TopologyIndex

  predicate Defines(rs: seq<Resource>, id: int) { exists i :: 0 <= i < |rs| && rs[i].id == id }

  /** Every record's resource is one of the topology's. */
  predicate Resolves<T>(rs: seq<Resource>, records: seq<T>, key: T -> int) {
    forall k :: 0 <= k < |records| ==> Defines(rs, key(records[k]))
  }

  predicate CapacityResolves(c: TopologyContent, es: seq<CapacityEntry>) { Resolves(c.resources, es, CapacityKey) }

  predicate SignalsResolve(c: TopologyContent, ss: seq<SignalRecord>) { Resolves(c.resources, ss, SignalKey) }

  predicate PathsResolve(c: TopologyContent, ps: seq<PathRecord>) {
    forall p, h :: 0 <= p < |ps| && 0 <= h < |ps[p].hops| ==> HasResource(c.resources, ps[p].hops[h])
  }

  /** The linear merge used for capacity and for signals: both sides are sorted
      by resource, so one cursor that never moves back decides it. */
  method MergeResolves<T>(rs: seq<Resource>, records: seq<T>, key: T -> int) returns (ok: bool)
    requires StrictBy(rs, ResourceKey) && SortedBy(records, key)
    ensures ok <==> Resolves(rs, records, key)
  {
    var cursor := 0;
    for k := 0 to |records|
      invariant 0 <= cursor <= |rs|
      invariant forall i :: 0 <= i < cursor && k < |records| ==> ResourceKey(rs[i]) < key(records[k])
      invariant Resolves(rs, records[..k], key)
    {
      while cursor < |rs| && rs[cursor].id < key(records[k])
        invariant 0 <= cursor <= |rs|
        invariant forall i :: 0 <= i < cursor ==> ResourceKey(rs[i]) < key(records[k])
      {
        cursor := cursor + 1;
      }
      if cursor == |rs| || rs[cursor].id != key(records[k]) {
        forall i | 0 <= i < |rs| ensures rs[i].id != key(records[k]) {
          assert i < cursor ==> ResourceKey(rs[i]) < key(records[k]);
          assert cursor < i ==> ResourceKey(rs[cursor]) < ResourceKey(rs[i]);
        }
        assert !Defines(rs, key(records[k]));
        return false;
      }
      assert k + 1 < |records| ==> key(records[k]) <= key(records[k + 1]);
    }
    assert records[..|records|] == records;
    ok := true;
  }

  method PathReferencesResolve(c: TopologyContent, ps: seq<PathRecord>) returns (ok: bool)
    ensures ok <==> PathsResolve(c, ps)
  {
    hide HasResource;
    for p := 0 to |ps|
      invariant PathsResolve(c, ps[..p])
    {
      for h := 0 to |ps[p].hops|
        invariant forall j :: 0 <= j < h ==> HasResource(c.resources, ps[p].hops[j])
      {
        if !HasResource(c.resources, ps[p].hops[h]) {
          return false;
        }
      }
    }
    assert ps[..|ps|] == ps;
    ok := true;
  }
}
