/** The authority vector (src/authority.cpp): findings per domain, any denial
    final, until sealing keeps only the last finding of each domain. */
module Authority {
  import opened Base
  import opened Ordering

  const DOMAINS: nat := 12
  const MAX_GRANTS: nat := 32

  type Domain = d: nat | d < 12

  datatype Grant = Grant(domain: Domain, granted: bool)

  function DomainKey(g: Grant): int { g.domain }

  /** granted(): some finding, and no denial. */
  predicate Granted(gs: seq<Grant>, d: Domain) {
    Grant(d, true) in gs && Grant(d, false) !in gs
  }

  /** The last finding of a domain. */
  function LastFinding(gs: seq<Grant>, d: Domain): Option<bool> {
    if |gs| == 0 then None
    else if gs[|gs| - 1].domain == d then Some(gs[|gs| - 1].granted)
    else LastFinding(gs[..|gs| - 1], d)
  }

  lemma {:induction false} LastAfterFirst(x: Grant, gs: seq<Grant>, d: Domain)
    ensures LastFinding([x] + gs, d)
            == if LastFinding(gs, d).Some? then LastFinding(gs, d) else if x.domain == d then Some(x.granted) else None
  {
    if |gs| == 0 {
      assert [x] + gs == [x];
      assert LastFinding([x][..0], d) == None;
    } else {
      LastAfterFirst(x, gs[..|gs| - 1], d);
      assert ([x] + gs)[..|gs|] == [x] + gs[..|gs| - 1];
    }
  }

  lemma {:induction false} InsertKeepsLast(x: Grant, gs: seq<Grant>, d: Domain)
    ensures LastFinding(InsertBy(x, gs, DomainKey), d) == LastFinding([x] + gs, d)
  {
    if |gs| == 0 {
      assert [x] + gs == [x];
    } else if DomainKey(gs[0]) < DomainKey(x) {
      var rest := gs[1..];
      InsertKeepsLast(x, rest, d);
      LastAfterFirst(gs[0], InsertBy(x, rest, DomainKey), d);
      LastAfterFirst(x, rest, d);
      LastAfterFirst(gs[0], rest, d);
      LastAfterFirst(x, gs, d);
      assert gs == [gs[0]] + rest;
    }
  }

  /** Sorting by domain is stable, so it keeps every domain's last finding. */
  lemma {:induction false} SortKeepsLast(gs: seq<Grant>, d: Domain)
    ensures LastFinding(SortBy(gs, DomainKey), d) == LastFinding(gs, d)
  {
    if |gs| == 0 {
    } else {
      var rest := gs[1..];
      SortKeepsLast(rest, d);
      InsertKeepsLast(gs[0], SortBy(rest, DomainKey), d);
      LastAfterFirst(gs[0], SortBy(rest, DomainKey), d);
      LastAfterFirst(gs[0], rest, d);
      assert gs == [gs[0]] + rest;
    }
  }

  lemma {:induction false} LastMember(gs: seq<Grant>, d: Domain)
    ensures LastFinding(gs, d).Some? ==> Grant(d, LastFinding(gs, d).value) in gs
    ensures LastFinding(gs, d).None? ==> Grant(d, true) !in gs && Grant(d, false) !in gs
  {
    if |gs| == 0 {
    } else {
      LastMember(gs[..|gs| - 1], d);
      assert gs == gs[..|gs| - 1] + [gs[|gs| - 1]];
    }
  }

  /** A sealed vector: one finding per domain, in domain order, each the last of
      its domain. */
  ghost predicate SealOf(gs: seq<Grant>, r: seq<Grant>) {
    StrictBy(r, DomainKey) && forall d: Domain :: LastFinding(r, d) == LastFinding(gs, d)
  }

  /** After sealing a domain is granted exactly when its last finding granted it. */
  lemma SealedGrants(gs: seq<Grant>, r: seq<Grant>, d: Domain)
    requires SealOf(gs, r)
    ensures Granted(r, d) <==> LastFinding(gs, d) == Some(true)
  {
    LastMember(r, d);
    assert OnePerDomain(r) by {
      assert forall i, j :: 0 <= i < j < |r| ==> DomainKey(r[i]) < DomainKey(r[j]);
    }
    if Grant(d, false) in r {
      var i :| 0 <= i < |r| && r[i] == Grant(d, false);
      OnlyEntryIsLast(r, i);
    }
  }

  /** Sealing leaves a domain's grant as it was exactly when the domain was not
      denied before a last finding that granted it. */
  lemma SealKeepsGrant(gs: seq<Grant>, r: seq<Grant>, d: Domain)
    requires SealOf(gs, r)
    ensures (Granted(r, d) <==> Granted(gs, d)) <==> !(Grant(d, false) in gs && LastFinding(gs, d) == Some(true))
  {
    SealedGrants(gs, r, d);
    LastMember(gs, d);
  }

  /** A denied domain that sealing grants. */
  lemma SealTurnsDenialIntoGrant(r: seq<Grant>)
    requires SealOf([Grant(10, false), Grant(10, true)], r)
    ensures !Granted([Grant(10, false), Grant(10, true)], 10) && Granted(r, 10)
  {
    SealedGrants([Grant(10, false), Grant(10, true)], r, 10);
  }

  // ----- the object ---------------------------------------------------------------------

  ghost predicate OnePerDomain(gs: seq<Grant>) {
    forall i, j :: 0 <= i < j < |gs| ==> gs[i].domain != gs[j].domain
  }

  lemma {:induction false} OnlyEntryIsLast(gs: seq<Grant>, i: nat)
    requires OnePerDomain(gs) && i < |gs|
    ensures LastFinding(gs, gs[i].domain) == Some(gs[i].granted)
  {
    if i < |gs| - 1 {
      OnlyEntryIsLast(gs[..|gs| - 1], i);
    }
  }

  lemma {:induction false} ReplaceLast(gs: seq<Grant>, i: nat, g: Grant, d: Domain)
    requires OnePerDomain(gs) && i < |gs| && gs[i].domain == g.domain
    ensures OnePerDomain(gs[i := g])
    ensures LastFinding(gs[i := g], d) == if d == g.domain then Some(g.granted) else LastFinding(gs, d)
  {
    var init := gs[..|gs| - 1];
    if i < |gs| - 1 {
      ReplaceLast(init, i, g, d);
      assert gs[i := g][..|gs| - 1] == init[i := g];
      assert gs[|gs| - 1].domain != g.domain;
    } else {
      assert gs[i := g][..|gs| - 1] == init;
    }
  }

  function DomainsOf(gs: seq<Grant>): (r: seq<nat>)
    ensures |r| == |gs| && forall i :: 0 <= i < |gs| ==> r[i] == gs[i].domain
  {
    seq(|gs|, i requires 0 <= i < |gs| => gs[i].domain)
  }

  class AuthorityVector {
    var grants: seq<Grant>

    constructor ()
      ensures grants == []
    {
      grants := [];
    }

    method Find(d: Domain, granted: bool)
      modifies this
      ensures grants == old(grants) + [Grant(d, granted)]
    {
      grants := grants + [Grant(d, granted)];
    }

    method IsGranted(d: Domain) returns (r: bool)
      ensures r == Granted(grants, d)
    {
      var seen := false;
      for k := 0 to |grants|
        invariant Grant(d, false) !in grants[..k]
        invariant seen <==> Grant(d, true) in grants[..k]
      {
        if grants[k].domain != d {
          continue;
        }
        if !grants[k].granted {
          return false;
        }
        seen := true;
      }
      assert grants[..|grants|] == grants;
      r := seen;
    }

    /** Sort, keep the last finding of each domain, sort again. */
    method Seal()
      modifies this
      ensures SealOf(old(grants), grants)
    {
      hide SortBy;
      var sorted := SortBy(grants, DomainKey);
      var deduped := KeepLast(sorted);
      grants := SortBy(deduped, DomainKey);
      SortedOnce(deduped);
      forall d: Domain ensures LastFinding(grants, d) == LastFinding(old(grants), d) {
        SortKeepsLast(old(grants), d);
        SortKeepsLast(deduped, d);
      }
    }
  }

  /** The replacing loop of seal. The bound on kept grants is never reached:
      there are fewer domains. */
  method KeepLast(gs: seq<Grant>) returns (kept: seq<Grant>)
    ensures OnePerDomain(kept)
    ensures forall d: Domain :: LastFinding(kept, d) == LastFinding(gs, d)
  {
    hide LastFinding;
    kept := [];
    assert gs[..0] == [];
    for k := 0 to |gs|
      invariant OnePerDomain(kept)
      invariant forall d: Domain :: LastFinding(kept, d) == LastFinding(gs[..k], d)
    {
      var g := gs[k];
      var at := 0;
      while at < |kept| && kept[at].domain != g.domain
        invariant at <= |kept|
        invariant forall j :: 0 <= j < at ==> kept[j].domain != g.domain
      {
        at := at + 1;
      }
      if at < |kept| {
        ReplacesFinding(gs[..k], kept, at, g);
        kept := kept[at := g];
      } else {
        DistinctBelow(DomainsOf(kept), DOMAINS);
        assert |kept| < MAX_GRANTS;
        AddsFinding(gs[..k], kept, g);
        kept := kept + [g];
      }
      assert gs[..k + 1] == gs[..k] + [g];
    }
    assert gs[..|gs|] == gs;
  }

  /** A finding in place of an earlier one of its domain. */
  lemma ReplacesFinding(read: seq<Grant>, kept: seq<Grant>, at: nat, g: Grant)
    requires OnePerDomain(kept) && at < |kept| && kept[at].domain == g.domain
    requires forall d: Domain :: LastFinding(kept, d) == LastFinding(read, d)
    ensures OnePerDomain(kept[at := g])
    ensures forall d: Domain :: LastFinding(kept[at := g], d) == LastFinding(read + [g], d)
  {
    assert (read + [g])[..|read|] == read;
    forall d: Domain ensures LastFinding(kept[at := g], d) == LastFinding(read + [g], d) {
      ReplaceLast(kept, at, g, d);
    }
    ReplaceLast(kept, at, g, g.domain);
  }

  /** The first finding of its domain. */
  lemma AddsFinding(read: seq<Grant>, kept: seq<Grant>, g: Grant)
    requires OnePerDomain(kept) && (forall j :: 0 <= j < |kept| ==> kept[j].domain != g.domain)
    requires forall d: Domain :: LastFinding(kept, d) == LastFinding(read, d)
    ensures OnePerDomain(kept + [g])
    ensures forall d: Domain :: LastFinding(kept + [g], d) == LastFinding(read + [g], d)
  {
    assert (read + [g])[..|read|] == read && (kept + [g])[..|kept|] == kept;
  }

  lemma SortedOnce(gs: seq<Grant>)
    requires OnePerDomain(gs)
    ensures StrictBy(SortBy(gs, DomainKey), DomainKey)
  {
    hide SortBy, OnePerDomain;
    var r := SortBy(gs, DomainKey);
    forall i, j | 0 <= i < j < |r| ensures DomainKey(r[i]) < DomainKey(r[j]) {
      TwiceInSorted(gs, r, i, j);
      assert DomainKey(r[i]) <= DomainKey(r[j]);
    }
  }

  lemma TwiceInSorted(gs: seq<Grant>, r: seq<Grant>, i: nat, j: nat)
    requires OnePerDomain(gs) && multiset(r) == multiset(gs) && i < j < |r|
    ensures r[i].domain != r[j].domain
  {
    OnceInMultiset(gs, r[i]);
    if r[i] == r[j] {
      RepeatCountsTwice(r, i, j);
    } else {
      assert r[i] in multiset(gs) && r[j] in multiset(gs);
      var a :| 0 <= a < |gs| && gs[a] == r[i];
      var b :| 0 <= b < |gs| && gs[b] == r[j];
      assert a < b || b < a;
    }
  }

  lemma {:induction false} OnceInMultiset(gs: seq<Grant>, g: Grant)
    requires OnePerDomain(gs)
    ensures multiset(gs)[g] <= 1
  {
    if |gs| == 0 {
    } else {
      var init, last := gs[..|gs| - 1], gs[|gs| - 1];
      OnceInMultiset(init, g);
      assert gs == init + [last];
      if last == g {
        assert g !in init;
      }
    }
  }
}
