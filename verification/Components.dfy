/** Connected components of the saturated subgraph (src/detection.cpp): the
    depth-first search against reachability through saturated resources. */
module SaturatedComponents {
  import opened Base
  import opened Ordering

  /** adj[i] lists the neighbours of resource i by position. */
  type Graph = seq<seq<nat>>

  ghost predicate ValidGraph(adj: Graph) {
    forall i, k :: 0 <= i < |adj| && 0 <= k < |adj[i]| ==> adj[i][k] < |adj|
  }

  ghost predicate Symmetric(adj: Graph) {
    forall i: nat, j: nat :: i < |adj| && j < |adj| && j in adj[i] ==> i in adj[j]
  }

  // ----- reachability, the simple form ---------------------------------------------

  /** A walk along links that stays on saturated resources. */
  ghost predicate IsPath(adj: Graph, sat: seq<bool>, p: seq<nat>)
    requires |sat| == |adj|
  {
    && |p| > 0
    && (forall k :: 0 <= k < |p| ==> p[k] < |adj| && sat[p[k]])
    && (forall k :: 0 < k < |p| ==> Step(adj, p[k - 1], p[k]))
  }

  ghost predicate Step(adj: Graph, i: nat, j: nat) { i < |adj| && j in adj[i] }

  ghost predicate Connected(adj: Graph, sat: seq<bool>, i: nat, j: nat)
    requires |sat| == |adj|
  {
    exists p :: IsPath(adj, sat, p) && p[0] == i && p[|p| - 1] == j
  }

  lemma ConnectedSelf(adj: Graph, sat: seq<bool>, i: nat)
    requires |sat| == |adj| && i < |adj| && sat[i]
    ensures Connected(adj, sat, i, i)
  {
    assert IsPath(adj, sat, [i]);
  }

  lemma ConnectedSaturated(adj: Graph, sat: seq<bool>, i: nat, j: nat)
    requires |sat| == |adj| && Connected(adj, sat, i, j)
    ensures i < |adj| && j < |adj| && sat[i] && sat[j]
  {
  }

  lemma ConnectedStep(adj: Graph, sat: seq<bool>, i: nat, j: nat, k: nat)
    requires |sat| == |adj| && Connected(adj, sat, i, j) && j < |adj| && k in adj[j] && k < |adj| && sat[k]
    ensures Connected(adj, sat, i, k)
  {
    var p :| IsPath(adj, sat, p) && p[0] == i && p[|p| - 1] == j;
    var q := p + [k];
    forall m | 0 < m < |q| ensures Step(adj, q[m - 1], q[m]) {
      assert m < |p| ==> Step(adj, p[m - 1], p[m]);
    }
    assert IsPath(adj, sat, q);
  }

  lemma ConnectedTransitive(adj: Graph, sat: seq<bool>, i: nat, j: nat, k: nat)
    requires |sat| == |adj| && Connected(adj, sat, i, j) && Connected(adj, sat, j, k)
    ensures Connected(adj, sat, i, k)
  {
    var p :| IsPath(adj, sat, p) && p[0] == i && p[|p| - 1] == j;
    var q :| IsPath(adj, sat, q) && q[0] == j && q[|q| - 1] == k;
    var r := p + q[1..];
    forall m | 0 < m < |r| ensures Step(adj, r[m - 1], r[m]) {
      if m >= |p| {
        assert r[m] == q[m - |p| + 1];
        assert r[m - 1] == q[m - |p|];
        assert Step(adj, q[m - |p| + 1 - 1], q[m - |p| + 1]);
      }
    }
    assert IsPath(adj, sat, r);
  }

  lemma ConnectedSymmetric(adj: Graph, sat: seq<bool>, i: nat, j: nat)
    requires |sat| == |adj| && Symmetric(adj) && Connected(adj, sat, i, j)
    ensures Connected(adj, sat, j, i)
  {
    var p :| IsPath(adj, sat, p) && p[0] == i && p[|p| - 1] == j;
    var n := |p|;
    var q := seq(n, k requires 0 <= k < n => p[n - 1 - k]);
    forall m | 0 < m < n ensures Step(adj, q[m - 1], q[m]) {
      assert Step(adj, p[n - m - 1], p[n - m]);
    }
    assert IsPath(adj, sat, q);
  }

  /** Closed under saturated links. */
  ghost predicate Closed(adj: Graph, sat: seq<bool>, all: set<nat>)
    requires |sat| == |adj|
  {
    forall x: nat, y: nat :: x in all && Step(adj, x, y) && y < |adj| && sat[y] ==> y in all
  }

  lemma {:induction false} ClosedHoldsPath(adj: Graph, sat: seq<bool>, all: set<nat>, p: seq<nat>)
    requires |sat| == |adj| && Closed(adj, sat, all) && IsPath(adj, sat, p) && p[0] in all
    ensures p[|p| - 1] in all
  {
    if |p| > 1 {
      var init := p[..|p| - 1];
      forall k | 0 < k < |init| ensures Step(adj, init[k - 1], init[k]) {
        assert Step(adj, p[k - 1], p[k]);
      }
      assert IsPath(adj, sat, init);
      ClosedHoldsPath(adj, sat, all, init);
      assert Step(adj, p[|p| - 1 - 1], p[|p| - 1]);
    }
  }

  lemma ClosedHoldsConnected(adj: Graph, sat: seq<bool>, all: set<nat>, i: nat, j: nat)
    requires |sat| == |adj| && Closed(adj, sat, all) && i in all && Connected(adj, sat, i, j)
    ensures j in all
  {
    var p :| IsPath(adj, sat, p) && p[0] == i && p[|p| - 1] == j;
    ClosedHoldsPath(adj, sat, all, p);
  }

  // ----- the components, the simple form ------------------------------------------------

  /** The positions below k connected to a seed, ascending. */
  ghost function Members(adj: Graph, sat: seq<bool>, seed: nat, k: nat): (r: seq<nat>)
    requires |sat| == |adj|
  {
    if k == 0 then []
    else Members(adj, sat, seed, k - 1) + (if Connected(adj, sat, seed, k - 1) then [k - 1] else [])
  }

  lemma {:induction false} MembersMeaning(adj: Graph, sat: seq<bool>, seed: nat, k: nat)
    requires |sat| == |adj|
    ensures Ascending(Members(adj, sat, seed, k))
    ensures forall x :: x in Members(adj, sat, seed, k) <==> 0 <= x < k && Connected(adj, sat, seed, x)
  {
    hide Connected;
    if k == 0 {
    } else {
      MembersMeaning(adj, sat, seed, k - 1);
      var before := Members(adj, sat, seed, k - 1);
      assert forall m :: 0 <= m < |before| ==> before[m] in before;
    }
  }

  /** A saturated resource with no connected resource before it. */
  ghost predicate IsSeed(adj: Graph, sat: seq<bool>, i: nat)
    requires |sat| == |adj|
  {
    i < |adj| && sat[i] && forall j :: 0 <= j < i ==> !Connected(adj, sat, j, i)
  }

  /** One component per seed, in seed order. */
  ghost function Components(adj: Graph, sat: seq<bool>, k: nat): seq<seq<nat>>
    requires |sat| == |adj|
  {
    if k == 0 then []
    else
      Components(adj, sat, k - 1)
      + (if IsSeed(adj, sat, k - 1) then [Members(adj, sat, k - 1, |adj|)] else [])
  }

  /** Every component below k belongs to a seed below k. */
  lemma {:induction false} ComponentSeed(adj: Graph, sat: seq<bool>, k: nat, c: nat)
    requires |sat| == |adj| && k <= |adj| && c < |Components(adj, sat, k)|
    ensures exists s :: 0 <= s < k && IsSeed(adj, sat, s) && Components(adj, sat, k)[c] == Members(adj, sat, s, |adj|)
  {
    hide IsSeed, Members;
    if c < |Components(adj, sat, k - 1)| {
      ComponentSeed(adj, sat, k - 1, c);
    }
  }

  /** Every seed below k has its component. */
  lemma {:induction false} SeedComponent(adj: Graph, sat: seq<bool>, k: nat, s: nat)
    requires |sat| == |adj| && s < k <= |adj| && IsSeed(adj, sat, s)
    ensures exists c :: 0 <= c < |Components(adj, sat, k)| && Components(adj, sat, k)[c] == Members(adj, sat, s, |adj|)
  {
    hide IsSeed, Members;
    if s < k - 1 {
      SeedComponent(adj, sat, k - 1, s);
      var c :| 0 <= c < |Components(adj, sat, k - 1)| && Components(adj, sat, k - 1)[c] == Members(adj, sat, s, |adj|);
      assert Components(adj, sat, k)[c] == Members(adj, sat, s, |adj|);
    } else {
      var c := |Components(adj, sat, k)| - 1;
      assert Components(adj, sat, k)[c] == Members(adj, sat, s, |adj|);
    }
  }

  /** Seeds of different components are different, so components are listed in
      seed order and never twice. */
  lemma {:induction false} ComponentsDiffer(adj: Graph, sat: seq<bool>, k: nat, c: nat, d: nat)
    requires |sat| == |adj| && k <= |adj| && c < d < |Components(adj, sat, k)|
    ensures exists s, t :: 0 <= s < t < k && IsSeed(adj, sat, s) && IsSeed(adj, sat, t)
              && Components(adj, sat, k)[c] == Members(adj, sat, s, |adj|)
              && Components(adj, sat, k)[d] == Members(adj, sat, t, |adj|)
  {
    hide IsSeed, Members;
    if d < |Components(adj, sat, k - 1)| {
      ComponentsDiffer(adj, sat, k - 1, c, d);
    } else {
      ComponentSeed(adj, sat, k - 1, c);
    }
  }

  /** Every saturated resource is connected from some seed. */
  lemma {:induction false} SeedExists(adj: Graph, sat: seq<bool>, i: nat)
    requires |sat| == |adj| && i < |adj| && sat[i]
    ensures exists s :: 0 <= s <= i && IsSeed(adj, sat, s) && Connected(adj, sat, s, i)
  {
    hide Connected;
    ConnectedSelf(adj, sat, i);
    if !IsSeed(adj, sat, i) {
      var j :| 0 <= j < i && Connected(adj, sat, j, i);
      ConnectedSaturated(adj, sat, j, i);
      SeedExists(adj, sat, j);
      var s :| 0 <= s <= j && IsSeed(adj, sat, s) && Connected(adj, sat, s, j);
      ConnectedTransitive(adj, sat, s, j, i);
    }
  }

  /** A nonempty ascending list of saturated positions that reach each other
      through saturated resources only. */
  ghost predicate IsClass(adj: Graph, sat: seq<bool>, c: seq<nat>)
    requires |sat| == |adj|
  {
    && |c| > 0 && Ascending(c)
    && (forall k :: 0 <= k < |c| ==> c[k] < |adj| && sat[c[k]])
    && (forall x, y :: x in c && y in c ==> Connected(adj, sat, x, y))
  }

  lemma ComponentIsClass(adj: Graph, sat: seq<bool>, c: nat)
    requires |sat| == |adj| && Symmetric(adj) && c < |Components(adj, sat, |adj|)|
    ensures IsClass(adj, sat, Components(adj, sat, |adj|)[c])
  {
    hide Connected, IsSeed, Members, Components, Symmetric, IsClass;
    ComponentSeed(adj, sat, |adj|, c);
    var s :| 0 <= s < |adj| && IsSeed(adj, sat, s) && Components(adj, sat, |adj|)[c] == Members(adj, sat, s, |adj|);
    ClassOfSeed(adj, sat, s);
  }

  /** The components are exactly the classes of saturated resources, and each
      saturated resource is in one of them. */
  lemma ComponentsAreClasses(adj: Graph, sat: seq<bool>)
    requires |sat| == |adj| && Symmetric(adj)
    ensures var cs := Components(adj, sat, |adj|);
            && (forall c :: 0 <= c < |cs| ==> IsClass(adj, sat, cs[c]))
            && (forall i :: 0 <= i < |adj| && sat[i] ==> exists c :: 0 <= c < |cs| && i in cs[c])
  {
    hide Connected, IsSeed, Members, Components, Symmetric, IsClass;
    var cs := Components(adj, sat, |adj|);
    forall c | 0 <= c < |cs| ensures IsClass(adj, sat, cs[c]) {
      ComponentIsClass(adj, sat, c);
    }
    forall i | 0 <= i < |adj| && sat[i] ensures exists c :: 0 <= c < |cs| && i in cs[c] {
      SeedExists(adj, sat, i);
      var s :| 0 <= s <= i && IsSeed(adj, sat, s) && Connected(adj, sat, s, i);
      MembersMeaning(adj, sat, s, |adj|);
      SeedComponent(adj, sat, |adj|, s);
    }
  }

  lemma ClassOfSeed(adj: Graph, sat: seq<bool>, s: nat)
    requires |sat| == |adj| && Symmetric(adj) && IsSeed(adj, sat, s)
    ensures IsClass(adj, sat, Members(adj, sat, s, |adj|)) && s in Members(adj, sat, s, |adj|)
  {
    var m := Members(adj, sat, s, |adj|);
    MembersMeaning(adj, sat, s, |adj|);
    ConnectedSelf(adj, sat, s);
    hide Connected, Members;
    assert s in m;
    forall x, y | x in m && y in m ensures Connected(adj, sat, x, y) {
      ConnectedSymmetric(adj, sat, s, x);
      ConnectedTransitive(adj, sat, x, s, y);
    }
    forall k | 0 <= k < |m| ensures m[k] < |adj| && sat[m[k]] {
      assert m[k] in m;
      ConnectedSaturated(adj, sat, s, m[k]);
    }
  }

  /** A component starts with its seed: everything connected to it comes after. */
  lemma SeedFirst(adj: Graph, sat: seq<bool>, s: nat)
    requires |sat| == |adj| && Symmetric(adj) && IsSeed(adj, sat, s)
    ensures |Members(adj, sat, s, |adj|)| > 0 && Members(adj, sat, s, |adj|)[0] == s
  {
    var m := Members(adj, sat, s, |adj|);
    ClassOfSeed(adj, sat, s);
    MembersMeaning(adj, sat, s, |adj|);
    hide Connected, Members;
    assert m[0] in m;
    ConnectedSymmetric(adj, sat, s, m[0]);
    assert forall i :: 0 < i < |m| ==> m[0] < m[i];
  }

  /** The last component belongs to the last seed. */
  lemma {:induction false} SeedsAscend(adj: Graph, sat: seq<bool>, k: nat, a: nat, b: nat)
    requires |sat| == |adj| && k <= |adj| && Symmetric(adj) && a < b < |Components(adj, sat, k)|
    ensures |Components(adj, sat, k)[a]| > 0 && |Components(adj, sat, k)[b]| > 0
    ensures Components(adj, sat, k)[a][0] < Components(adj, sat, k)[b][0]
  {
    hide IsSeed, Members, Connected, Symmetric;
    var before := Components(adj, sat, k - 1);
    if b < |before| {
      SeedsAscend(adj, sat, k - 1, a, b);
    } else {
      SeedFirst(adj, sat, k - 1);
      ComponentSeed(adj, sat, k - 1, a);
      var s :| 0 <= s < k - 1 && IsSeed(adj, sat, s) && before[a] == Members(adj, sat, s, |adj|);
      SeedFirst(adj, sat, s);
    }
  }

  /** Two components share no resource and no link runs between them. */
  lemma ComponentsApart(adj: Graph, sat: seq<bool>, c: nat, d: nat, x: nat, y: nat)
    requires |sat| == |adj| && Symmetric(adj)
    requires c < |Components(adj, sat, |adj|)| && d < |Components(adj, sat, |adj|)| && c != d
    requires x in Components(adj, sat, |adj|)[c] && y in Components(adj, sat, |adj|)[d]
    ensures x != y && !Step(adj, x, y)
  {
    hide Connected, Members, Components, Symmetric;
    var lo, hi := if c < d then c else d, if c < d then d else c;
    ComponentsDiffer(adj, sat, |adj|, lo, hi);
    var s, t :| 0 <= s < t < |adj| && IsSeed(adj, sat, s) && IsSeed(adj, sat, t)
      && Components(adj, sat, |adj|)[lo] == Members(adj, sat, s, |adj|)
      && Components(adj, sat, |adj|)[hi] == Members(adj, sat, t, |adj|);
    MembersMeaning(adj, sat, s, |adj|);
    MembersMeaning(adj, sat, t, |adj|);
    var a, b := if c < d then x else y, if c < d then y else x;
    if x == y || Step(adj, x, y) {
      TouchingClassesMerge(adj, sat, s, t, a, b);
    }
  }

  lemma TouchingClassesMerge(adj: Graph, sat: seq<bool>, s: nat, t: nat, a: nat, b: nat)
    requires |sat| == |adj| && Symmetric(adj) && Connected(adj, sat, s, a) && Connected(adj, sat, t, b)
    requires a == b || Step(adj, a, b) || Step(adj, b, a)
    ensures Connected(adj, sat, s, t)
  {
    hide Connected;
    ConnectedSaturated(adj, sat, s, a);
    ConnectedSaturated(adj, sat, t, b);
    if a != b {
      ConnectedStep(adj, sat, s, a, b);
    }
    ConnectedSymmetric(adj, sat, t, b);
    ConnectedTransitive(adj, sat, s, b, t);
  }

  // ----- the search ------------------------------------------------------------------

  ghost function Marked(visited: seq<bool>): set<nat> { set i | 0 <= i < |visited| && visited[i] }

  /** What the search has found: on the stack or in the component. */
  ghost function Found(component: seq<nat>, stack: seq<nat>): set<nat> {
    (set x | x in component) + (set x | x in stack)
  }

  /** The search in progress from a seed, old being what was marked before. */
  ghost predicate Searching(adj: Graph, sat: seq<bool>, seed: nat, old': set<nat>,
                            visited: seq<bool>, component: seq<nat>, stack: seq<nat>) {
    && |sat| == |adj| == |visited|
    && Marked(visited) == old' + Found(component, stack)
    && seed in Found(component, stack) && Found(component, stack) !! old'
    && Distinct(component + stack)
    && (forall x :: x in Found(component, stack) ==> x < |adj| && Connected(adj, sat, seed, x))
  }

  /** The saturated neighbours of what is already in the component are marked. */
  ghost predicate Expanded(adj: Graph, sat: seq<bool>, visited: seq<bool>, component: seq<nat>)
    requires |sat| == |adj| == |visited|
  {
    forall x, y: nat :: x in component && Step(adj, x, y) && y < |adj| && sat[y] ==> visited[y]
  }

  /** Marking and pushing one more saturated neighbour of the current node. */
  lemma Push(adj: Graph, sat: seq<bool>, seed: nat, old': set<nat>, visited: seq<bool>, component: seq<nat>,
             stack: seq<nat>, from: nat, to: nat)
    requires Searching(adj, sat, seed, old', visited, component, stack)
    requires from in component && Step(adj, from, to) && to < |adj| && sat[to] && !visited[to]
    ensures Searching(adj, sat, seed, old', visited[to := true], component, stack + [to])
  {
    hide Connected;
    assert to !in Marked(visited);
    assert Marked(visited[to := true]) == Marked(visited) + {to};
    assert Found(component, stack + [to]) == Found(component, stack) + {to};
    assert from in Found(component, stack);
    ConnectedStep(adj, sat, seed, from, to);
    assert component + (stack + [to]) == (component + stack) + [to];
    forall k | 0 <= k < |component + stack| ensures (component + stack)[k] != to {
      assert (component + stack)[k] in Found(component, stack);
    }
  }

  /** Moving the top of the stack to the component changes nothing found. */
  lemma Pop(adj: Graph, sat: seq<bool>, seed: nat, old': set<nat>, visited: seq<bool>, component: seq<nat>,
      stack: seq<nat>)
    requires Searching(adj, sat, seed, old', visited, component, stack) && |stack| > 0
    ensures Searching(adj, sat, seed, old', visited, component + [stack[|stack| - 1]], stack[..|stack| - 1])
  {
    hide Connected;
    var top, rest := stack[|stack| - 1], stack[..|stack| - 1];
    assert stack == rest + [top];
    assert Found(component + [top], rest) == Found(component, stack);
    PopDistinct(component, rest, top);
  }

  lemma PopDistinct(component: seq<nat>, rest: seq<nat>, top: nat)
    requires Distinct(component + (rest + [top]))
    ensures Distinct(component + [top] + rest)
  {
    var before, after := component + (rest + [top]), component + [top] + rest;
    var c, n := |component|, |component| + |rest|;
    forall i, j | 0 <= i < j < |after| ensures after[i] != after[j] {
      var f := if i < c then i else if i == c then n else i - 1;
      var g := if j < c then j else if j == c then n else j - 1;
      assert after[i] == before[f] && after[j] == before[g];
      assert f < g || g < f;
    }
  }

  lemma SearchBounded(adj: Graph, sat: seq<bool>, seed: nat, old': set<nat>, visited: seq<bool>,
      component: seq<nat>, stack: seq<nat>)
    requires Searching(adj, sat, seed, old', visited, component, stack)
    ensures |component| + |stack| <= |adj|
  {
    hide Connected;
    var s := component + stack;
    forall k | 0 <= k < |s| ensures s[k] < |adj| {
      assert s[k] in Found(component, stack);
    }
    DistinctBelow(s, |adj|);
  }

  /** When the stack is empty the component is everything connected to the
      seed, and the marked set is closed again. */
  lemma SearchDone(adj: Graph, sat: seq<bool>, seed: nat, old': set<nat>, visited: seq<bool>, component: seq<nat>)
    requires Searching(adj, sat, seed, old', visited, component, []) && Expanded(adj, sat, visited, component)
    requires Closed(adj, sat, old') && Symmetric(adj) && forall x :: x in old' ==> x < |adj| && sat[x]
    ensures Sort(component) == Members(adj, sat, seed, |adj|)
    ensures Closed(adj, sat, Marked(visited))
    ensures forall x: nat :: x in Marked(visited) <==> x in old' || Connected(adj, sat, seed, x)
  {
    hide Connected, Symmetric;
    var all := set x | x in component;
    assert Found(component, []) == all;
    forall x: nat, y: nat | x in all && Step(adj, x, y) && y < |adj| && sat[y] ensures y in all {
      assert visited[y];
      assert y in Marked(visited);
      if y in old' {
        StepBack(adj, x, y);
        ConnectedSaturated(adj, sat, seed, x);
      }
    }
    forall x: nat | Connected(adj, sat, seed, x) ensures x in all {
      ClosedHoldsConnected(adj, sat, all, seed, x);
    }
    MembersMeaning(adj, sat, seed, |adj|);
    assert component + [] == component;
    SortDistinctAscending(component);
    forall x ensures x in Sort(component) <==> x in Members(adj, sat, seed, |adj|) {
      assert x in component <==> x in all;
      if x in Members(adj, sat, seed, |adj|) {
        assert Connected(adj, sat, seed, x);
      }
    }
    AscendingDetermined(Sort(component), Members(adj, sat, seed, |adj|));
  }

  lemma StepBack(adj: Graph, x: nat, y: nat)
    requires Symmetric(adj) && Step(adj, x, y) && y < |adj|
    ensures Step(adj, y, x)
  {
  }

  lemma SearchStart(adj: Graph, sat: seq<bool>, seed: nat, visited0: seq<bool>)
    requires |sat| == |adj| == |visited0| && seed < |adj| && sat[seed] && !visited0[seed]
    ensures Searching(adj, sat, seed, Marked(visited0), visited0[seed := true], [], [seed])
    ensures Expanded(adj, sat, visited0[seed := true], [])
  {
    ConnectedSelf(adj, sat, seed);
    hide Connected;
    assert Found([], [seed]) == {seed};
    assert Marked(visited0[seed := true]) == Marked(visited0) + {seed};
  }

  lemma CurrentInGraph(adj: Graph, sat: seq<bool>, seed: nat, old': set<nat>, visited: seq<bool>, component: seq<nat>,
                       stack: seq<nat>, current: nat)
    requires Searching(adj, sat, seed, old', visited, component, stack) && current in component
    ensures current < |adj|
  {
    hide Connected;
    assert current in Found(component, stack);
  }

  lemma ExpandedMore(adj: Graph, sat: seq<bool>, visited: seq<bool>, component: seq<nat>, index: nat)
    requires |sat| == |adj| == |visited| && index < |adj| && Expanded(adj, sat, visited, component)
    ensures Expanded(adj, sat, visited[index := true], component)
  {
  }

  lemma ExpandedCurrent(adj: Graph, sat: seq<bool>, visited: seq<bool>, earlier: seq<nat>, current: nat)
    requires |sat| == |adj| == |visited| && ValidGraph(adj) && current < |adj| && Expanded(adj, sat, visited, earlier)
    requires forall m :: 0 <= m < |adj[current]| && sat[adj[current][m]] ==> visited[adj[current][m]]
    ensures Expanded(adj, sat, visited, earlier + [current])
  {
    forall x, y: nat | x in earlier + [current] && Step(adj, x, y) && y < |adj| && sat[y] ensures visited[y] {
      if x == current {
        var m :| 0 <= m < |adj[current]| && adj[current][m] == y;
      }
    }
  }

  lemma ClosedEmpty(adj: Graph, sat: seq<bool>)
    requires |sat| == |adj|
    ensures Closed(adj, sat, {})
  {
  }

  /** Skipping a seed that is not saturated or already marked loses nothing. */
  lemma SkippedSeed(adj: Graph, sat: seq<bool>, seed: nat, all: set<nat>)
    requires |sat| == |adj| && seed < |adj| && Closed(adj, sat, all) && (!sat[seed] || seed in all)
    ensures forall x: nat :: Connected(adj, sat, seed, x) ==> x in all
  {
    hide Connected;
    forall x: nat | Connected(adj, sat, seed, x) ensures x in all {
      ConnectedSaturated(adj, sat, seed, x);
      ClosedHoldsConnected(adj, sat, all, seed, x);
    }
  }

  // ----- conservation of capacity -----------------------------------------------------

  /** The weight of the listed positions. */
  function SumAt(w: seq<nat>, c: seq<nat>): nat
    requires forall k :: 0 <= k < |c| ==> c[k] < |w|
  {
    if |c| == 0 then 0 else SumAt(w, c[..|c| - 1]) + w[c[|c| - 1]]
  }

  ghost predicate Within(cs: seq<seq<nat>>, n: nat) {
    forall k :: 0 <= k < |cs| ==> forall m :: 0 <= m < |cs[k]| ==> cs[k][m] < n
  }

  ghost function SumAll(w: seq<nat>, cs: seq<seq<nat>>): nat
    requires Within(cs, |w|)
  {
    if |cs| == 0 then 0 else SumAll(w, cs[..|cs| - 1]) + SumAt(w, cs[|cs| - 1])
  }

  /** The weight of the positions below k that are in a set. */
  ghost function SumIn(w: seq<nat>, all: set<nat>, k: nat): nat
    requires k <= |w|
  {
    if k == 0 then 0 else SumIn(w, all, k - 1) + (if k - 1 in all then w[k - 1] else 0)
  }

  lemma {:induction false} SumInUnion(w: seq<nat>, a: set<nat>, b: set<nat>, k: nat)
    requires k <= |w| && a !! b
    ensures SumIn(w, a + b, k) == SumIn(w, a, k) + SumIn(w, b, k)
  {
    if k == 0 {
    } else {
      SumInUnion(w, a, b, k - 1);
    }
  }

  lemma {:induction false} SumInOne(w: seq<nat>, x: nat, k: nat)
    requires k <= |w|
    ensures SumIn(w, {x}, k) == if x < k then w[x] else 0
  {
    if k == 0 {
    } else {
      SumInOne(w, x, k - 1);
    }
  }

  lemma {:induction false} SumInEmpty(w: seq<nat>, k: nat)
    requires k <= |w|
    ensures SumIn(w, {}, k) == 0
  {
    if k == 0 {
    } else {
      SumInEmpty(w, k - 1);
    }
  }

  lemma {:induction false} SumAtIsSumIn(w: seq<nat>, c: seq<nat>)
    requires Distinct(c) && forall k :: 0 <= k < |c| ==> c[k] < |w|
    ensures SumAt(w, c) == SumIn(w, Elements(c), |w|)
  {
    hide SumIn;
    if |c| == 0 {
      assert Elements(c) == {};
      SumInEmpty(w, |w|);
    } else {
      var init, last := c[..|c| - 1], c[|c| - 1];
      SumAtIsSumIn(w, init);
      assert Elements(c) == Elements(init) + {last};
      SumInUnion(w, Elements(init), {last}, |w|);
      SumInOne(w, last, |w|);
    }
  }

  ghost function Union(cs: seq<seq<nat>>): set<nat> {
    if |cs| == 0 then {} else Union(cs[..|cs| - 1]) + Elements(cs[|cs| - 1])
  }

  lemma {:induction false} UnionMembers(cs: seq<seq<nat>>, x: nat)
    ensures x in Union(cs) <==> exists k :: 0 <= k < |cs| && x in cs[k]
  {
    if |cs| == 0 {
    } else {
      var init := cs[..|cs| - 1];
      UnionMembers(init, x);
      assert forall k :: 0 <= k < |init| ==> init[k] == cs[k];
    }
  }

  lemma {:induction false} SumAllIsSumIn(w: seq<nat>, cs: seq<seq<nat>>)
    requires Within(cs, |w|)
    requires forall k :: 0 <= k < |cs| ==> Ascending(cs[k])
    requires forall k, m, x: nat :: 0 <= k < m < |cs| && x in cs[k] ==> x !in cs[m]
    ensures SumAll(w, cs) == SumIn(w, Union(cs), |w|)
  {
    hide SumIn;
    if |cs| == 0 {
      SumInEmpty(w, |w|);
    } else {
      var init, last := cs[..|cs| - 1], cs[|cs| - 1];
      assert forall k :: 0 <= k < |init| ==> init[k] == cs[k];
      SumAllIsSumIn(w, init);
      assert Distinct(last);
      SumAtIsSumIn(w, last);
      forall x | x in Union(init) ensures x !in last {
        UnionMembers(init, x);
      }
      SumInUnion(w, Union(init), Elements(last), |w|);
    }
  }

  /** The weight of everything saturated. */
  ghost function SaturatedTotal(w: seq<nat>, sat: seq<bool>): nat
    requires |sat| == |w|
  {
    SumIn(w, Marked(sat), |w|)
  }

  predicate InRange(c: seq<nat>, sat: seq<bool>) {
    forall m :: 0 <= m < |c| ==> c[m] < |sat| && sat[c[m]]
  }

  lemma ClassRange(adj: Graph, sat: seq<bool>, c: seq<nat>)
    requires |sat| == |adj| && IsClass(adj, sat, c)
    ensures Ascending(c) && InRange(c, sat)
  {
  }

  /** Component weights add up to the saturated total: nothing is counted
      twice and nothing is lost. */
  lemma ComponentWeights(adj: Graph, sat: seq<bool>, w: seq<nat>)
    requires |sat| == |adj| == |w| && Symmetric(adj)
    ensures var cs := Components(adj, sat, |adj|);
            && Within(cs, |w|)
            && SumAll(w, cs) == SaturatedTotal(w, sat)
  {
    hide Connected, Components, Symmetric, Step, SumIn, IsClass;
    var cs := Components(adj, sat, |adj|);
    ComponentsAreClasses(adj, sat);
    forall k | 0 <= k < |cs| ensures Ascending(cs[k]) && InRange(cs[k], sat) {
      ComponentIsClass(adj, sat, k);
      ClassRange(adj, sat, cs[k]);
    }
    forall k, m, x: nat | 0 <= k < m < |cs| && x in cs[k] ensures x !in cs[m] {
      if x in cs[m] {
        ComponentsApart(adj, sat, k, m, x, x);
      }
    }
    SumAllIsSumIn(w, cs);
    forall x: nat ensures x in Union(cs) <==> x in Marked(sat) {
      UnionMembers(cs, x);
      if x in Union(cs) {
        var k :| 0 <= k < |cs| && x in cs[k];
        assert InRange(cs[k], sat);
      }
    }
    assert Union(cs) == Marked(sat);
  }
}
