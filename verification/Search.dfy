/** The depth-first search of detect (src/detection.cpp) over the topology's
    neighbour index. */
module SaturationSearch {
  import opened Base
  import opened Model
  import opened Ordering
  import opened TopologyIndex
  import opened SaturatedComponents

  // ----- the topology as a graph over positions ---------------------------------------

  function Positions(rs: seq<Resource>, ids: seq<U64>): (r: seq<nat>)
    ensures |r| == |ids| && forall k :: 0 <= k < |r| ==> r[k] == PositionOf(rs, ids[k])
  {
    seq(|ids|, k requires 0 <= k < |ids| => PositionOf(rs, ids[k]))
  }

  function Adjacency(c: TopologyContent): (g: Graph)
    ensures |g| == |c.resources|
    ensures forall i :: 0 <= i < |g| ==> g[i] == Positions(c.resources, Partners(c.links, c.resources[i].id))
  {
    seq(|c.resources|, i requires 0 <= i < |c.resources| =>
      Positions(c.resources, Partners(c.links, c.resources[i].id)))
  }

  function IndexOfResource(c: TopologyContent, id: U64): Option<nat> { Find(c.resources, ResourceKey, id) }

  /** index_of_resource finds every neighbour. */
  lemma NeighbourFound(c: TopologyContent, i: nat, k: nat)
    requires ValidTopology(c) && i < |c.resources| && k < |Partners(c.links, c.resources[i].id)|
    ensures var id := Partners(c.links, c.resources[i].id)[k];
            && id != 0
            && IndexOfResource(c, id) == Some(Adjacency(c)[i][k])
            && Adjacency(c)[i][k] < |c.resources| && c.resources[Adjacency(c)[i][k]].id == id
            && Step(Adjacency(c), i, Adjacency(c)[i][k])
  {
    hide Partners, LinkKey;
    var id := Partners(c.links, c.resources[i].id)[k];
    assert id in Partners(c.links, c.resources[i].id);
    PartnersMeaning(c, c.resources[i].id);
    PositionOfKnown(c.resources, id);
  }

  /** Neighbouring positions are exactly linked resources. */
  lemma StepIsLink(c: TopologyContent, i: nat, j: nat)
    requires ValidTopology(c) && i < |c.resources| && j < |c.resources|
    ensures Step(Adjacency(c), i, j) <==> Linked(c.links, c.resources[i].id, c.resources[j].id)
  {
    hide Partners, LinkKey, ValidTopology, PositionOf;
    var row, ids := Adjacency(c)[i], Partners(c.links, c.resources[i].id);
    PartnersMeaning(c, c.resources[i].id);
    if Step(Adjacency(c), i, j) {
      var k :| 0 <= k < |row| && row[k] == j;
      NeighbourFound(c, i, k);
      assert ids[k] in ids;
    }
    if Linked(c.links, c.resources[i].id, c.resources[j].id) {
      assert c.resources[j].id in ids;
      var k :| 0 <= k < |ids| && ids[k] == c.resources[j].id;
      NeighbourFound(c, i, k);
      PositionUnique(c, row[k], j);
    }
  }

  lemma PositionUnique(c: TopologyContent, i: nat, j: nat)
    requires ValidTopology(c) && i < |c.resources| && j < |c.resources| && c.resources[i].id == c.resources[j].id
    ensures i == j
  {
    SamePosition(c.resources, i, j);
  }

  /** The graph of a built topology stays within the resources and is symmetric. */
  lemma AdjacencyMeaning(c: TopologyContent)
    requires ValidTopology(c)
    ensures ValidGraph(Adjacency(c)) && Symmetric(Adjacency(c))
  {
    hide Partners, LinkKey, ValidTopology, Linked;
    var g := Adjacency(c);
    forall i, k | 0 <= i < |g| && 0 <= k < |g[i]| ensures g[i][k] < |g| {
      NeighbourFound(c, i, k);
    }
    forall i: nat, j: nat | i < |g| && j < |g| && j in g[i] ensures i in g[j] {
      assert Step(g, i, j);
      StepIsLink(c, i, j);
      StepIsLink(c, j, i);
      LinkedBothWays(c.links, c.resources[i].id, c.resources[j].id);
      assert Step(g, j, i);
    }
  }

  lemma LinkedBothWays(links: seq<Link>, a: U64, b: U64)
    requires Linked(links, a, b)
    ensures Linked(links, b, a)
  {
  }

  // ----- the search -----------------------------------------------------------------------

  ghost predicate RowMarked(adj: Graph, sat: seq<bool>, visited: seq<bool>, i: nat, k: nat) {
    && |sat| == |adj| == |visited| && i < |adj| && k <= |adj[i]|
    && forall m :: 0 <= m < k ==> adj[i][m] < |adj| && (sat[adj[i][m]] ==> visited[adj[i][m]])
  }

  lemma PushOne(adj: Graph, sat: seq<bool>, seed: nat, old': set<nat>, earlier: seq<nat>, current: nat,
                stack: seq<nat>, visited: seq<bool>, k: nat)
    requires |sat| == |adj| == |visited| && current < |adj| && k < |adj[current]| && adj[current][k] < |adj|
    requires Searching(adj, sat, seed, old', visited, earlier + [current], stack)
    requires Expanded(adj, sat, visited, earlier) && RowMarked(adj, sat, visited, current, k)
    ensures var to := adj[current][k];
            if sat[to] && !visited[to] then
              && Searching(adj, sat, seed, old', visited[to := true], earlier + [current], stack + [to])
              && Expanded(adj, sat, visited[to := true], earlier)
              && RowMarked(adj, sat, visited[to := true], current, k + 1)
            else RowMarked(adj, sat, visited, current, k + 1)
  {
    hide Searching, Expanded;
    var to := adj[current][k];
    if sat[to] && !visited[to] {
      Push(adj, sat, seed, old', visited, earlier + [current], stack, current, to);
      ExpandedMore(adj, sat, visited, earlier, to);
    }
  }

  /** Marks and pushes the saturated, unmarked neighbours of the current node. */
  method PushNeighbours(c: TopologyContent, ix: Index, sat: seq<bool>, ghost seed: nat, ghost old': set<nat>,
                        ghost earlier: seq<nat>, current: nat, stack0: seq<nat>, visited0: seq<bool>)
    returns (stack: seq<nat>, visited: seq<bool>)
    requires ValidTopology(c) && IndexOf(c, ix) && |sat| == |c.resources| == |visited0| && current < |sat|
    requires Searching(Adjacency(c), sat, seed, old', visited0, earlier + [current], stack0)
    requires Expanded(Adjacency(c), sat, visited0, earlier)
    ensures |visited| == |sat|
    ensures Searching(Adjacency(c), sat, seed, old', visited, earlier + [current], stack)
    ensures Expanded(Adjacency(c), sat, visited, earlier + [current])
  {
    hide Searching, Expanded, Partners, IndexOfResource, ValidTopology, IndexOf, Adjacency, Symmetric;
    hide ValidGraph, RowMarked;
    ghost var adj := Adjacency(c);
    AdjacencyMeaning(c);
    stack, visited := stack0, visited0;
    RowStart(adj, sat, visited, current);
    var neighbours := Neighbors(c, ix, c.resources[current].id);
    assert |neighbours| == |adj[current]|;
    for k := 0 to |neighbours|
      invariant |visited| == |adj|
      invariant Searching(adj, sat, seed, old', visited, earlier + [current], stack)
      invariant Expanded(adj, sat, visited, earlier)
      invariant RowMarked(adj, sat, visited, current, k)
    {
      NeighbourFound(c, current, k);
      PushOne(adj, sat, seed, old', earlier, current, stack, visited, k);
      var index := IndexOfResource(c, neighbours[k]);
      if index.Some? && sat[index.value] && !visited[index.value] {
        visited := visited[index.value := true];
        stack := stack + [index.value];
      }
    }
    RowDone(adj, sat, visited, earlier, current);
  }

  lemma RowStart(adj: Graph, sat: seq<bool>, visited: seq<bool>, i: nat)
    requires |sat| == |adj| == |visited| && i < |adj|
    ensures RowMarked(adj, sat, visited, i, 0)
  {
  }

  lemma RowDone(adj: Graph, sat: seq<bool>, visited: seq<bool>, earlier: seq<nat>, current: nat)
    requires |sat| == |adj| == |visited| && current < |adj| && ValidGraph(adj) && Expanded(adj, sat, visited, earlier)
    requires RowMarked(adj, sat, visited, current, |adj[current]|)
    ensures Expanded(adj, sat, visited, earlier + [current])
  {
    hide Expanded;
    ExpandedCurrent(adj, sat, visited, earlier, current);
  }

  /** The inner search of detect: explicit stack, marks set on push. */
  method Explore(c: TopologyContent, ix: Index, sat: seq<bool>, seed: nat, visited0: seq<bool>)
    returns (component: seq<nat>, visited: seq<bool>)
    requires ValidTopology(c) && IndexOf(c, ix) && |sat| == |c.resources| == |visited0|
    requires seed < |sat| && sat[seed] && !visited0[seed]
    requires Closed(Adjacency(c), sat, Marked(visited0)) && forall x :: x in Marked(visited0) ==> sat[x]
    ensures |visited| == |sat|
    ensures Sort(component) == Members(Adjacency(c), sat, seed, |sat|)
    ensures Closed(Adjacency(c), sat, Marked(visited))
    ensures forall x: nat :: x in Marked(visited) <==> x in Marked(visited0) || Connected(Adjacency(c), sat, seed, x)
  {
    hide Connected, Closed, Symmetric, Searching, Expanded, Sort, ValidTopology, IndexOf, Adjacency;
    ghost var adj := Adjacency(c);
    AdjacencyMeaning(c);
    component := [];
    var stack: seq<nat> := [seed];
    visited := visited0[seed := true];
    SearchStart(adj, sat, seed, visited0);
    while |stack| > 0
      invariant |visited| == |adj|
      invariant Searching(adj, sat, seed, Marked(visited0), visited, component, stack)
      invariant Expanded(adj, sat, visited, component)
      decreases |adj| - |component|
    {
      SearchBounded(adj, sat, seed, Marked(visited0), visited, component, stack);
      Pop(adj, sat, seed, Marked(visited0), visited, component, stack);
      var current := stack[|stack| - 1];
      stack := stack[..|stack| - 1];
      ghost var earlier := component;
      component := component + [current];
      CurrentInGraph(adj, sat, seed, Marked(visited0), visited, component, stack, current);
      stack, visited := PushNeighbours(c, ix, sat, seed, Marked(visited0), earlier, current, stack, visited);
    }
    assert stack == [];
    SearchDone(adj, sat, seed, Marked(visited0), visited, component);
  }

  /** The outer loop of detect: one component per unvisited saturated seed. */
  method FindComponents(c: TopologyContent, ix: Index, sat: seq<bool>) returns (components: seq<seq<nat>>)
    requires ValidTopology(c) && IndexOf(c, ix) && |sat| == |c.resources|
    ensures components == Components(Adjacency(c), sat, |sat|)
  {
    hide Connected, Closed, Members, Sort, Adjacency, ValidTopology, IndexOf;
    ghost var adj := Adjacency(c);
    components := [];
    var visited := seq(|sat|, _ => false);
    assert Marked(visited) == {};
    ClosedEmpty(adj, sat);
    for seed := 0 to |sat|
      invariant |visited| == |adj|
      invariant Closed(adj, sat, Marked(visited))
      invariant forall x :: x in Marked(visited) ==> sat[x]
      invariant forall x: nat :: x in Marked(visited) <==> exists j :: 0 <= j < seed && Connected(adj, sat, j, x)
      invariant components == Components(adj, sat, seed)
    {
      assert seed in Marked(visited) <==> visited[seed];
      if !sat[seed] || visited[seed] {
        SkippedSeed(adj, sat, seed, Marked(visited));
        continue;
      }
      ghost var before := visited;
      var component;
      component, visited := Explore(c, ix, sat, seed, visited);
      components := components + [Sort(component)];
      forall x | x in Marked(visited) ensures sat[x] {
        if x !in Marked(before) {
          ConnectedSaturated(adj, sat, seed, x);
        }
      }
    }
  }
}
