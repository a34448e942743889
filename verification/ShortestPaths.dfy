/**
 Pass 1 of `calculate_spf_v3` in src/spf_v3.rs (section 16.1 of RFC 2328, section 4.8 of RFC 5340):
 Dijkstra's algorithm with a lazy-deletion heap, saturating costs and next-hop lists.
 */
module ShortestPaths {
  import opened Numbers

  /** A 128-bit address as a number. */
  type Ipv6 = x: int | 0 <= x < 0x1_0000_0000_0000_0000_0000_0000_0000_0000

  datatype NodeId = RouterNode(id: u32) | NetworkNode(router: u32, ifid: u32)

  const POINT_TO_POINT: u8 := 1
  const TRANSIT_NETWORK: u8 := 2

  datatype RouterLinkV3 = RouterLinkV3(linkType: u8, metric: u16, neighborInterfaceId: u32, neighborRouterId: u32)

  datatype NextHop = NextHop(linkLocal: Ipv6, swIfIndex: u32)

  datatype SpfNeighbor = SpfNeighbor(routerId: u32, hop: NextHop)

  /** Decoded Router-LSAs and Network-LSAs, our router id, and the neighbors learned from Hellos. */
  datatype Area = Area(
    self: u32, routers: map<u32, seq<RouterLinkV3>>, networks: map<(u32, u32), seq<u32>>, neighbors: seq<SpfNeighbor>)
  {
    function Start(): NodeId {
      RouterNode(self)
    }
  }

  datatype Edge = Edge(to: NodeId, cost: u32)

  function LinkEdges(links: seq<RouterLinkV3>): seq<Edge> {
    if links == [] then []
    else
      var front := LinkEdges(links[..|links| - 1]);
      var l := links[|links| - 1];
      if l.linkType == POINT_TO_POINT then front + [Edge(RouterNode(l.neighborRouterId), l.metric)]
      else if l.linkType == TRANSIT_NETWORK then
        front + [Edge(NetworkNode(l.neighborRouterId, l.neighborInterfaceId), l.metric)]
      else front
  }

  function AttachedEdges(attached: seq<u32>): (es: seq<Edge>)
    ensures |es| == |attached|
  {
    seq(|attached|, i requires 0 <= i < |attached| => Edge(RouterNode(attached[i]), 0))
  }

  /** The edges out of a node; a node without an LSA has none. */
  function Edges(a: Area, n: NodeId): seq<Edge> {
    match n
    case RouterNode(id) => if id in a.routers then LinkEdges(a.routers[id]) else []
    case NetworkNode(router, ifid) =>
      if (router, ifid) in a.networks then AttachedEdges(a.networks[(router, ifid)]) else []
  }

  /** A point-to-point link is an edge to the neighbor, a transit link one to the network, at the metric of the link. */
  ghost predicate Gives(l: RouterLinkV3, e: Edge) {
    && e.cost == l.metric
    && ((l.linkType == 1 && e.to == RouterNode(l.neighborRouterId))
        || (l.linkType == 2 && e.to == NetworkNode(l.neighborRouterId, l.neighborInterfaceId)))
  }

  lemma {:induction false} LinkEdgesMeaning(links: seq<RouterLinkV3>, e: Edge)
    ensures e in LinkEdges(links) <==> exists l :: l in links && Gives(l, e)
  {
    if links != [] {
      var n := |links| - 1;
      LinkEdgesMeaning(links[..n], e);
      assert links == links[..n] + [links[n]] && links[n] in links;
      assert Gives(links[n], e) ==> e in LinkEdges(links);
      if l :| l in links && Gives(l, e) {
        assert l in links[..n] || l == links[n];
      }
      if e in LinkEdges(links[..n]) {
        var l :| l in links[..n] && Gives(l, e);
        assert l in links;
      }
    }
  }

  /** The graph in terms of the LSAs: a router has the edges its links give, a network one at no cost for each attached
      router, and a node without an LSA none. */
  lemma EdgesMeaning(a: Area, e: Edge, router: u32, ifid: u32)
    ensures e in Edges(a, RouterNode(router)) <==> router in a.routers && exists l :: l in a.routers[router] && Gives(l, e)
    ensures e in Edges(a, NetworkNode(router, ifid)) <==>
              (router, ifid) in a.networks && e.cost == 0 && e.to.RouterNode? && e.to.id in a.networks[(router, ifid)]
  {
    if router in a.routers {
      LinkEdgesMeaning(a.routers[router], e);
    }
    if (router, ifid) in a.networks {
      var attached := a.networks[(router, ifid)];
      if e.cost == 0 && e.to.RouterNode? && e.to.id in attached {
        var i :| 0 <= i < |attached| && attached[i] == e.to.id;
        assert AttachedEdges(attached)[i] == e;
      }
    }
  }

  // ---------------------------------------------------------------- paths

  function NodeAt(a: Area, path: seq<Edge>, i: nat): NodeId
    requires i <= |path|
  {
    if i == 0 then a.Start() else path[i - 1].to
  }

  function End(a: Area, path: seq<Edge>): NodeId {
    NodeAt(a, path, |path|)
  }

  /** Edges that follow one another from our own node through the LSA graph. */
  ghost predicate IsPath(a: Area, path: seq<Edge>) {
    forall i :: 0 <= i < |path| ==> path[i] in Edges(a, NodeAt(a, path, i))
  }

  function PathCost(path: seq<Edge>): nat {
    if path == [] then 0 else PathCost(path[..|path| - 1]) + path[|path| - 1].cost
  }

  /** The cost of a path as a u32 that saturates. */
  function SatCost(path: seq<Edge>): u32 {
    if PathCost(path) > U32_MAX then U32_MAX else PathCost(path)
  }

  ghost predicate HasPath(a: Area, n: NodeId, d: u32) {
    exists path :: IsPath(a, path) && End(a, path) == n && SatCost(path) == d
  }

  lemma ExtendPath(a: Area, path: seq<Edge>, e: Edge)
    requires IsPath(a, path) && e in Edges(a, End(a, path))
    ensures IsPath(a, path + [e]) && End(a, path + [e]) == e.to
    ensures SatCost(path + [e]) == SaturatingAdd(SatCost(path), e.cost)
  {
    hide Edges;
    var longer := path + [e];
    forall i | 0 <= i < |longer| ensures longer[i] in Edges(a, NodeAt(a, longer, i)) {
      assert NodeAt(a, longer, i) == NodeAt(a, path, i);
    }
    assert longer[..|path|] == path;
  }

  lemma EmptyPath(a: Area)
    ensures IsPath(a, []) && End(a, []) == a.Start() && SatCost([]) == 0
  {
  }

  /** The first router a path goes through. */
  function FirstRouter(path: seq<Edge>): Option<u32> {
    if path == [] then None
    else if path[0].to.RouterNode? then Some(path[0].to.id)
    else FirstRouter(path[1..])
  }

  lemma {:induction false} FirstRouterExtends(path: seq<Edge>, e: Edge)
    ensures FirstRouter(path).Some? ==> FirstRouter(path + [e]) == FirstRouter(path)
    ensures FirstRouter(path).None? && e.to.RouterNode? ==> FirstRouter(path + [e]) == Some(e.to.id)
  {
    if path != [] {
      assert (path + [e])[1..] == path[1..] + [e];
      FirstRouterExtends(path[1..], e);
    } else {
      assert [] + [e] == [e];
    }
  }

  // ---------------------------------------------------------------- results

  type Distances = map<NodeId, u32>
  type Hops = map<NodeId, seq<NextHop>>

  /** Distances are exact: defined on the reachable nodes only, attained by some path, and below no
      path's cost. */
  ghost predicate Shortest(a: Area, dist: Distances) {
    && (forall n :: n in dist ==> HasPath(a, n, dist[n]))
    && (forall path :: IsPath(a, path) ==> End(a, path) in dist && dist[End(a, path)] <= SatCost(path))
  }

  ghost predicate HasNeighbor(a: Area, router: u32) {
    exists i :: 0 <= i < |a.neighbors| && a.neighbors[i].routerId == router
  }

  /** Every other router on one of our point-to-point links or local transit networks has a neighbor
      entry. */
  ghost predicate NeighborsKnown(a: Area) {
    forall e :: e in Edges(a, a.Start()) ==> LinkKnown(a, e)
  }

  ghost predicate LinkKnown(a: Area, e: Edge) {
    match e.to
    case RouterNode(id) => id != a.self ==> HasNeighbor(a, id)
    case NetworkNode(_, _) => forall f :: f in Edges(a, e.to) && f.to.RouterNode? && f.to.id != a.self ==> HasNeighbor(a, f.to.id)
  }

  /** The hop leads to the first router of a path to `n` that costs exactly `d`. */
  ghost predicate LeadsTo(a: Area, n: NodeId, d: u32, hop: NextHop) {
    exists path, i ::
      && IsPath(a, path) && End(a, path) == n && SatCost(path) == d
      && 0 <= i < |a.neighbors| && a.neighbors[i].hop == hop && FirstRouter(path) == Some(a.neighbors[i].routerId)
  }

  ghost predicate HopsSound(a: Area, dist: Distances, hops: Hops) {
    forall n, hop :: n in hops && hop in hops[n] ==> n in dist && LeadsTo(a, n, dist[n], hop)
  }

  ghost predicate RoutersHaveHops(a: Area, dist: Distances, hops: Hops) {
    forall n :: n in dist && n.RouterNode? && n != a.Start() ==> n in hops && hops[n] != []
  }

  /** The first router of the path has no neighbor entry: it is not Full. */
  ghost predicate Blind(a: Area, path: seq<Edge>) {
    FirstRouter(path).Some? && FirstRouter(path).value != a.self && !HasNeighbor(a, FirstRouter(path).value)
  }

  ghost predicate ReachedBlind(a: Area, n: NodeId, d: u32) {
    exists path :: IsPath(a, path) && End(a, path) == n && SatCost(path) == d && Blind(a, path)
  }

  /** One of our own links leads straight to the network, at this cost. */
  ghost predicate Local(a: Area, n: NodeId, d: u32) {
    exists e :: e in Edges(a, a.Start()) && e.to == n && SatCost([e]) == d
  }

  ghost predicate HasCheaper(a: Area, n: NodeId, d: u32) {
    exists path :: IsPath(a, path) && End(a, path) == n && SatCost(path) < d
  }

  /** A network and one of our neighbors attached to it, with the neighbor's next hop. */
  ghost predicate Attaches(a: Area, n: NodeId, e: Edge, hop: NextHop) {
    n.NetworkNode? && e in Edges(a, n) && e.to.RouterNode? && hop in HopsFor(a.neighbors, e.to.id)
  }

  /** At this cost the hop does no harm: it leads to the node, or the node has a cheaper path. */
  ghost predicate Serves(a: Area, n: NodeId, d: u32, hop: NextHop) {
    LeadsTo(a, n, d, hop) || HasCheaper(a, n, d)
  }

  /** At this cost the node is reached over next hops only. */
  ghost predicate Clear(a: Area, n: NodeId, d: u32) {
    n != a.Start() && !ReachedBlind(a, n, d) && !(n.NetworkNode? && Local(a, n, d))
  }

  /** A path along which next hops are passed on in time whatever the order of expansion: from one of our
      neighbors or a clear node, over edges that add to the cost. */
  ghost predicate Steady(a: Area, path: seq<Edge>) {
    && path != [] && SatCost(path) < U32_MAX
    && var front := path[..|path| - 1];
       || Clear(a, End(a, path), SatCost(path))
       || (SatCost(front) < SatCost(path)
           && if front == [] then End(a, path).RouterNode? && HasNeighbor(a, End(a, path).id) else Steady(a, front))
  }

  ghost predicate ReachedSteadily(a: Area, n: NodeId, d: u32) {
    exists path :: IsPath(a, path) && End(a, path) == n && SatCost(path) == d && Steady(a, path)
  }

  /** Networks best reached through a router that is not Full, and not steadily otherwise, may be taken for our
      own: the hops of the neighbors attached to them lead there all the same, or the neighbors are better reached
      otherwise. */
  ghost predicate Sheltered(a: Area) {
    forall n, d: u32, e, hop ::
      ReachedBlind(a, n, d) && !ReachedSteadily(a, n, d) && !HasCheaper(a, n, d) && Attaches(a, n, e, hop) ==>
        Serves(a, e.to, SaturatingAdd(d, e.cost), hop)
  }

  ghost predicate NothingLeads(a: Area, n: NodeId, d: u32) {
    forall hop :: !LeadsTo(a, n, d, hop)
  }

  /** No hop leads to the network at its cheapest cost, and the hop of a neighbor attached to it does not
      lead to that neighbor at the cost the network offers, although this is the cheapest. */
  ghost predicate MisledAt(a: Area, n: NodeId, d: u32, e: Edge, hop: NextHop) {
    && HasPath(a, n, d) && !HasCheaper(a, n, d) && NothingLeads(a, n, d)
    && Attaches(a, n, e, hop) && !Serves(a, e.to, SaturatingAdd(d, e.cost), hop)
  }

  ghost predicate Misled(a: Area) {
    exists n, d: u32, e, hop :: MisledAt(a, n, d, e, hop)
  }

  /** No network is best reached both through a router that is not Full and over a next hop, unless steadily. Where
      there are such ties, it can depend on the order of expansion which comes first. */
  ghost predicate Unmixed(a: Area) {
    forall n: NodeId, d: u32 ::
      n.NetworkNode? && ReachedBlind(a, n, d) && !ReachedSteadily(a, n, d) && !HasCheaper(a, n, d) ==> NothingLeads(a, n, d)
  }

  /** A network without next hops has handed the hops of its neighbors on. */
  ghost predicate HandedOver(a: Area, dist: Distances, hops: Hops, n: NodeId, e: Edge) {
    n.NetworkNode? && n in dist && NoHops(hops, n) && e.to.RouterNode? && e.to in dist
    && dist[e.to] == SaturatingAdd(dist[n], e.cost) ==>
      forall hop :: hop in HopsFor(a.neighbors, e.to.id) ==> e.to in hops && hop in hops[e.to]
  }

  /** The edge passes next hops on: it leads from us to a neighbor, or from a node that is reached steadily. */
  ghost predicate Passes(a: Area, dist: Distances, n: NodeId, e: Edge) {
    n in dist && e.to in dist && dist[e.to] == SaturatingAdd(dist[n], e.cost)
    && if n == a.Start() then e.to.RouterNode? && HasNeighbor(a, e.to.id) else ReachedSteadily(a, n, dist[n])
  }

  /** A path that begins with a router and goes on over edges that add to the cost. */
  ghost predicate Rising(a: Area, path: seq<Edge>) {
    && path != [] && path[0].to.RouterNode? && path[0].to != a.Start() && SatCost(path) < U32_MAX
    && forall i :: 2 <= i <= |path| ==> SatCost(path[..i - 1]) < SatCost(path[..i])
  }

  /** The hop belongs to the first router of such a path of this cost. */
  ghost predicate Delivered(a: Area, n: NodeId, d: u32, hop: NextHop) {
    exists path: seq<Edge> :: IsPath(a, path) && End(a, path) == n && SatCost(path) == d && Rising(a, path)
      && hop in HopsFor(a.neighbors, path[0].to.id)
  }

  /** The edge passes this hop on. */
  ghost predicate PassesHop(a: Area, dist: Distances, n: NodeId, e: Edge, hop: NextHop) {
    n in dist && e.to in dist && dist[e.to] == SaturatingAdd(dist[n], e.cost)
    && if n == a.Start() then e.to.RouterNode? && hop in HopsFor(a.neighbors, e.to.id) else Delivered(a, n, dist[n], hop)
  }

  ghost predicate PassedOn(a: Area, dist: Distances, hops: Hops, n: NodeId, e: Edge) {
    && (Passes(a, dist, n, e) ==> !NoHops(hops, e.to))
    && (forall hop :: PassesHop(a, dist, n, e, hop) ==> e.to in hops && hop in hops[e.to])
  }

  ghost predicate AllPassedOn(a: Area, dist: Distances, hops: Hops) {
    forall n, e :: n in dist && e in Edges(a, n) ==> PassedOn(a, dist, hops, n, e)
  }

  /** Equal-cost paths: the hops of the first router of every cheapest path that begins with a router and whose cost rises
      at every edge but the first and the last are among the node's next hops. */
  ghost predicate EqualCostHops(a: Area, dist: Distances, hops: Hops) {
    forall path: seq<Edge>, hop ::
      && IsPath(a, path) && path != [] && path[0].to.RouterNode? && path[0].to != a.Start()
      && (forall i :: 2 <= i < |path| ==> SatCost(path[..i - 1]) < SatCost(path[..i]))
      && End(a, path) in dist && SatCost(path) == dist[End(a, path)] < U32_MAX && hop in HopsFor(a.neighbors, path[0].to.id)
      ==> End(a, path) in hops && hop in hops[End(a, path)]
  }

  ghost predicate AllHandedOver(a: Area, dist: Distances, hops: Hops) {
    forall n, e :: n in dist && e in Edges(a, n) ==> HandedOver(a, dist, hops, n, e)
  }

  /** Nodes without next hops are our own networks, or lie behind a router that is not Full. */
  ghost predicate NoHopsExplained(a: Area, dist: Distances, hops: Hops) {
    forall n :: n in dist && n != a.Start() && NoHops(hops, n) ==>
      (n.NetworkNode? && Local(a, n, dist[n])) || ReachedBlind(a, n, dist[n])
  }

  // ---------------------------------------------------------------- relaxation

  datatype HeapNode = HeapNode(cost: u32, node: NodeId)

  datatype Tree = Tree(dist: Distances, hops: Hops, heap: multiset<HeapNode>)

  /** The hops of the neighbor entries for one router. */
  function HopsFor(neighbors: seq<SpfNeighbor>, router: u32): seq<NextHop> {
    if neighbors == [] then []
    else
      var front := HopsFor(neighbors[..|neighbors| - 1], router);
      var last := neighbors[|neighbors| - 1];
      if last.routerId == router then front + [last.hop] else front
  }

  predicate NoHops(hops: Hops, n: NodeId) {
    n !in hops || hops[n] == []
  }

  /** The candidate next hops for reaching `next` over `node`. */
  function EdgeHops(a: Area, hops: Hops, node: NodeId, next: NodeId): seq<NextHop> {
    if node == a.Start() || (node.NetworkNode? && NoHops(hops, node)) then
      match next
      case RouterNode(id) => HopsFor(a.neighbors, id)
      case NetworkNode(_, _) => []
    else if node in hops then hops[node]
    else []
  }

  /** Append what is not there yet. */
  function Merged(have: seq<NextHop>, more: seq<NextHop>): seq<NextHop> {
    if more == [] then have
    else
      var front := Merged(have, more[..|more| - 1]);
      var last := more[|more| - 1];
      if last in front then front else front + [last]
  }

  function Relax(a: Area, t: Tree, node: NodeId, cost: u32, e: Edge): Tree {
    var newCost := SaturatingAdd(cost, e.cost);
    if e.to !in t.dist || newCost < t.dist[e.to] then
      Tree(t.dist[e.to := newCost], t.hops[e.to := EdgeHops(a, t.hops, node, e.to)],
           t.heap + multiset{HeapNode(newCost, e.to)})
    else if newCost == t.dist[e.to] then
      var have := if e.to in t.hops then t.hops[e.to] else [];
      t.(hops := t.hops[e.to := Merged(have, EdgeHops(a, t.hops, node, e.to))])
    else t
  }

  // ---------------------------------------------------------------- the loop invariant

  /** Every edge out of `n` has been relaxed. */
  ghost predicate Relaxed(a: Area, dist: Distances, n: NodeId) {
    n in dist && forall e :: e in Edges(a, n) ==> e.to in dist && dist[e.to] <= SaturatingAdd(dist[n], e.cost)
  }

  /** Expanded nodes are final: nothing in the heap, current or future, is below `low`, and they are
      not above it. */
  ghost predicate Frontier(t: Tree, done: set<NodeId>, low: u32) {
    && (forall n :: n in done ==> n in t.dist && t.dist[n] <= low)
    && (forall h :: h in t.heap ==> low <= h.cost)
  }

  /** The heap holds the current entry of every unexpanded node once, besides stale ones. */
  ghost predicate HeapCurrent(t: Tree, done: set<NodeId>) {
    && (forall h :: h in t.heap ==> t.heap[h] == 1 && h.node in t.dist && t.dist[h.node] <= h.cost)
    && (forall n :: n in t.dist ==> (n in done <==> HeapNode(t.dist[n], n) !in t.heap))
    && (forall n :: n in done ==> n in t.dist)
  }

  ghost predicate Attained(a: Area, dist: Distances) {
    && a.Start() in dist && dist[a.Start()] == 0
    && (forall n :: n in dist ==> HasPath(a, n, dist[n]))
  }

  /** Holds while the edges of the node being expanded are relaxed one by one. */
  ghost predicate TreeInv(a: Area, t: Tree, done: set<NodeId>, low: u32) {
    Frontier(t, done, low) && HeapCurrent(t, done) && Attained(a, t.dist)
  }

  /** A better cost for an unexpanded node: its new heap entry is the current one, the old one stale. */
  lemma PushKeepsHeap(t: Tree, done: set<NodeId>, low: u32, next: NodeId, newCost: u32, hops: Hops)
    requires Frontier(t, done, low) && HeapCurrent(t, done) && low <= newCost
    requires next !in t.dist || newCost < t.dist[next]
    ensures next !in done
    ensures var t' := Tree(t.dist[next := newCost], hops, t.heap + multiset{HeapNode(newCost, next)});
            Frontier(t', done, low) && HeapCurrent(t', done)
  {
    assert next !in done;
    var h := HeapNode(newCost, next);
    assert h !in t.heap;
    var t' := Tree(t.dist[next := newCost], hops, t.heap + multiset{h});
    forall g | g in t'.heap ensures t'.heap[g] == 1 && g.node in t'.dist && t'.dist[g.node] <= g.cost && low <= g.cost {
      if g != h {
        assert g in t.heap;
      }
    }
    forall n | n in t'.dist ensures n in done <==> HeapNode(t'.dist[n], n) !in t'.heap {
      if n != next {
        assert HeapNode(t.dist[n], n) in t.heap <==> HeapNode(t'.dist[n], n) in t'.heap;
      }
    }
  }

  lemma ImprovedAttained(a: Area, dist: Distances, node: NodeId, e: Edge)
    requires Attained(a, dist) && node in dist && e in Edges(a, node) && e.to != a.Start()
    ensures Attained(a, dist[e.to := SaturatingAdd(dist[node], e.cost)])
  {
    hide Edges, IsPath, End, SatCost;
    assert HasPath(a, e.to, SaturatingAdd(dist[node], e.cost)) by {
      var path :| IsPath(a, path) && End(a, path) == node && SatCost(path) == dist[node];
      ExtendPath(a, path, e);
    }
    hide HasPath;
  }

  /** Relaxing an edge of the node being expanded keeps the invariant and settles that edge. */
  lemma RelaxKeepsTree(a: Area, t: Tree, done: set<NodeId>, node: NodeId, e: Edge)
    requires node in t.dist && TreeInv(a, t, done, t.dist[node]) && node in done && e in Edges(a, node)
    ensures var t' := Relax(a, t, node, t.dist[node], e);
            && TreeInv(a, t', done, t.dist[node])
            && (forall n :: n in t.dist ==> n in t'.dist && t'.dist[n] <= t.dist[n])
            && (forall n :: n in done ==> t'.dist[n] == t.dist[n])
            && e.to in t'.dist && t'.dist[e.to] <= SaturatingAdd(t.dist[node], e.cost)
  {
    hide EdgeHops, Merged, Edges, HasPath, Frontier, HeapCurrent;
    var cost := t.dist[node];
    var newCost := SaturatingAdd(cost, e.cost);
    DoneKnown(t, done, cost);
    if e.to !in t.dist || newCost < t.dist[e.to] {
      PushKeepsHeap(t, done, cost, e.to, newCost, t.hops[e.to := EdgeHops(a, t.hops, node, e.to)]);
      assert e.to != a.Start();
      ImprovedAttained(a, t.dist, node, e);
    } else {
      HopsDoNotMatter(a, t, Relax(a, t, node, cost, e), done, cost);
    }
  }

  lemma HopsDoNotMatter(a: Area, t: Tree, t': Tree, done: set<NodeId>, low: u32)
    requires TreeInv(a, t, done, low) && t'.dist == t.dist && t'.heap == t.heap
    ensures TreeInv(a, t', done, low)
  {
    hide HasPath;
  }

  lemma DoneKnown(t: Tree, done: set<NodeId>, low: u32)
    requires Frontier(t, done, low)
    ensures forall n :: n in done ==> n in t.dist
  {
  }

  /** Relaxing more edges never undoes a relaxation. */
  lemma RelaxedStays(a: Area, dist: Distances, dist': Distances, n: NodeId)
    requires Relaxed(a, dist, n) && n in dist' && dist'[n] == dist[n]
    requires forall m :: m in dist ==> m in dist' && dist'[m] <= dist[m]
    ensures Relaxed(a, dist', n)
  {
  }

  // ---------------------------------------------------------------- next hops

  /** Hops recorded so far: they serve until a cheaper path is found. */
  ghost predicate HopsServe(a: Area, dist: Distances, hops: Hops) {
    forall n, hop :: n in hops && hop in hops[n] ==> n in dist && Serves(a, n, dist[n], hop)
  }

  /** What makes it safe to expand a network without next hops as if it were our own. */
  ghost predicate SafeToExpand(a: Area, n: NodeId, d: u32) {
    forall e, hop :: ReachedBlind(a, n, d) && !ReachedSteadily(a, n, d) && Attaches(a, n, e, hop) ==>
      Serves(a, e.to, SaturatingAdd(d, e.cost), hop)
  }

  /** A node reached steadily has next hops by the time it is expanded. */
  ghost predicate Fed(a: Area, hops: Hops, n: NodeId, d: u32) {
    && (ReachedSteadily(a, n, d) ==> n != a.Start() && !NoHops(hops, n))
    && (forall hop :: Delivered(a, n, d, hop) ==> n != a.Start() && n in hops && hop in hops[n])
  }

  lemma {:induction false} HopsForMember(neighbors: seq<SpfNeighbor>, router: u32, hop: NextHop)
    ensures hop in HopsFor(neighbors, router) <==>
            exists i :: 0 <= i < |neighbors| && neighbors[i] == SpfNeighbor(router, hop)
  {
    if neighbors != [] {
      var n := |neighbors| - 1;
      HopsForMember(neighbors[..n], router, hop);
      if i :| 0 <= i < |neighbors| && neighbors[i] == SpfNeighbor(router, hop) {
        assert i < n ==> neighbors[..n][i] == SpfNeighbor(router, hop);
      }
      assert forall i :: 0 <= i < n ==> neighbors[..n][i] == neighbors[i];
    }
  }

  lemma {:induction false} MergedMember(have: seq<NextHop>, more: seq<NextHop>, hop: NextHop)
    ensures hop in Merged(have, more) <==> hop in have || hop in more
  {
    if more != [] {
      var n := |more| - 1;
      MergedMember(have, more[..n], hop);
      assert more == more[..n] + [more[n]];
    }
  }

  /** A hop of a neighbor leads to the router behind a path that goes through no router before it. */
  lemma DirectHop(a: Area, path: seq<Edge>, e: Edge, hop: NextHop)
    requires IsPath(a, path) && e in Edges(a, End(a, path)) && FirstRouter(path).None? && e.to.RouterNode?
    requires hop in HopsFor(a.neighbors, e.to.id)
    ensures LeadsTo(a, e.to, SaturatingAdd(SatCost(path), e.cost), hop)
  {
    hide Edges;
    ExtendPath(a, path, e);
    FirstRouterExtends(path, e);
    HopsForMember(a.neighbors, e.to.id, hop);
    var i :| 0 <= i < |a.neighbors| && a.neighbors[i] == SpfNeighbor(e.to.id, hop);
    assert FirstRouter(path + [e]) == Some(a.neighbors[i].routerId);
  }

  lemma InheritedHop(a: Area, n: NodeId, d: u32, e: Edge, hop: NextHop)
    requires LeadsTo(a, n, d, hop) && e in Edges(a, n)
    ensures LeadsTo(a, e.to, SaturatingAdd(d, e.cost), hop)
  {
    hide Edges;
    var path, i :|
      && IsPath(a, path) && End(a, path) == n && SatCost(path) == d
      && 0 <= i < |a.neighbors| && a.neighbors[i].hop == hop && FirstRouter(path) == Some(a.neighbors[i].routerId);
    ExtendPath(a, path, e);
    FirstRouterExtends(path, e);
    assert FirstRouter(path + [e]) == Some(a.neighbors[i].routerId);
  }

  lemma SingleEdge(a: Area, e: Edge)
    requires e in Edges(a, a.Start())
    ensures IsPath(a, [e]) && End(a, [e]) == e.to && SatCost([e]) == SaturatingAdd(0, e.cost)
  {
    EmptyPath(a);
    ExtendPath(a, [], e);
    assert [] + [e] == [e];
  }

  /** Whatever `EdgeHops` offers over a node with a final distance serves `e.to` at the new cost. */
  lemma EdgeHopsServe(a: Area, t: Tree, node: NodeId, e: Edge, hop: NextHop)
    requires HopsServe(a, t.dist, t.hops) && NoHopsExplained(a, t.dist, t.hops) && Attained(a, t.dist)
    requires node in t.dist && !HasCheaper(a, node, t.dist[node]) && SafeToExpand(a, node, t.dist[node])
    requires Fed(a, t.hops, node, t.dist[node])
    requires e in Edges(a, node) && hop in EdgeHops(a, t.hops, node, e.to)
    ensures Serves(a, e.to, SaturatingAdd(t.dist[node], e.cost), hop)
  {
    hide LeadsTo, HasCheaper, ReachedBlind, ReachedSteadily, Delivered, Edges, HopsFor, IsPath;
    if node == a.Start() {
      EmptyPath(a);
      DirectHop(a, [], e, hop);
    } else if node.NetworkNode? && NoHops(t.hops, node) {
      if !ReachedBlind(a, node, t.dist[node]) {
        var f :| f in Edges(a, a.Start()) && f.to == node && SatCost([f]) == t.dist[node];
        SingleEdge(a, f);
        assert [f][1..] == [] && FirstRouter([f]).None?;
        DirectHop(a, [f], e, hop);
      } else {
        assert Attaches(a, node, e, hop);
      }
    } else {
      assert LeadsTo(a, node, t.dist[node], hop);
      InheritedHop(a, node, t.dist[node], e, hop);
    }
  }

  lemma HasNeighborHops(a: Area, router: u32)
    requires HasNeighbor(a, router)
    ensures HopsFor(a.neighbors, router) != []
  {
    var i :| 0 <= i < |a.neighbors| && a.neighbors[i].routerId == router;
    var hop := a.neighbors[i].hop;
    assert a.neighbors[i] == SpfNeighbor(router, hop);
    HopsForMember(a.neighbors, router, hop);
  }

  lemma BlindEdge(a: Area, path: seq<Edge>, e: Edge)
    requires IsPath(a, path) && e in Edges(a, End(a, path)) && FirstRouter(path).None?
    requires e.to.RouterNode? && e.to != a.Start() && HopsFor(a.neighbors, e.to.id) == []
    ensures ReachedBlind(a, e.to, SaturatingAdd(SatCost(path), e.cost))
  {
    hide Edges, SatCost, HopsFor;
    ExtendPath(a, path, e);
    FirstRouterExtends(path, e);
    if HasNeighbor(a, e.to.id) {
      HasNeighborHops(a, e.to.id);
    }
    assert Blind(a, path + [e]);
  }

  lemma BlindExtends(a: Area, n: NodeId, d: u32, e: Edge)
    requires ReachedBlind(a, n, d) && e in Edges(a, n)
    ensures ReachedBlind(a, e.to, SaturatingAdd(d, e.cost))
  {
    hide Edges, HasNeighbor;
    var path :| IsPath(a, path) && End(a, path) == n && SatCost(path) == d && Blind(a, path);
    ExtendPath(a, path, e);
    FirstRouterExtends(path, e);
    assert Blind(a, path + [e]);
  }

  /** A node that is offered no hops is one of our networks or lies behind a router that is not Full. */
  lemma EdgeHopsFound(a: Area, t: Tree, node: NodeId, e: Edge)
    requires NoHopsExplained(a, t.dist, t.hops) && Attained(a, t.dist) && node in t.dist && e in Edges(a, node)
    requires e.to != a.Start() && EdgeHops(a, t.hops, node, e.to) == []
    ensures (e.to.NetworkNode? && Local(a, e.to, SaturatingAdd(t.dist[node], e.cost)))
            || ReachedBlind(a, e.to, SaturatingAdd(t.dist[node], e.cost))
  {
    if node == a.Start() {
      if e.to.RouterNode? {
        EmptyPath(a);
        BlindEdge(a, [], e);
      } else {
        SingleEdge(a, e);
      }
    } else if ReachedBlind(a, node, t.dist[node]) {
      BlindExtends(a, node, t.dist[node], e);
    } else {
      var f :| f in Edges(a, a.Start()) && f.to == node && SatCost([f]) == t.dist[node];
      SingleEdge(a, f);
      assert [f][1..] == [] && FirstRouter([f]).None?;
      assert e.to.RouterNode?;
      BlindEdge(a, [f], e);
    }
  }

  /** Giving a node a list of hops that serve it at its distance keeps all of them serving. */
  lemma UpdateKeepsServing(a: Area, t: Tree, n: NodeId, d: u32, list: seq<NextHop>)
    requires HopsServe(a, t.dist, t.hops) && forall hop :: hop in list ==> Serves(a, n, d, hop)
    ensures HopsServe(a, t.dist[n := d], t.hops[n := list])
  {
    hide Serves;
    var hops := t.hops[n := list];
    forall m, hop | m in hops && hop in hops[m] ensures m in t.dist[n := d] && Serves(a, m, t.dist[n := d][m], hop) {
      if m != n {
        assert m in t.hops && hop in t.hops[m];
      }
    }
  }

  lemma UpdateKeepsExplained(a: Area, t: Tree, n: NodeId, d: u32, list: seq<NextHop>)
    requires NoHopsExplained(a, t.dist, t.hops)
    requires n != a.Start() && list == [] ==> (n.NetworkNode? && Local(a, n, d)) || ReachedBlind(a, n, d)
    ensures NoHopsExplained(a, t.dist[n := d], t.hops[n := list])
  {
    hide Local, ReachedBlind;
    var dist, hops := t.dist[n := d], t.hops[n := list];
    forall m | m in dist && m != a.Start() && NoHops(hops, m)
      ensures (m.NetworkNode? && Local(a, m, dist[m])) || ReachedBlind(a, m, dist[m])
    {
      if m != n {
        assert m in t.dist && NoHops(t.hops, m);
      }
    }
  }

  lemma RelaxKeepsExplained(a: Area, t: Tree, node: NodeId, e: Edge)
    requires NoHopsExplained(a, t.dist, t.hops) && Attained(a, t.dist) && node in t.dist && e in Edges(a, node)
    ensures var t' := Relax(a, t, node, t.dist[node], e); NoHopsExplained(a, t'.dist, t'.hops)
  {
    hide Merged, EdgeHops, Edges, Local, ReachedBlind, NoHopsExplained, Attained;
    var newCost := SaturatingAdd(t.dist[node], e.cost);
    var offered := EdgeHops(a, t.hops, node, e.to);
    if e.to != a.Start() && offered == [] {
      EdgeHopsFound(a, t, node, e);
    }
    if e.to !in t.dist || newCost < t.dist[e.to] {
      UpdateKeepsExplained(a, t, e.to, newCost, offered);
    } else if newCost == t.dist[e.to] {
      var have := if e.to in t.hops then t.hops[e.to] else [];
      if offered != [] {
        MergedMember(have, offered, offered[0]);
      }
      assert t.dist[e.to := newCost] == t.dist;
      UpdateKeepsExplained(a, t, e.to, newCost, Merged(have, offered));
    }
  }

  lemma RelaxKeepsHops(a: Area, t: Tree, node: NodeId, e: Edge)
    requires HopsServe(a, t.dist, t.hops) && NoHopsExplained(a, t.dist, t.hops) && Attained(a, t.dist)
    requires node in t.dist && !HasCheaper(a, node, t.dist[node]) && SafeToExpand(a, node, t.dist[node])
    requires Fed(a, t.hops, node, t.dist[node]) && e in Edges(a, node)
    ensures var t' := Relax(a, t, node, t.dist[node], e); HopsServe(a, t'.dist, t'.hops)
  {
    hide Merged, EdgeHops, Edges, Serves, HasCheaper, SafeToExpand, Fed, NoHopsExplained, Attained, HopsServe;
    var newCost := SaturatingAdd(t.dist[node], e.cost);
    var offered := EdgeHops(a, t.hops, node, e.to);
    forall hop | hop in offered ensures Serves(a, e.to, newCost, hop) {
      EdgeHopsServe(a, t, node, e, hop);
    }
    if e.to !in t.dist || newCost < t.dist[e.to] {
      UpdateKeepsServing(a, t, e.to, newCost, offered);
    } else if newCost == t.dist[e.to] {
      var have := if e.to in t.hops then t.hops[e.to] else [];
      forall hop | hop in Merged(have, offered) ensures Serves(a, e.to, newCost, hop) {
        MergedMember(have, offered, hop);
        ServesAt(a, t, e.to, hop);
      }
      assert t.dist[e.to := newCost] == t.dist;
      UpdateKeepsServing(a, t, e.to, newCost, Merged(have, offered));
    }
  }

  lemma ServesAt(a: Area, t: Tree, n: NodeId, hop: NextHop)
    requires HopsServe(a, t.dist, t.hops) && n in t.dist
    ensures n in t.hops && hop in t.hops[n] ==> Serves(a, n, t.dist[n], hop)
  {
    hide Serves;
  }

  // ---------------------------------------------------------------- handing over

  /** Equal-cost hops are added, never taken away. */
  lemma RelaxKeepsMembers(a: Area, t: Tree, node: NodeId, cost: u32, e: Edge, n: NodeId)
    requires n in t.dist && var t' := Relax(a, t, node, cost, e); n in t'.dist && t'.dist[n] == t.dist[n]
    ensures var t' := Relax(a, t, node, cost, e);
            && (forall hop :: n in t.hops && hop in t.hops[n] ==> n in t'.hops && hop in t'.hops[n])
            && (NoHops(t'.hops, n) ==> NoHops(t.hops, n))
  {
    hide Merged, EdgeHops;
    if e.to == n && n in t.hops && SaturatingAdd(cost, e.cost) == t.dist[n] {
      var have, offered := t.hops[n], EdgeHops(a, t.hops, node, n);
      forall hop | hop in have ensures hop in Merged(have, offered) {
        MergedMember(have, offered, hop);
      }
      assert have != [] ==> have[0] in have;
    }
  }

  /** What an expanded network has handed over stays handed over. */
  lemma HandedOverStays(a: Area, t: Tree, node: NodeId, cost: u32, f: Edge, n: NodeId, e: Edge)
    requires HandedOver(a, t.dist, t.hops, n, e) && n in t.dist && e.to in t.dist
    requires t.dist[e.to] <= SaturatingAdd(t.dist[n], e.cost)
    requires var t' := Relax(a, t, node, cost, f);
             n in t'.dist && t'.dist[n] == t.dist[n] && e.to in t'.dist && t'.dist[e.to] <= t.dist[e.to]
    ensures var t' := Relax(a, t, node, cost, f); HandedOver(a, t'.dist, t'.hops, n, e)
  {
    var t' := Relax(a, t, node, cost, f);
    hide Relax, HopsFor;
    RelaxKeepsMembers(a, t, node, cost, f, n);
    if t'.dist[e.to] == t.dist[e.to] {
      RelaxKeepsMembers(a, t, node, cost, f, e.to);
    }
  }

  /** What has been passed on stays. */
  lemma PassedOnStays(a: Area, t: Tree, node: NodeId, cost: u32, f: Edge, n: NodeId, e: Edge)
    requires PassedOn(a, t.dist, t.hops, n, e) && n in t.dist && e.to in t.dist
    requires t.dist[e.to] <= SaturatingAdd(t.dist[n], e.cost)
    requires var t' := Relax(a, t, node, cost, f);
             n in t'.dist && t'.dist[n] == t.dist[n] && e.to in t'.dist && t'.dist[e.to] <= t.dist[e.to]
    ensures var t' := Relax(a, t, node, cost, f); PassedOn(a, t'.dist, t'.hops, n, e)
  {
    var t' := Relax(a, t, node, cost, f);
    hide Relax, HasNeighbor, ReachedSteadily, Delivered, HopsFor;
    if t'.dist[e.to] == t.dist[e.to] {
      RelaxKeepsMembers(a, t, node, cost, f, e.to);
      forall hop | PassesHop(a, t'.dist, n, e, hop) ensures PassesHop(a, t.dist, n, e, hop) {
      }
    }
  }

  /** Relaxing an edge out of a node that has been fed passes its next hops on. */
  lemma RelaxPassesOn(a: Area, t: Tree, node: NodeId, e: Edge)
    requires node in t.dist && Fed(a, t.hops, node, t.dist[node])
    ensures var t' := Relax(a, t, node, t.dist[node], e);
            node in t'.dist && t'.dist[node] == t.dist[node] ==> PassedOn(a, t'.dist, t'.hops, node, e)
  {
    hide Merged, HopsFor, HasNeighbor, ReachedSteadily, Delivered;
    var t' := Relax(a, t, node, t.dist[node], e);
    var offered := EdgeHops(a, t.hops, node, e.to);
    if node in t'.dist && t'.dist[node] == t.dist[node] && e.to in t'.dist && t'.dist[e.to] == SaturatingAdd(t.dist[node], e.cost) {
      forall hop | hop in offered ensures e.to in t'.hops && hop in t'.hops[e.to] {
        MergedMember(if e.to in t.hops then t.hops[e.to] else [], offered, hop);
      }
      if Passes(a, t'.dist, node, e) {
        if node == a.Start() {
          HasNeighborHops(a, e.to.id);
        }
        assert offered[0] in offered;
      }
      forall hop | PassesHop(a, t'.dist, node, e, hop) ensures hop in offered {
      }
    }
  }

  /** Relaxing an edge out of a network without next hops hands the neighbor's hops over. */
  lemma RelaxHandsOver(a: Area, t: Tree, node: NodeId, e: Edge)
    requires node in t.dist
    ensures var t' := Relax(a, t, node, t.dist[node], e);
            node in t'.dist && t'.dist[node] == t.dist[node] ==> HandedOver(a, t'.dist, t'.hops, node, e)
  {
    hide Merged, HopsFor;
    var newCost := SaturatingAdd(t.dist[node], e.cost);
    if node.NetworkNode? && e.to.RouterNode? && e.to in t.dist && newCost == t.dist[e.to] {
      var have, offered := if e.to in t.hops then t.hops[e.to] else [], EdgeHops(a, t.hops, node, e.to);
      forall hop | hop in offered ensures hop in Merged(have, offered) {
        MergedMember(have, offered, hop);
      }
    }
  }

  // ---------------------------------------------------------------- taking entries off the heap

  lemma {:induction false} SetMinimum(entries: set<HeapNode>)
    requires entries != {}
    ensures exists top :: top in entries && forall h :: h in entries ==> top.cost <= h.cost
  {
    var x :| x in entries;
    if entries != {x} {
      SetMinimum(entries - {x});
      var y :| y in entries - {x} && forall h :: h in entries - {x} ==> y.cost <= h.cost;
      var top := if x.cost <= y.cost then x else y;
      forall h | h in entries ensures top.cost <= h.cost {
        assert h == x || h in entries - {x};
      }
    }
  }

  lemma HeapMinimum(heap: multiset<HeapNode>)
    requires heap != multiset{}
    ensures exists top :: top in heap && forall h :: h in heap ==> top.cost <= h.cost
  {
    var entries := set h | h in heap;
    var x :| x in heap;
    assert x in entries;
    SetMinimum(entries);
    var top :| top in entries && forall h :: h in entries ==> top.cost <= h.cost;
    assert forall h :: h in heap ==> h in entries;
  }

  /** A stale entry can be dropped. */
  lemma PopStale(a: Area, t: Tree, done: set<NodeId>, low: u32, top: HeapNode)
    requires TreeInv(a, t, done, low) && top in t.heap && t.dist[top.node] != top.cost
    ensures TreeInv(a, t.(heap := t.heap - multiset{top}), done, low)
  {
    hide HasPath;
    var t' := t.(heap := t.heap - multiset{top});
    assert forall h :: h in t'.heap <==> h in t.heap && h != top;
  }

  /** A current entry of minimal cost makes its node final. */
  lemma PopCurrent(a: Area, t: Tree, done: set<NodeId>, low: u32, top: HeapNode)
    requires TreeInv(a, t, done, low) && top in t.heap && t.dist[top.node] == top.cost
    requires forall h :: h in t.heap ==> top.cost <= h.cost
    ensures top.node !in done
    ensures TreeInv(a, t.(heap := t.heap - multiset{top}), done + {top.node}, top.cost)
  {
    hide HasPath, Attained;
    var heap := t.heap - multiset{top};
    PoppedHeap(t.heap, top);
    forall n | n in t.dist ensures n in done + {top.node} <==> HeapNode(t.dist[n], n) !in heap {
      assert n != top.node ==> HeapNode(t.dist[n], n) != top;
    }
  }

  lemma PoppedHeap(heap: multiset<HeapNode>, top: HeapNode)
    requires top in heap && heap[top] == 1
    ensures var rest := heap - multiset{top};
            forall h :: (h in rest <==> h in heap && h != top) && (h in rest ==> rest[h] == heap[h])
  {
  }

  /** All nodes the search can meet. */
  ghost function Nodes(a: Area): set<NodeId> {
    {a.Start()}
    + (set id, e | id in a.routers && e in LinkEdges(a.routers[id]) :: e.to)
    + (set k, e | k in a.networks && e in AttachedEdges(a.networks[k]) :: e.to)
  }

  lemma NodesClosed(a: Area, n: NodeId, e: Edge)
    requires e in Edges(a, n)
    ensures e.to in Nodes(a)
  {
    match n
    case RouterNode(id) => assert e in LinkEdges(a.routers[id]);
    case NetworkNode(router, ifid) => assert e in AttachedEdges(a.networks[(router, ifid)]);
  }

  /** A path is a shorter path and one more edge. */
  lemma PathFront(a: Area, path: seq<Edge>)
    requires IsPath(a, path) && path != []
    ensures var front, e := path[..|path| - 1], path[|path| - 1];
            && IsPath(a, front) && e in Edges(a, End(a, front)) && End(a, path) == e.to
            && SatCost(path) == SaturatingAdd(SatCost(front), e.cost)
  {
    hide Edges;
    var front := path[..|path| - 1];
    assert forall i :: 0 <= i <= |front| ==> NodeAt(a, front, i) == NodeAt(a, path, i);
  }

  /** With every node expanded, no path is cheaper than the recorded distance. */
  lemma {:induction false} NoCheaperPath(a: Area, dist: Distances, path: seq<Edge>)
    requires Attained(a, dist) && (forall n :: n in dist ==> Relaxed(a, dist, n)) && IsPath(a, path)
    ensures End(a, path) in dist && dist[End(a, path)] <= SatCost(path)
  {
    if path == [] {
      EmptyPath(a);
    } else {
      hide Edges, IsPath, End, SatCost, HasPath;
      PathFront(a, path);
      NoCheaperPath(a, dist, path[..|path| - 1]);
    }
  }

  // ---------------------------------------------------------------- the algorithm

  /** The edge list of a node, built link by link. */
  method CollectEdges(a: Area, node: NodeId) returns (edges: seq<Edge>)
    ensures edges == Edges(a, node)
  {
    edges := [];
    match node
    case RouterNode(id) =>
      if id in a.routers {
        var links := a.routers[id];
        for i := 0 to |links|
          invariant edges == LinkEdges(links[..i])
        {
          assert links[..i + 1][..i] == links[..i];
          var l := links[i];
          if l.linkType == POINT_TO_POINT {
            edges := edges + [Edge(RouterNode(l.neighborRouterId), l.metric)];
          } else if l.linkType == TRANSIT_NETWORK {
            edges := edges + [Edge(NetworkNode(l.neighborRouterId, l.neighborInterfaceId), l.metric)];
          }
        }
        assert links[..|links|] == links;
      }
    case NetworkNode(router, ifid) =>
      if (router, ifid) in a.networks {
        edges := AttachedEdges(a.networks[(router, ifid)]);
      }
  }

  method MergeHops(have: seq<NextHop>, more: seq<NextHop>) returns (merged: seq<NextHop>)
    ensures merged == Merged(have, more)
  {
    merged := have;
    for i := 0 to |more|
      invariant merged == Merged(have, more[..i])
    {
      assert more[..i + 1][..i] == more[..i];
      if more[i] !in merged {
        merged := merged + [more[i]];
      }
    }
    assert more[..|more|] == more;
  }

  /** Relax one edge: improve and push, or merge equal-cost hops. */
  method RelaxEdge(a: Area, t: Tree, node: NodeId, cost: u32, e: Edge) returns (t': Tree)
    ensures t' == Relax(a, t, node, cost, e)
  {
    var newCost := SaturatingAdd(cost, e.cost);
    var strictlyBetter := e.to !in t.dist || newCost < t.dist[e.to];
    var equalCost := e.to in t.dist && newCost == t.dist[e.to];
    if !strictlyBetter && !equalCost {
      return t;
    }
    var edgeHops := EdgeHops(a, t.hops, node, e.to);
    if strictlyBetter {
      t' := Tree(t.dist[e.to := newCost], t.hops[e.to := edgeHops], t.heap + multiset{HeapNode(newCost, e.to)});
    } else {
      var merged := MergeHops(if e.to in t.hops then t.hops[e.to] else [], edgeHops);
      t' := t.(hops := t.hops[e.to := merged]);
    }
  }

  /** What holds between two edges of the node being expanded. */
  ghost predicate Expanding(a: Area, t: Tree, done: set<NodeId>, node: NodeId, cost: u32) {
    && TreeInv(a, t, done, cost) && node in done && node in t.dist && t.dist[node] == cost && a.Start() in done
    && NoHopsExplained(a, t.dist, t.hops) && !HasCheaper(a, node, cost) && Fed(a, t.hops, node, cost)
    && (Sheltered(a) ==> HopsServe(a, t.dist, t.hops) && SafeToExpand(a, node, cost))
    && t.dist.Keys <= Nodes(a)
    && (forall n :: n in done && n != node ==> Relaxed(a, t.dist, n) && HandedOverBy(a, t, n))
  }

  /** Everything the node has to hand over or to pass on has been. */
  ghost predicate HandedOverBy(a: Area, t: Tree, n: NodeId) {
    forall e :: e in Edges(a, n) ==> HandedOver(a, t.dist, t.hops, n, e) && PassedOn(a, t.dist, t.hops, n, e)
  }

  ghost predicate EdgesSettled(a: Area, t: Tree, node: NodeId, cost: u32, edges: seq<Edge>) {
    forall j :: 0 <= j < |edges| ==>
      && edges[j].to in t.dist && t.dist[edges[j].to] <= SaturatingAdd(cost, edges[j].cost)
      && HandedOver(a, t.dist, t.hops, node, edges[j]) && PassedOn(a, t.dist, t.hops, node, edges[j])
  }

  lemma RelaxKeepsExpanding(a: Area, t: Tree, done: set<NodeId>, node: NodeId, cost: u32, e: Edge, settled: seq<Edge>)
    requires Expanding(a, t, done, node, cost) && e in Edges(a, node) && EdgesSettled(a, t, node, cost, settled)
    ensures var t' := Relax(a, t, node, cost, e);
            Expanding(a, t', done, node, cost) && EdgesSettled(a, t', node, cost, settled + [e])
  {
    hide TreeInv, HopsServe, NoHopsExplained, SafeToExpand, Fed, Sheltered, HasCheaper, Nodes, Edges, Relax, Relaxed,
      HandedOver, PassedOn, HandedOverBy;
    var t' := Relax(a, t, node, cost, e);
    RelaxKeepsTree(a, t, done, node, e);
    TreeAttained(a, t, done, cost);
    RelaxKeepsExplained(a, t, node, e);
    if Sheltered(a) {
      RelaxKeepsHops(a, t, node, e);
    }
    RelaxGrows(a, t, node, cost, e);
    NodesClosed(a, node, e);
    forall n | n in done && n != node ensures Relaxed(a, t'.dist, n) && HandedOverBy(a, t', n) {
      RelaxedKnown(a, t.dist, n);
      RelaxedStays(a, t.dist, t'.dist, n);
      HandedOverByStays(a, t, node, cost, e, n);
    }
    RelaxHandsOver(a, t, node, e);
    RelaxPassesOn(a, t, node, e);
    FedStays(a, t, node, cost, e);
    forall j | 0 <= j < |settled|
      ensures HandedOver(a, t'.dist, t'.hops, node, settled[j]) && PassedOn(a, t'.dist, t'.hops, node, settled[j])
    {
      HandedOverStays(a, t, node, cost, e, node, settled[j]);
      PassedOnStays(a, t, node, cost, e, node, settled[j]);
    }
  }

  lemma FedStays(a: Area, t: Tree, node: NodeId, cost: u32, e: Edge)
    requires node in t.dist && Fed(a, t.hops, node, cost)
    requires var t' := Relax(a, t, node, cost, e); node in t'.dist && t'.dist[node] == t.dist[node]
    ensures Fed(a, Relax(a, t, node, cost, e).hops, node, cost)
  {
    hide Relax, ReachedSteadily, Delivered;
    RelaxKeepsMembers(a, t, node, cost, e, node);
  }

  lemma HandedOverByStays(a: Area, t: Tree, node: NodeId, cost: u32, f: Edge, n: NodeId)
    requires Relaxed(a, t.dist, n) && HandedOverBy(a, t, n)
    requires var t' := Relax(a, t, node, cost, f);
             n in t'.dist && t'.dist[n] == t.dist[n] && forall m :: m in t.dist ==> m in t'.dist && t'.dist[m] <= t.dist[m]
    ensures HandedOverBy(a, Relax(a, t, node, cost, f), n)
  {
    hide Relax, HandedOver, PassedOn, Edges;
    forall e | e in Edges(a, n)
      ensures var t' := Relax(a, t, node, cost, f);
              HandedOver(a, t'.dist, t'.hops, n, e) && PassedOn(a, t'.dist, t'.hops, n, e)
    {
      HandedOverStays(a, t, node, cost, f, n, e);
      PassedOnStays(a, t, node, cost, f, n, e);
    }
  }

  lemma AllEdgesSettled(a: Area, t: Tree, node: NodeId)
    requires node in t.dist && EdgesSettled(a, t, node, t.dist[node], Edges(a, node))
    ensures Relaxed(a, t.dist, node) && HandedOverBy(a, t, node)
  {
    hide Edges, HandedOver, PassedOn;
  }

  /** Relax every edge of the node just taken off the heap. */
  method Expand(a: Area, t: Tree, node: NodeId, ghost done: set<NodeId>) returns (t': Tree)
    requires node in t.dist && Expanding(a, t, done, node, t.dist[node])
    ensures Expanding(a, t', done, node, t.dist[node]) && Relaxed(a, t'.dist, node) && HandedOverBy(a, t', node)
  {
    hide Expanding, Edges, Relax, Relaxed, HandedOver, PassedOn, HandedOverBy;
    var cost := t.dist[node];
    var edges := CollectEdges(a, node);
    t' := t;
    for k := 0 to |edges|
      invariant Expanding(a, t', done, node, cost)
      invariant EdgesSettled(a, t', node, cost, edges[..k])
    {
      RelaxKeepsExpanding(a, t', done, node, cost, edges[k], edges[..k]);
      assert edges[..k + 1] == edges[..k] + [edges[k]];
      t' := RelaxEdge(a, t', node, cost, edges[k]);
    }
    assert edges[..|edges|] == edges;
    ExpandingCost(a, t', done, node, cost);
    AllEdgesSettled(a, t', node);
  }

  lemma ExpandingCost(a: Area, t: Tree, done: set<NodeId>, node: NodeId, cost: u32)
    requires Expanding(a, t, done, node, cost)
    ensures node in t.dist && t.dist[node] == cost
  {
    hide TreeInv, HopsServe, NoHopsExplained, SafeToExpand, Fed, Sheltered, HasCheaper, Nodes, Relaxed, HandedOverBy;
  }

  lemma RelaxedKnown(a: Area, dist: Distances, n: NodeId)
    requires Relaxed(a, dist, n)
    ensures n in dist
  {
  }

  lemma TreeAttained(a: Area, t: Tree, done: set<NodeId>, low: u32)
    requires TreeInv(a, t, done, low)
    ensures Attained(a, t.dist)
  {
  }

  lemma RelaxGrows(a: Area, t: Tree, node: NodeId, cost: u32, e: Edge)
    ensures Relax(a, t, node, cost, e).dist.Keys <= t.dist.Keys + {e.to}
  {
  }

  /** What holds between two nodes. */
  ghost predicate Searching(a: Area, t: Tree, done: set<NodeId>, low: u32) {
    && TreeInv(a, t, done, low)
    && NoHopsExplained(a, t.dist, t.hops)
    && (Sheltered(a) ==> HopsServe(a, t.dist, t.hops))
    && t.dist.Keys <= Nodes(a)
    && (forall n :: n in done ==> n in t.dist && Relaxed(a, t.dist, n) && HandedOverBy(a, t, n))
    && (forall n :: n in t.dist && n != a.Start() ==> a.Start() in done)
  }

  lemma SearchingHeap(a: Area, t: Tree, done: set<NodeId>, low: u32, top: HeapNode)
    requires Searching(a, t, done, low) && top in t.heap
    ensures top.node in t.dist && top.node in Nodes(a)
  {
    hide Relaxed, HopsServe, NoHopsExplained, Sheltered, HasPath, HandedOverBy;
  }

  lemma SkipStale(a: Area, t: Tree, done: set<NodeId>, low: u32, top: HeapNode)
    requires Searching(a, t, done, low) && top in t.heap && top.node in t.dist && t.dist[top.node] != top.cost
    ensures Searching(a, t.(heap := t.heap - multiset{top}), done, low)
  {
    hide Relaxed, TreeInv, Sheltered, Nodes, HopsServe, NoHopsExplained, HandedOver, PassedOn;
    PopStale(a, t, done, low, top);
  }

  lemma StartExpanding(a: Area, t: Tree, done: set<NodeId>, low: u32, top: HeapNode)
    requires Searching(a, t, done, low) && top in t.heap && top.node in t.dist && t.dist[top.node] == top.cost
    requires forall h :: h in t.heap ==> top.cost <= h.cost
    ensures top.node !in done
    ensures Expanding(a, t.(heap := t.heap - multiset{top}), done + {top.node}, top.node, top.cost)
  {
    hide Relaxed, TreeInv, Sheltered, Nodes, HopsServe, NoHopsExplained, SafeToExpand, Fed, HasCheaper, HandedOver, PassedOn;
    PopCurrent(a, t, done, low, top);
    MinimumIsFinal(a, t, done, low, top);
    MinimumIsFed(a, t, done, low, top);
    if Sheltered(a) {
      MinimumIsSafe(a, top);
    }
  }

  /** Paths cheaper than everything in the heap end in expanded nodes. */
  lemma {:induction false} CheapPathsDone(a: Area, t: Tree, done: set<NodeId>, low: u32, top: u32, path: seq<Edge>)
    requires TreeInv(a, t, done, low) && (forall n :: n in done ==> Relaxed(a, t.dist, n))
    requires (forall h :: h in t.heap ==> top <= h.cost) && IsPath(a, path) && SatCost(path) < top
    ensures End(a, path) in done && End(a, path) in t.dist && t.dist[End(a, path)] <= SatCost(path)
  {
    hide Edges, IsPath, End, SatCost, HasPath, NodeAt;
    if path == [] {
      EmptyPath(a);
      assert HeapNode(0, a.Start()) !in t.heap;
    } else {
      PathFront(a, path);
      var front := path[..|path| - 1];
      CheapPathsDone(a, t, done, low, top, front);
      var n := End(a, path);
      assert n in t.dist && t.dist[n] <= SatCost(path);
      assert HeapNode(t.dist[n], n) !in t.heap;
    }
  }

  /** So the node about to be expanded has no cheaper path. */
  lemma MinimumIsFinal(a: Area, t: Tree, done: set<NodeId>, low: u32, top: HeapNode)
    requires TreeInv(a, t, done, low) && (forall n :: n in done ==> Relaxed(a, t.dist, n))
    requires forall h :: h in t.heap ==> top.cost <= h.cost
    requires top.node !in done
    ensures !HasCheaper(a, top.node, top.cost)
  {
    hide TreeInv, Relaxed, IsPath, End, SatCost;
    if HasCheaper(a, top.node, top.cost) {
      var path :| IsPath(a, path) && End(a, path) == top.node && SatCost(path) < top.cost;
      CheapPathsDone(a, t, done, low, top.cost, path);
    }
  }

  /** The edge before a cheapest cost starts from a cheapest cost. */
  lemma FrontIsCheapest(a: Area, dist: Distances, path: seq<Edge>)
    requires Attained(a, dist) && IsPath(a, path) && path != [] && SatCost(path) < U32_MAX
    requires !HasCheaper(a, End(a, path), SatCost(path))
    requires var front := path[..|path| - 1]; End(a, front) in dist && dist[End(a, front)] <= SatCost(front)
    ensures var front := path[..|path| - 1]; dist[End(a, front)] == SatCost(front)
  {
    hide Edges, IsPath, End, SatCost, HasPath;
    PathFront(a, path);
    var front, e := path[..|path| - 1], path[|path| - 1];
    var x := End(a, front);
    assert HasPath(a, x, dist[x]);
    EdgeHasPath(a, x, dist[x], e);
    if dist[x] < SatCost(front) {
      CheaperByPath(a, e.to, SaturatingAdd(dist[x], e.cost), SatCost(path));
    }
  }

  lemma CheaperByPath(a: Area, n: NodeId, c: u32, d: u32)
    requires HasPath(a, n, c) && c < d
    ensures HasCheaper(a, n, d)
  {
  }

  /** A node reached steadily has next hops when it is taken off the heap, and all those that rising paths deliver. */
  lemma MinimumIsFed(a: Area, t: Tree, done: set<NodeId>, low: u32, top: HeapNode)
    requires TreeInv(a, t, done, low) && (forall n :: n in done ==> Relaxed(a, t.dist, n) && HandedOverBy(a, t, n))
    requires NoHopsExplained(a, t.dist, t.hops) && top.node in t.dist && t.dist[top.node] == top.cost
    requires (forall h :: h in t.heap ==> top.cost <= h.cost) && !HasCheaper(a, top.node, top.cost)
    requires top.node != a.Start() ==> a.Start() in done
    ensures Fed(a, t.hops, top.node, top.cost)
  {
    hide TreeInv, Relaxed, HandedOverBy, HasCheaper, IsPath, End, SatCost, NoHopsExplained;
    if ReachedSteadily(a, top.node, top.cost) {
      var path :| IsPath(a, path) && End(a, path) == top.node && SatCost(path) == top.cost && Steady(a, path);
      if Clear(a, top.node, top.cost) {
        ClearHasHops(a, t, top.node);
      } else {
        PrecedingIsDone(a, t, done, low, top, path);
      }
    }
    forall hop | Delivered(a, top.node, top.cost, hop) ensures top.node != a.Start() && top.node in t.hops && hop in t.hops[top.node] {
      var path: seq<Edge> :| IsPath(a, path) && End(a, path) == top.node && SatCost(path) == top.cost && Rising(a, path)
                  && hop in HopsFor(a.neighbors, path[0].to.id);
      StartCost(a, t, done, low);
      RisingIsNotStart(a, path);
      HopHasArrived(a, t, done, low, top, path, hop);
    }
  }

  /** A rising path does not come back to our own router at no cost. */
  lemma RisingIsNotStart(a: Area, path: seq<Edge>)
    requires Rising(a, path)
    ensures End(a, path) == a.Start() ==> SatCost(path) > 0
  {
    if |path| > 1 {
      assert path[..|path|] == path;
      assert SatCost(path[..|path| - 1]) < SatCost(path[..|path|]);
    }
  }

  lemma RisingFront(a: Area, path: seq<Edge>)
    requires Rising(a, path) && |path| > 1
    ensures var front := path[..|path| - 1]; Rising(a, front) && front[0] == path[0] && SatCost(front) < SatCost(path)
  {
    var front := path[..|path| - 1];
    assert path[..|path|] == path;
    assert SatCost(path[..|path| - 1]) < SatCost(path[..|path|]);
    assert forall i :: 0 <= i <= |front| ==> front[..i] == path[..i];
    hide SatCost;
  }

  lemma HopHasArrived(a: Area, t: Tree, done: set<NodeId>, low: u32, top: HeapNode, path: seq<Edge>, hop: NextHop)
    requires TreeInv(a, t, done, low) && (forall n :: n in done ==> Relaxed(a, t.dist, n) && HandedOverBy(a, t, n))
    requires top.node in t.dist && t.dist[top.node] == top.cost && top.node != a.Start() && a.Start() in done
    requires (forall h :: h in t.heap ==> top.cost <= h.cost) && !HasCheaper(a, top.node, top.cost)
    requires IsPath(a, path) && End(a, path) == top.node && SatCost(path) == top.cost && Rising(a, path)
    requires hop in HopsFor(a.neighbors, path[0].to.id)
    ensures top.node in t.hops && hop in t.hops[top.node]
  {
    hide Relaxed, HandedOverBy, HasCheaper, IsPath, End, SatCost, TreeInv, HandedOver, HopsFor;
    var front, e := path[..|path| - 1], path[|path| - 1];
    PathFront(a, path);
    EmptyPath(a);
    StartCost(a, t, done, low);
    TreeAttained(a, t, done, low);
    var x := End(a, front);
    if front != [] {
      RisingFront(a, path);
      hide Rising;
      CheapPathsDone(a, t, done, low, top.cost, front);
      FrontIsCheapest(a, t.dist, path);
      RisingIsNotStart(a, front);
      assert Delivered(a, x, t.dist[x], hop);
    } else {
      assert path[0] == e;
    }
    assert PassesHop(a, t.dist, x, e, hop);
    PassedOverEdge(a, t, x, e, hop);
  }

  lemma PassedOverEdge(a: Area, t: Tree, n: NodeId, e: Edge, hop: NextHop)
    requires HandedOverBy(a, t, n) && e in Edges(a, n) && PassesHop(a, t.dist, n, e, hop)
    ensures e.to in t.hops && hop in t.hops[e.to]
  {
    hide Edges, HandedOver, PassesHop;
  }

  lemma ClearHasHops(a: Area, t: Tree, n: NodeId)
    requires NoHopsExplained(a, t.dist, t.hops) && n in t.dist && Clear(a, n, t.dist[n])
    ensures n != a.Start() && !NoHops(t.hops, n)
  {
    hide ReachedBlind, Local;
  }

  lemma PrecedingIsDone(a: Area, t: Tree, done: set<NodeId>, low: u32, top: HeapNode, path: seq<Edge>)
    requires TreeInv(a, t, done, low) && (forall n :: n in done ==> Relaxed(a, t.dist, n) && HandedOverBy(a, t, n))
    requires top.node in t.dist && t.dist[top.node] == top.cost
    requires (forall h :: h in t.heap ==> top.cost <= h.cost) && !HasCheaper(a, top.node, top.cost)
    requires IsPath(a, path) && End(a, path) == top.node && SatCost(path) == top.cost && Steady(a, path)
    requires !Clear(a, top.node, top.cost)
    ensures top.node != a.Start() && !NoHops(t.hops, top.node)
  {
    hide Relaxed, HandedOverBy, HasCheaper, IsPath, End, SatCost, Clear, TreeInv, HandedOver, HasNeighbor;
    var front, e := path[..|path| - 1], path[|path| - 1];
    PathFront(a, path);
    CheapPathsDone(a, t, done, low, top.cost, front);
    TreeAttained(a, t, done, low);
    FrontIsCheapest(a, t.dist, path);
    var x := End(a, front);
    StartCost(a, t, done, low);
    assert Passes(a, t.dist, x, e) by {
      if front == [] {
        EmptyPath(a);
      } else {
        assert ReachedSteadily(a, x, t.dist[x]);
        SteadyIsNotStart(a, front);
      }
    }
    HandedOverEdge(a, t, x, e);
  }

  lemma StartCost(a: Area, t: Tree, done: set<NodeId>, low: u32)
    requires TreeInv(a, t, done, low)
    ensures a.Start() in t.dist && t.dist[a.Start()] == 0
  {
    hide HasPath, Frontier, HeapCurrent;
  }

  lemma HandedOverEdge(a: Area, t: Tree, n: NodeId, e: Edge)
    requires HandedOverBy(a, t, n) && e in Edges(a, n) && Passes(a, t.dist, n, e)
    ensures !NoHops(t.hops, e.to)
  {
    hide Edges, HandedOver, Passes;
  }

  /** A steady path that ends at cost 0, or at our own router, would not be steady. */
  lemma SteadyIsNotStart(a: Area, path: seq<Edge>)
    requires Steady(a, path)
    ensures End(a, path) == a.Start() ==> SatCost(path) > 0
  {
    hide End, SatCost, ReachedBlind, Local, HasNeighbor;
  }

  lemma MinimumIsSafe(a: Area, top: HeapNode)
    requires Sheltered(a) && !HasCheaper(a, top.node, top.cost)
    ensures SafeToExpand(a, top.node, top.cost)
  {
    hide HasCheaper, ReachedBlind, ReachedSteadily, Attaches, Serves;
  }

  lemma FinishExpanding(a: Area, t: Tree, done: set<NodeId>, node: NodeId, cost: u32)
    requires Expanding(a, t, done, node, cost) && Relaxed(a, t.dist, node) && HandedOverBy(a, t, node)
    ensures Searching(a, t, done, cost)
  {
    hide TreeInv, HopsServe, NoHopsExplained, SafeToExpand, Fed, Sheltered, HasCheaper, HandedOver, PassedOn, Nodes, Edges;
  }

  /** An empty heap means every node found has been expanded. */
  lemma SearchDone(a: Area, t: Tree, done: set<NodeId>, low: u32)
    requires Searching(a, t, done, low) && t.heap == multiset{}
    ensures Shortest(a, t.dist) && NoHopsExplained(a, t.dist, t.hops) && AllHandedOver(a, t.dist, t.hops)
    ensures EqualCostHops(a, t.dist, t.hops)
    ensures Sheltered(a) ==> HopsSound(a, t.dist, t.hops)
  {
    hide Sheltered, Relaxed, Nodes, HasPath, IsPath, End, SatCost, HopsSound, HopsServe, NoHopsExplained, HandedOver, PassedOn,
      Edges;
    assert forall n :: n in t.dist ==> n in done;
    forall path | IsPath(a, path) ensures End(a, path) in t.dist && t.dist[End(a, path)] <= SatCost(path) {
      NoCheaperPath(a, t.dist, path);
    }
    if Sheltered(a) {
      ServingIsLeading(a, t.dist, t.hops);
    }
    TreeAttained(a, t, done, low);
    assert AllPassedOn(a, t.dist, t.hops);
    EqualCostComplete(a, t.dist, t.hops);
    hide EqualCostHops;
  }

  /** With everything passed on, equal-cost next hops are complete. */
  lemma EqualCostComplete(a: Area, dist: Distances, hops: Hops)
    requires Shortest(a, dist) && Attained(a, dist) && AllPassedOn(a, dist, hops)
    ensures EqualCostHops(a, dist, hops)
  {
    hide Shortest, Attained, AllPassedOn, HopsFor, SatCost, IsPath, End;
    forall path: seq<Edge>, hop |
      && IsPath(a, path) && path != [] && path[0].to.RouterNode? && path[0].to != a.Start()
      && (forall i :: 2 <= i < |path| ==> SatCost(path[..i - 1]) < SatCost(path[..i]))
      && End(a, path) in dist && SatCost(path) == dist[End(a, path)] < U32_MAX && hop in HopsFor(a.neighbors, path[0].to.id)
      ensures End(a, path) in hops && hop in hops[End(a, path)]
    {
      EqualCostPath(a, dist, hops, path, hop);
    }
  }

  lemma EqualCostPath(a: Area, dist: Distances, hops: Hops, path: seq<Edge>, hop: NextHop)
    requires Shortest(a, dist) && Attained(a, dist) && AllPassedOn(a, dist, hops)
    requires IsPath(a, path) && path != [] && path[0].to.RouterNode? && path[0].to != a.Start()
    requires forall i :: 2 <= i < |path| ==> SatCost(path[..i - 1]) < SatCost(path[..i])
    requires End(a, path) in dist && SatCost(path) == dist[End(a, path)] < U32_MAX && hop in HopsFor(a.neighbors, path[0].to.id)
    ensures End(a, path) in hops && hop in hops[End(a, path)]
  {
    hide IsPath, End, SatCost, HasPath, HopsFor, Edges;
    var front, e := path[..|path| - 1], path[|path| - 1];
    PathFront(a, path);
    EmptyPath(a);
    var x := End(a, front);
    NothingCheaper(a, dist, End(a, path));
    FrontIsCheapest(a, dist, path);
    if front != [] {
      FrontRises(a, path);
      RisingIsNotStart(a, front);
      assert Delivered(a, x, dist[x], hop);
    } else {
      assert path[0] == e;
    }
    assert PassesHop(a, dist, x, e, hop);
    assert PassedOn(a, dist, hops, x, e);
  }

  lemma NothingCheaper(a: Area, dist: Distances, n: NodeId)
    requires Shortest(a, dist) && n in dist
    ensures !HasCheaper(a, n, dist[n])
  {
    hide IsPath, End, SatCost, HasPath;
  }

  lemma FrontRises(a: Area, path: seq<Edge>)
    requires |path| > 1 && path[0].to.RouterNode? && path[0].to != a.Start() && SatCost(path) < U32_MAX
    requires forall i :: 2 <= i < |path| ==> SatCost(path[..i - 1]) < SatCost(path[..i])
    ensures Rising(a, path[..|path| - 1]) && path[..|path| - 1][0] == path[0]
  {
    var front := path[..|path| - 1];
    assert SatCost(front) <= SatCost(path);
    assert forall i :: 0 <= i <= |front| ==> front[..i] == path[..i];
    hide SatCost;
  }

  /** At the end there are no cheaper paths left. */
  lemma ServingIsLeading(a: Area, dist: Distances, hops: Hops)
    requires Shortest(a, dist) && HopsServe(a, dist, hops)
    ensures HopsSound(a, dist, hops)
  {
    hide IsPath, End, SatCost, HasPath, LeadsTo;
  }

  // ---------------------------------------------------------------- when hops mislead

  /** Cheapest costs are the distances. */
  lemma CheapestIsDistance(a: Area, dist: Distances, n: NodeId, d: u32)
    requires Shortest(a, dist) && HasPath(a, n, d) && !HasCheaper(a, n, d)
    ensures n in dist && dist[n] == d
  {
    hide IsPath, End, SatCost;
    assert n in dist && HasPath(a, n, dist[n]);
  }

  lemma EdgeHasPath(a: Area, n: NodeId, d: u32, e: Edge)
    requires HasPath(a, n, d) && e in Edges(a, n)
    ensures HasPath(a, e.to, SaturatingAdd(d, e.cost))
  {
    hide Edges, SatCost;
    var path :| IsPath(a, path) && End(a, path) == n && SatCost(path) == d;
    ExtendPath(a, path, e);
  }

  /** A wrong hop: recorded for the node, but no cheapest path begins with its router. */
  ghost predicate WrongHop(a: Area, dist: Distances, hops: Hops, n: NodeId, hop: NextHop) {
    n in dist && n in hops && hop in hops[n] && !LeadsTo(a, n, dist[n], hop)
  }

  /** Whatever the order of expansion, a misled area ends with a wrong hop, at the network or at the
      neighbor attached to it. */
  lemma MisledGivesWrongHop(a: Area, dist: Distances, hops: Hops, n: NodeId, d: u32, e: Edge, hop: NextHop)
    requires Shortest(a, dist) && AllHandedOver(a, dist, hops) && MisledAt(a, n, d, e, hop)
    ensures WrongHop(a, dist, hops, e.to, hop) || exists h :: WrongHop(a, dist, hops, n, h)
  {
    hide Shortest, HasPath, HasCheaper, LeadsTo, Edges, HopsFor;
    MisledDistances(a, dist, n, d, e, hop);
    if NoHops(hops, n) {
      assert HandedOver(a, dist, hops, n, e);
    } else {
      assert WrongHop(a, dist, hops, n, hops[n][0]);
    }
  }

  lemma MisledDistances(a: Area, dist: Distances, n: NodeId, d: u32, e: Edge, hop: NextHop)
    requires Shortest(a, dist) && MisledAt(a, n, d, e, hop)
    ensures n.NetworkNode? && n in dist && dist[n] == d && e.to in dist && dist[e.to] == SaturatingAdd(d, e.cost)
  {
    hide Shortest, HasPath, HasCheaper, LeadsTo, Edges, HopsFor, NothingLeads;
    CheapestIsDistance(a, dist, n, d);
    EdgeHasPath(a, n, d, e);
    CheapestIsDistance(a, dist, e.to, SaturatingAdd(d, e.cost));
  }

  lemma MisledIsUnsound(a: Area, dist: Distances, hops: Hops)
    requires Shortest(a, dist) && AllHandedOver(a, dist, hops) && Misled(a)
    ensures !HopsSound(a, dist, hops)
  {
    hide Shortest, AllHandedOver, MisledAt, LeadsTo;
    var n, d, e, hop :| MisledAt(a, n, d, e, hop);
    MisledGivesWrongHop(a, dist, hops, n, d, e, hop);
  }

  /** Without ties between the two kinds of paths, an area that is not misled is sheltered. */
  lemma UnmixedIsSheltered(a: Area)
    requires Unmixed(a) && !Misled(a)
    ensures Sheltered(a)
  {
    hide HasCheaper, Attaches, Serves, LeadsTo, ReachedBlind, ReachedSteadily, HasPath, NothingLeads;
    forall n, d: u32, e, hop | ReachedBlind(a, n, d) && !ReachedSteadily(a, n, d) && !HasCheaper(a, n, d) && Attaches(a, n, e, hop)
      ensures Serves(a, e.to, SaturatingAdd(d, e.cost), hop)
    {
      BlindHasPath(a, n, d);
      AttachesNetwork(a, n, e, hop);
      assert !MisledAt(a, n, d, e, hop);
    }
  }

  lemma BlindHasPath(a: Area, n: NodeId, d: u32)
    requires ReachedBlind(a, n, d)
    ensures HasPath(a, n, d)
  {
    hide IsPath, End, SatCost, Blind;
  }

  lemma AttachesNetwork(a: Area, n: NodeId, e: Edge, hop: NextHop)
    requires Attaches(a, n, e, hop)
    ensures n.NetworkNode?
  {
  }

  // ---------------------------------------------------------------- when neighbors are known

  /** The first router of a path is on one of our own links or networks. */
  lemma FirstRouterLinked(a: Area, path: seq<Edge>)
    requires NeighborsKnown(a) && IsPath(a, path)
    ensures !Blind(a, path)
  {
    if path != [] {
      var e := path[0];
      assert NodeAt(a, path, 0) == a.Start();
      assert LinkKnown(a, e);
      if e.to.NetworkNode? && |path| > 1 {
        assert NodeAt(a, path, 1) == e.to;
        assert path[1] in Edges(a, e.to);
        assert path[1].to.RouterNode?;
        assert path[1..][0] == path[1];
        assert FirstRouter(path) == FirstRouter(path[1..]) == Some(path[1].to.id);
      } else if e.to.NetworkNode? {
        assert path == [e] && path[1..] == [] && FirstRouter([]) == None;
        assert FirstRouter(path).None?;
      }
    }
  }

  /** With an entry for every router on our links and networks, nothing is blind. */
  lemma KnownNeighborsShelter(a: Area)
    requires NeighborsKnown(a)
    ensures Sheltered(a)
    ensures forall dist, hops :: NoHopsExplained(a, dist, hops) ==> RoutersHaveHops(a, dist, hops)
  {
    forall path | IsPath(a, path) ensures !Blind(a, path) {
      FirstRouterLinked(a, path);
    }
    hide IsPath, Blind, Local, Attaches, Serves, HasCheaper;
  }

  /**
   Pass 1, for every order in which equal entries leave the heap. The loop ends and distances are exact.
   Nodes without next hops are our own networks or lie behind a router that is not Full. The next hops of all
   equal-cost paths are there, as far as no edge without cost delays them. Every next hop
   leads to the first router of a cheapest path if the area is sheltered, and some does not if it is
   misled; without ties between the two kinds of paths, one or the other is the case. With an entry for
   every router on our links and networks all is well, and every reachable router has a next hop.
   */
  method Dijkstra(a: Area) returns (dist: Distances, hops: Hops)
    ensures Shortest(a, dist) && NoHopsExplained(a, dist, hops) && AllHandedOver(a, dist, hops)
    ensures EqualCostHops(a, dist, hops)
    ensures Sheltered(a) ==> HopsSound(a, dist, hops)
    ensures Misled(a) ==> !HopsSound(a, dist, hops)
    ensures Unmixed(a) ==> (HopsSound(a, dist, hops) <==> !Misled(a))
    ensures NeighborsKnown(a) ==> HopsSound(a, dist, hops) && RoutersHaveHops(a, dist, hops)
  {
    hide Searching, Expanding, Shortest, HopsSound, NoHopsExplained, AllHandedOver, EqualCostHops, HandedOverBy, Sheltered, Misled, Unmixed,
      RoutersHaveHops, NeighborsKnown, Nodes, Relaxed;
    var t := Tree(map[a.Start() := 0], map[], multiset{HeapNode(0, a.Start())});
    ghost var done: set<NodeId> := {};
    ghost var low: u32 := 0;
    StartSearching(a);
    while t.heap != multiset{}
      invariant Searching(a, t, done, low)
      decreases Nodes(a) - done, |t.heap|
    {
      HeapMinimum(t.heap);
      var top :| top in t.heap && forall h :: h in t.heap ==> top.cost <= h.cost;
      SearchingHeap(a, t, done, low, top);
      var popped := t.(heap := t.heap - multiset{top});
      if t.dist[top.node] != top.cost {
        SkipStale(a, t, done, low, top);
        t := popped;
      } else {
        StartExpanding(a, t, done, low, top);
        done, low := done + {top.node}, top.cost;
        t := Expand(a, popped, top.node, done);
        FinishExpanding(a, t, done, top.node, low);
      }
    }
    SearchDone(a, t, done, low);
    if Misled(a) {
      MisledIsUnsound(a, t.dist, t.hops);
    } else if Unmixed(a) {
      UnmixedIsSheltered(a);
    }
    if NeighborsKnown(a) {
      KnownNeighborsShelter(a);
    }
    return t.dist, t.hops;
  }

  lemma StartSearching(a: Area)
    ensures Searching(a, Tree(map[a.Start() := 0], map[], multiset{HeapNode(0, a.Start())}), {}, 0)
  {
    EmptyPath(a);
  }

  // ---------------------------------------------------------------- a misleading next hop

  /** We reach router 2, which is not Full, at cost 1, and our neighbor 3 at cost 100; behind router 2
      lies a network with router 3 attached. */
  function Misleading(hop: NextHop): Area {
    var direct := RouterLinkV3(POINT_TO_POINT, 1, 0, 2);
    var costly := RouterLinkV3(POINT_TO_POINT, 100, 0, 3);
    Area(1, map[1 := [direct, costly], 2 := [RouterLinkV3(TRANSIT_NETWORK, 1, 5, 2)]], map[(2, 5) := [2, 3]],
         [SpfNeighbor(3, hop)])
  }

  lemma MisleadingEdges(hop: NextHop)
    ensures var a := Misleading(hop);
            && Edges(a, RouterNode(1)) == [Edge(RouterNode(2), 1), Edge(RouterNode(3), 100)]
            && Edges(a, RouterNode(2)) == [Edge(NetworkNode(2, 5), 1)]
            && Edges(a, NetworkNode(2, 5)) == [Edge(RouterNode(2), 0), Edge(RouterNode(3), 0)]
  {
    var a := Misleading(hop);
    var links := a.routers[1];
    assert links[..1][..0] == [] && links[..1] == [links[0]];
    assert LinkEdges(links[..1]) == [Edge(RouterNode(2), 1)];
    assert a.routers[2][..0] == [];
  }

  lemma {:induction false} FirstEdgeCounts(path: seq<Edge>)
    requires path != []
    ensures PathCost(path) >= path[0].cost
  {
    if |path| > 1 {
      FirstEdgeCounts(path[..|path| - 1]);
    }
  }

  /** Every way out of our router costs at least 1, and 100 over router 3. */
  lemma MisleadingPath(hop: NextHop, path: seq<Edge>)
    requires IsPath(Misleading(hop), path) && path != []
    ensures PathCost(path) >= 1
    ensures FirstRouter(path) == Some(3) ==> PathCost(path) >= 100
  {
    var a := Misleading(hop);
    MisleadingEdges(hop);
    assert NodeAt(a, path, 0) == RouterNode(1);
    assert path[0] in Edges(a, RouterNode(1));
    FirstEdgeCounts(path);
  }

  /** Only router 2 leads to the network. */
  lemma MisleadingNetwork(hop: NextHop, n: NodeId, e: Edge)
    requires e in Edges(Misleading(hop), n) && e.to == NetworkNode(2, 5)
    ensures n == RouterNode(2) && e.cost == 1
  {
    MisleadingEdges(hop);
    hide LinkEdges;
    assert n in {RouterNode(1), RouterNode(2), NetworkNode(2, 5)};
  }

  lemma MisleadingPathsToNetwork(hop: NextHop, path: seq<Edge>)
    requires IsPath(Misleading(hop), path) && End(Misleading(hop), path) == NetworkNode(2, 5)
    ensures SatCost(path) >= 2
  {
    var a := Misleading(hop);
    PathFront(a, path);
    var front := path[..|path| - 1];
    MisleadingNetwork(hop, End(a, front), path[|path| - 1]);
    MisleadingPath(hop, front);
  }

  /** Router 3 is reached over our costly link or from the network. */
  lemma MisleadingNeighbor(hop: NextHop, n: NodeId, e: Edge)
    requires e in Edges(Misleading(hop), n) && e.to == RouterNode(3)
    ensures n == NetworkNode(2, 5) || e.cost == 100
  {
    MisleadingEdges(hop);
    hide LinkEdges;
    assert n in {RouterNode(1), RouterNode(2), NetworkNode(2, 5)};
  }

  lemma MisleadingPathsToNeighbor(hop: NextHop, path: seq<Edge>)
    requires IsPath(Misleading(hop), path) && End(Misleading(hop), path) == RouterNode(3)
    ensures SatCost(path) >= 2
  {
    var a := Misleading(hop);
    assert path != [];
    PathFront(a, path);
    hide Edges, IsPath, End, SatCost;
    var front := path[..|path| - 1];
    MisleadingNeighbor(hop, End(a, front), path[|path| - 1]);
    if End(a, front) == NetworkNode(2, 5) {
      MisleadingPathsToNetwork(hop, front);
    }
  }

  /** Only router 3 has a next hop, and paths over it cost 100. */
  lemma MisleadingLeads(hop: NextHop, n: NodeId, h: NextHop)
    ensures !LeadsTo(Misleading(hop), n, 2, h)
  {
    hide IsPath, End;
    forall path | IsPath(Misleading(hop), path) && FirstRouter(path) == Some(3) ensures SatCost(path) != 2 {
      MisleadingPath(hop, path);
    }
  }

  lemma MisleadingBlindPath(hop: NextHop)
    ensures HasPath(Misleading(hop), NetworkNode(2, 5), 2)
  {
    var a, net := Misleading(hop), NetworkNode(2, 5);
    var first, second := Edge(RouterNode(2), 1), Edge(net, 1);
    MisleadingEdges(hop);
    hide Edges;
    SingleEdge(a, first);
    ExtendPath(a, [first], second);
    assert SatCost([first] + [second]) == 2;
  }

  /** A misled area: the network behind router 2 has no next hops and is taken for one of ours, so router 3
      gets the hop of our direct link, which no path of cost 2 begins with. */
  lemma BlindNetworkMisleads(hop: NextHop)
    ensures MisledAt(Misleading(hop), NetworkNode(2, 5), 2, Edge(RouterNode(3), 0), hop) && Misled(Misleading(hop))
  {
    var a, net, e := Misleading(hop), NetworkNode(2, 5), Edge(RouterNode(3), 0);
    MisleadingBlindPath(hop);
    assert Attaches(a, net, e, hop) by {
      MisleadingEdges(hop);
      HopsForMember(a.neighbors, 3, hop);
      assert a.neighbors[0] == SpfNeighbor(3, hop);
    }
    hide IsPath, End, SatCost, LeadsTo, Attaches, HasPath;
    forall h ensures !LeadsTo(a, net, 2, h) && !LeadsTo(a, RouterNode(3), 2, h) {
      MisleadingLeads(hop, net, h);
      MisleadingLeads(hop, RouterNode(3), h);
    }
    forall path | IsPath(a, path) && (End(a, path) == net || End(a, path) == RouterNode(3)) ensures SatCost(path) >= 2 {
      if End(a, path) == net {
        MisleadingPathsToNetwork(hop, path);
      } else {
        MisleadingPathsToNeighbor(hop, path);
      }
    }
    assert !HasCheaper(a, net, 2) && !HasCheaper(a, RouterNode(3), 2);
  }
}
