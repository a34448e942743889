/**
 Passes 2 to 4 of `calculate_spf_v3` in src/spf_v3.rs: routes to intra-area, inter-area and external
 prefixes, with forwarding addresses resolved by longest-prefix match (section 16.4 of RFC 2328).
 */
module SpfRoutes {
  import opened Numbers
  import opened ShortestPaths

  datatype Prefix = Prefix(address: Ipv6, length: u8, metric: u16)

  /** The node an Intra-Area-Prefix-LSA refers to; None for other LS types. */
  datatype IntraLsa = IntraLsa(refNode: Option<NodeId>, prefixes: seq<Prefix>)

  datatype InterLsa = InterLsa(advertisingRouter: u32, prefix: Prefix, metric: u32)

  datatype ExternalLsa = ExternalLsa(
    advertisingRouter: u32, prefix: Prefix, metric: u32, metricType2: bool, forwardingAddress: Option<Ipv6>)

  datatype RouteKind = Intra | Inter | External1 | External2

  datatype Route = Route(prefix: Ipv6, length: u8, nextHops: seq<NextHop>, cost: u32, kind: RouteKind)

  datatype Lsas = Lsas(intra: seq<IntraLsa>, inter: seq<InterLsa>, external: seq<ExternalLsa>)

  // ---------------------------------------------------------------- prefixes

  /** The address under a mask of `length` leading ones: the host bits cleared. */
  function Masked(address: Ipv6, length: u8): int
    requires length <= 128
  {
    address - address % Pow2(128 - length)
  }

  /** `prefix_matches_v3`. */
  predicate Matches(address: Ipv6, prefix: Ipv6, length: u8) {
    if length == 0 then true
    else if length > 128 then false
    else Masked(address, length) == Masked(prefix, length)
  }

  /** Matching means: the first `length` bits, as a number, agree; nothing matches a length above 128. */
  lemma MatchesMeans(address: Ipv6, prefix: Ipv6, length: u8)
    ensures Matches(address, prefix, length) <==>
              length == 0 || (length <= 128 && address / Pow2(128 - length) == prefix / Pow2(128 - length))
  {
    hide Pow2;
    if 1 <= length <= 128 {
      SameQuotient(address, prefix, Pow2(128 - length));
    }
  }

  // ---------------------------------------------------------------- the passes

  /** A node with a distance and at least one next hop. */
  predicate Resolved(dist: Distances, hops: Hops, n: NodeId) {
    n in dist && n in hops && hops[n] != []
  }

  function PrefixRoutes(cost: u32, nextHops: seq<NextHop>, prefixes: seq<Prefix>): (routes: seq<Route>)
    ensures |routes| == |prefixes|
  {
    seq(|prefixes|, i requires 0 <= i < |prefixes| =>
      Route(prefixes[i].address, prefixes[i].length, nextHops, SaturatingAdd(cost, prefixes[i].metric), Intra))
  }

  function IntraRoutes(a: Area, dist: Distances, hops: Hops, lsas: seq<IntraLsa>): seq<Route> {
    if lsas == [] then []
    else
      var front := IntraRoutes(a, dist, hops, lsas[..|lsas| - 1]);
      var last := lsas[|lsas| - 1];
      if last.refNode.None? || !Resolved(dist, hops, last.refNode.value) || last.refNode.value == a.Start() then front
      else front + PrefixRoutes(dist[last.refNode.value], hops[last.refNode.value], last.prefixes)
  }

  function InterRoutes(a: Area, dist: Distances, hops: Hops, lsas: seq<InterLsa>): seq<Route> {
    if lsas == [] then []
    else
      var front := InterRoutes(a, dist, hops, lsas[..|lsas| - 1]);
      var last := lsas[|lsas| - 1];
      var abr := RouterNode(last.advertisingRouter);
      if abr == a.Start() || !Resolved(dist, hops, abr) then front
      else
        front + [Route(last.prefix.address, last.prefix.length, hops[abr], SaturatingAdd(dist[abr], last.metric), Inter)]
  }

  /** A stable sort by descending prefix length. */
  function InsertByLength(table: seq<Route>, r: Route): seq<Route> {
    if table == [] then [r]
    else if table[|table| - 1].length >= r.length then table + [r]
    else InsertByLength(table[..|table| - 1], r) + [table[|table| - 1]]
  }

  function SortedByLength(routes: seq<Route>): seq<Route> {
    if routes == [] then [] else InsertByLength(SortedByLength(routes[..|routes| - 1]), routes[|routes| - 1])
  }

  /** The first route of the table that covers the address. */
  function FirstMatch(table: seq<Route>, address: Ipv6): Option<Route> {
    if table == [] then None
    else if Matches(address, table[0].prefix, table[0].length) then Some(table[0])
    else FirstMatch(table[1..], address)
  }

  predicate Forwards(ext: ExternalLsa) {
    ext.forwardingAddress.Some? && ext.forwardingAddress.value != 0
  }

  /** The route for one AS-External-LSA, if there is one. */
  function ExternalRoute(a: Area, dist: Distances, hops: Hops, table: seq<Route>, ext: ExternalLsa): Option<Route> {
    var asbr := RouterNode(ext.advertisingRouter);
    if asbr == a.Start() || !Resolved(dist, hops, asbr) then None
    else
      var through :=
        if Forwards(ext) then
          var via := FirstMatch(table, ext.forwardingAddress.value);
          if via.None? then None else Some((via.value.cost, via.value.nextHops))
        else Some((dist[asbr], hops[asbr]));
      if through.None? then None
      else
        Some(Route(ext.prefix.address, ext.prefix.length, through.value.1,
                   if ext.metricType2 then ext.metric else SaturatingAdd(through.value.0, ext.metric),
                   if ext.metricType2 then External2 else External1))
  }

  function ExternalRoutes(a: Area, dist: Distances, hops: Hops, table: seq<Route>, lsas: seq<ExternalLsa>): seq<Route> {
    if lsas == [] then []
    else
      var front := ExternalRoutes(a, dist, hops, table, lsas[..|lsas| - 1]);
      var r := ExternalRoute(a, dist, hops, table, lsas[|lsas| - 1]);
      if r.None? then front else front + [r.value]
  }

  function InternalRoutes(a: Area, dist: Distances, hops: Hops, lsas: Lsas): seq<Route> {
    IntraRoutes(a, dist, hops, lsas.intra) + InterRoutes(a, dist, hops, lsas.inter)
  }

  /** `routes` is what the passes make of shortest distances and of next hops that lie on shortest
      paths. */
  ghost predicate RoutesOver(a: Area, lsas: Lsas, routes: seq<Route>, dist: Distances, hops: Hops) {
    && Shortest(a, dist) && NoHopsExplained(a, dist, hops) && AllHandedOver(a, dist, hops) && EqualCostHops(a, dist, hops)
    && (Sheltered(a) ==> HopsSound(a, dist, hops))
    && (Unmixed(a) ==> (HopsSound(a, dist, hops) <==> !Misled(a)))
    && (NeighborsKnown(a) ==> HopsSound(a, dist, hops) && RoutersHaveHops(a, dist, hops))
    && var internal := InternalRoutes(a, dist, hops, lsas);
       routes == internal + ExternalRoutes(a, dist, hops, SortedByLength(internal), lsas.external)
  }

  /** `calculate_spf_v3`. */
  method CalculateSpf(a: Area, lsas: Lsas) returns (routes: seq<Route>)
    ensures exists dist, hops :: RoutesOver(a, lsas, routes, dist, hops)
  {
    var d, h := Dijkstra(a);
    hide Shortest, HopsSound, RoutersHaveHops, NoHopsExplained, AllHandedOver, EqualCostHops, Sheltered, Misled, Unmixed, NeighborsKnown;
    var intra := IntraPass(a, d, h, lsas.intra);
    var inter := InterPass(a, d, h, lsas.inter);
    routes := intra + inter;
    var table := SortPass(routes);
    var external := ExternalPass(a, d, h, table, lsas.external);
    routes := routes + external;
    assert RoutesOver(a, lsas, routes, d, h);
  }

  method IntraPass(a: Area, dist: Distances, hops: Hops, lsas: seq<IntraLsa>) returns (routes: seq<Route>)
    ensures routes == IntraRoutes(a, dist, hops, lsas)
  {
    routes := [];
    for i := 0 to |lsas|
      invariant routes == IntraRoutes(a, dist, hops, lsas[..i])
    {
      assert lsas[..i + 1][..i] == lsas[..i];
      if lsas[i].refNode.None? {
        continue;
      }
      var node := lsas[i].refNode.value;
      if node !in dist || node !in hops || hops[node] == [] || node == a.Start() {
        continue;
      }
      routes := routes + PrefixRoutes(dist[node], hops[node], lsas[i].prefixes);
    }
    assert lsas[..|lsas|] == lsas;
  }

  method InterPass(a: Area, dist: Distances, hops: Hops, lsas: seq<InterLsa>) returns (routes: seq<Route>)
    ensures routes == InterRoutes(a, dist, hops, lsas)
  {
    routes := [];
    for i := 0 to |lsas|
      invariant routes == InterRoutes(a, dist, hops, lsas[..i])
    {
      assert lsas[..i + 1][..i] == lsas[..i];
      var abr := RouterNode(lsas[i].advertisingRouter);
      if abr == a.Start() || abr !in dist || abr !in hops || hops[abr] == [] {
        continue;
      }
      routes := routes
        + [Route(lsas[i].prefix.address, lsas[i].prefix.length, hops[abr], SaturatingAdd(dist[abr], lsas[i].metric), Inter)];
    }
    assert lsas[..|lsas|] == lsas;
  }

  method SortPass(routes: seq<Route>) returns (table: seq<Route>)
    ensures table == SortedByLength(routes)
  {
    table := [];
    for i := 0 to |routes|
      invariant table == SortedByLength(routes[..i])
    {
      assert routes[..i + 1][..i] == routes[..i];
      table := InsertByLength(table, routes[i]);
    }
    assert routes[..|routes|] == routes;
  }

  method ExternalPass(a: Area, dist: Distances, hops: Hops, table: seq<Route>, lsas: seq<ExternalLsa>)
    returns (routes: seq<Route>)
    ensures routes == ExternalRoutes(a, dist, hops, table, lsas)
  {
    hide FirstMatch;
    routes := [];
    for i := 0 to |lsas|
      invariant routes == ExternalRoutes(a, dist, hops, table, lsas[..i])
    {
      assert lsas[..i + 1][..i] == lsas[..i];
      var ext := lsas[i];
      var asbr := RouterNode(ext.advertisingRouter);
      if asbr == a.Start() || asbr !in dist || asbr !in hops || hops[asbr] == [] {
        continue;
      }
      var cost, nextHops := dist[asbr], hops[asbr];
      if ext.forwardingAddress.Some? && ext.forwardingAddress.value != 0 {
        var via := FirstMatch(table, ext.forwardingAddress.value);
        if via.None? {
          continue;
        }
        cost, nextHops := via.value.cost, via.value.nextHops;
      }
      var metric := if ext.metricType2 then ext.metric else SaturatingAdd(cost, ext.metric);
      routes := routes
        + [Route(ext.prefix.address, ext.prefix.length, nextHops, metric, if ext.metricType2 then External2 else External1)];
    }
    assert lsas[..|lsas|] == lsas;
  }

  // ---------------------------------------------------------------- longest-prefix match

  predicate Descending(table: seq<Route>) {
    forall i, j :: 0 <= i < j < |table| ==> table[i].length >= table[j].length
  }

  lemma {:induction false} InsertKeepsOrder(table: seq<Route>, r: Route)
    requires Descending(table)
    ensures Descending(InsertByLength(table, r))
    ensures forall x :: x in InsertByLength(table, r) <==> x in table || x == r
  {
    if table != [] {
      var n := |table| - 1;
      assert table == table[..n] + [table[n]];
      if table[n].length < r.length {
        InsertKeepsOrder(table[..n], r);
        var front := InsertByLength(table[..n], r);
        forall i | 0 <= i < |front| ensures front[i].length >= table[n].length {
          assert front[i] in front;
        }
      }
    }
  }

  /** The table holds the same routes, longest prefixes first. */
  lemma {:induction false} SortedIsSorted(routes: seq<Route>)
    ensures Descending(SortedByLength(routes))
    ensures forall x :: x in SortedByLength(routes) <==> x in routes
  {
    if routes != [] {
      hide InsertByLength, Descending;
      var n := |routes| - 1;
      SortedIsSorted(routes[..n]);
      InsertKeepsOrder(SortedByLength(routes[..n]), routes[n]);
      assert routes == routes[..n] + [routes[n]];
    }
  }

  predicate Covers(r: Route, address: Ipv6) {
    Matches(address, r.prefix, r.length)
  }

  lemma {:induction false} FirstMatchLongest(table: seq<Route>, address: Ipv6)
    requires Descending(table)
    ensures var m := FirstMatch(table, address);
            && (m.None? <==> forall r :: r in table ==> !Covers(r, address))
            && (m.Some? ==> m.value in table && Covers(m.value, address)
                            && forall r :: r in table && Covers(r, address) ==> r.length <= m.value.length)
  {
    hide Matches;
    if table != [] {
      assert table == [table[0]] + table[1..];
      FirstMatchLongest(table[1..], address);
      assert Covers(table[0], address) <==> Matches(address, table[0].prefix, table[0].length);
      forall r | r in table ensures r.length <= table[0].length {
        var i :| 0 <= i < |table| && table[i] == r;
      }
    }
  }

  /** `r` is a covering route of maximal prefix length. */
  ghost predicate LongestMatch(routes: seq<Route>, address: Ipv6, r: Route) {
    r in routes && Covers(r, address) && forall x :: x in routes && Covers(x, address) ==> x.length <= r.length
  }

  /**
   External routes. A route exists exactly when the advertising router is not us and has next hops,
   and the forwarding address, if set and non-zero, is covered by a pass 2 or 3 route. It then takes
   the next hops of a longest such route; E1 adds that route's cost, E2 ignores it.
   */
  lemma ExternalRouteMeaning(a: Area, dist: Distances, hops: Hops, internal: seq<Route>, ext: ExternalLsa)
    ensures var r := ExternalRoute(a, dist, hops, SortedByLength(internal), ext);
            var asbr := RouterNode(ext.advertisingRouter);
            var forwards := ext.forwardingAddress.Some? && ext.forwardingAddress.value != 0;
            && (r.Some? <==>
                  && ext.advertisingRouter != a.self && asbr in dist && asbr in hops && |hops[asbr]| > 0
                  && (forwards ==> exists x :: x in internal && Covers(x, ext.forwardingAddress.value)))
            && (r.Some? && forwards ==>
                  exists via :: LongestMatch(internal, ext.forwardingAddress.value, via)
                    && r.value.nextHops == via.nextHops
                    && r.value.cost == (if ext.metricType2 then ext.metric else SaturatingAdd(via.cost, ext.metric)))
            && (r.Some? && !forwards ==>
                  && r.value.nextHops == hops[asbr]
                  && r.value.cost == (if ext.metricType2 then ext.metric else SaturatingAdd(dist[asbr], ext.metric)))
            && (r.Some? ==> r.value.prefix == ext.prefix.address && r.value.length == ext.prefix.length
                            && r.value.kind == (if ext.metricType2 then External2 else External1))
  {
    hide FirstMatch, SortedByLength, Matches;
    SortedIsSorted(internal);
    if Forwards(ext) {
      var address := ext.forwardingAddress.value;
      FirstMatchLongest(SortedByLength(internal), address);
      var m := FirstMatch(SortedByLength(internal), address);
      if m.Some? {
        assert LongestMatch(internal, address, m.value);
      }
    }
  }

  /** Exactly the external LSAs that have a route contribute one. */
  lemma {:induction false} ExternalRoutesMember(a: Area, dist: Distances, hops: Hops, table: seq<Route>,
                                                lsas: seq<ExternalLsa>, r: Route)
    ensures r in ExternalRoutes(a, dist, hops, table, lsas) <==>
            exists ext :: ext in lsas && ExternalRoute(a, dist, hops, table, ext) == Some(r)
  {
    hide ExternalRoute;
    if lsas != [] {
      var n := |lsas| - 1;
      ExternalRoutesMember(a, dist, hops, table, lsas[..n], r);
      assert lsas == lsas[..n] + [lsas[n]];
    }
  }

  // ---------------------------------------------------------------- internal routes

  /** A route to a prefix advertised at `n` with the given metric: over the hops of `n`, at the cost of
      `n` plus the metric. */
  predicate RouteAt(dist: Distances, hops: Hops, n: NodeId, p: Prefix, metric: u32, kind: RouteKind, r: Route) {
    n in dist && n in hops && |hops[n]| > 0 && r == Route(p.address, p.length, hops[n], SaturatingAdd(dist[n], metric), kind)
  }

  ghost predicate IntraRouteFor(a: Area, dist: Distances, hops: Hops, lsa: IntraLsa, r: Route) {
    && lsa.refNode.Some? && lsa.refNode.value != a.Start()
    && exists p :: p in lsa.prefixes && RouteAt(dist, hops, lsa.refNode.value, p, p.metric, Intra, r)
  }

  predicate InterRouteFor(a: Area, dist: Distances, hops: Hops, lsa: InterLsa, r: Route) {
    && RouterNode(lsa.advertisingRouter) != a.Start()
    && RouteAt(dist, hops, RouterNode(lsa.advertisingRouter), lsa.prefix, lsa.metric, Inter, r)
  }

  lemma {:induction false} IntraRoutesMember(a: Area, dist: Distances, hops: Hops, lsas: seq<IntraLsa>, r: Route)
    ensures r in IntraRoutes(a, dist, hops, lsas) <==> exists lsa :: lsa in lsas && IntraRouteFor(a, dist, hops, lsa, r)
  {
    if lsas != [] {
      var n := |lsas| - 1;
      IntraRoutesMember(a, dist, hops, lsas[..n], r);
      assert lsas == lsas[..n] + [lsas[n]];
      LastIntra(a, dist, hops, lsas[n], r);
      hide IntraRouteFor, PrefixRoutes;
    }
  }

  lemma LastIntra(a: Area, dist: Distances, hops: Hops, lsa: IntraLsa, r: Route)
    ensures IntraRouteFor(a, dist, hops, lsa, r) <==>
            lsa.refNode.Some? && Resolved(dist, hops, lsa.refNode.value) && lsa.refNode.value != a.Start()
            && r in PrefixRoutes(dist[lsa.refNode.value], hops[lsa.refNode.value], lsa.prefixes)
  {
    if lsa.refNode.Some? && Resolved(dist, hops, lsa.refNode.value) && lsa.refNode.value != a.Start() {
      var n := lsa.refNode.value;
      var routes := PrefixRoutes(dist[n], hops[n], lsa.prefixes);
      if p :| p in lsa.prefixes && RouteAt(dist, hops, n, p, p.metric, Intra, r) {
        var i :| 0 <= i < |lsa.prefixes| && lsa.prefixes[i] == p;
        assert routes[i] == r;
      }
      if r in routes {
        var i :| 0 <= i < |routes| && routes[i] == r;
        assert RouteAt(dist, hops, n, lsa.prefixes[i], lsa.prefixes[i].metric, Intra, r);
      }
    }
  }

  lemma {:induction false} InterRoutesMember(a: Area, dist: Distances, hops: Hops, lsas: seq<InterLsa>, r: Route)
    ensures r in InterRoutes(a, dist, hops, lsas) <==> exists lsa :: lsa in lsas && InterRouteFor(a, dist, hops, lsa, r)
  {
    if lsas != [] {
      var n := |lsas| - 1;
      InterRoutesMember(a, dist, hops, lsas[..n], r);
      assert lsas == lsas[..n] + [lsas[n]];
      assert InterRouteFor(a, dist, hops, lsas[n], r) ==> r in InterRoutes(a, dist, hops, lsas);
    }
  }

  /** No path to `n` beats the route's cost once the metric is added, and some path attains it. */
  ghost predicate CheapestVia(a: Area, n: NodeId, metric: u32, r: Route) {
    && (exists path :: IsPath(a, path) && End(a, path) == n && r.cost == SaturatingAdd(SatCost(path), metric))
    && (forall path :: IsPath(a, path) && End(a, path) == n ==> r.cost <= SaturatingAdd(SatCost(path), metric))
  }

  /** Internal routes are exactly those of the resolved nodes that advertise them, and each is as cheap
      as the cheapest path to its node allows. */
  lemma InternalRoutesAreShortest(a: Area, dist: Distances, hops: Hops, lsas: Lsas, r: Route)
    requires Shortest(a, dist)
    ensures r in InternalRoutes(a, dist, hops, lsas) <==>
            || (exists lsa :: lsa in lsas.intra && IntraRouteFor(a, dist, hops, lsa, r))
            || (exists lsa :: lsa in lsas.inter && InterRouteFor(a, dist, hops, lsa, r))
    ensures r in InternalRoutes(a, dist, hops, lsas) ==>
            exists n, metric: u32 :: Resolved(dist, hops, n) && r.nextHops == hops[n] && CheapestVia(a, n, metric, r)
  {
    hide IntraRoutes, InterRoutes, Shortest, CheapestVia, RouteAt, Resolved;
    IntraRoutesMember(a, dist, hops, lsas.intra, r);
    InterRoutesMember(a, dist, hops, lsas.inter, r);
    if lsa :| lsa in lsas.intra && IntraRouteFor(a, dist, hops, lsa, r) {
      var p :| p in lsa.prefixes && RouteAt(dist, hops, lsa.refNode.value, p, p.metric, Intra, r);
      CostIsCheapest(a, dist, hops, lsa.refNode.value, p, p.metric, Intra, r);
    }
    if lsa :| lsa in lsas.inter && InterRouteFor(a, dist, hops, lsa, r) {
      CostIsCheapest(a, dist, hops, RouterNode(lsa.advertisingRouter), lsa.prefix, lsa.metric, Inter, r);
    }
  }

  lemma CostIsCheapest(a: Area, dist: Distances, hops: Hops, n: NodeId, p: Prefix, metric: u32, kind: RouteKind, r: Route)
    requires Shortest(a, dist) && RouteAt(dist, hops, n, p, metric, kind, r)
    ensures CheapestVia(a, n, metric, r) && Resolved(dist, hops, n) && r.nextHops == hops[n]
  {
    hide IsPath, End, SatCost;
    assert HasPath(a, n, dist[n]);
  }

  // ---------------------------------------------------------------- wrong routes

  /** Some Intra-Area-Prefix-LSA attaches a prefix to the node. */
  ghost predicate Advertised(lsas: Lsas, n: NodeId) {
    exists lsa, p :: lsa in lsas.intra && lsa.refNode == Some(n) && p in lsa.prefixes
  }

  /** A route to a prefix advertised at `n`, at the cost it has if `n` costs `d`, over a hop with which no path
      of that cost to `n` begins. */
  ghost predicate WrongRoute(a: Area, lsas: Lsas, n: NodeId, d: u32, r: Route) {
    && r.kind == Intra
    && (exists lsa, p :: lsa in lsas.intra && lsa.refNode == Some(n) && p in lsa.prefixes
          && r.prefix == p.address && r.length == p.length && r.cost == SaturatingAdd(d, p.metric))
    && (exists hop :: hop in r.nextHops && !LeadsTo(a, n, d, hop))
  }

  /** A wrong hop of an advertised node ends up in a route. */
  lemma WrongHopIsRouted(a: Area, lsas: Lsas, routes: seq<Route>, dist: Distances, hops: Hops, n: NodeId, hop: NextHop)
    requires RoutesOver(a, lsas, routes, dist, hops) && WrongHop(a, dist, hops, n, hop) && n != a.Start() && Advertised(lsas, n)
    ensures exists r :: r in routes && WrongRoute(a, lsas, n, dist[n], r)
  {
    hide Shortest, NoHopsExplained, AllHandedOver, EqualCostHops, Sheltered, Unmixed, Misled, HopsSound, NeighborsKnown, LeadsTo,
      ExternalRoutes, IntraRoutes, InterRoutes, SortedByLength;
    var lsa, p :| lsa in lsas.intra && lsa.refNode == Some(n) && p in lsa.prefixes;
    var r := Route(p.address, p.length, hops[n], SaturatingAdd(dist[n], p.metric), Intra);
    assert RouteAt(dist, hops, n, p, p.metric, Intra, r);
    assert IntraRouteFor(a, dist, hops, lsa, r);
    IntraRoutesMember(a, dist, hops, lsas.intra, r);
    assert r in routes && WrongRoute(a, lsas, n, dist[n], r);
  }

  /**
   Whatever the order of expansion, the route calculation of a misled area hands out a wrong route: to a prefix of
   the network at its cheapest cost, or to a prefix of the neighbor attached to it at the cost the network offers.
   */
  lemma MisledRoute(a: Area, lsas: Lsas, routes: seq<Route>, n: NodeId, d: u32, e: Edge, hop: NextHop)
    requires exists dist, hops :: RoutesOver(a, lsas, routes, dist, hops)
    requires MisledAt(a, n, d, e, hop) && e.to != a.Start() && Advertised(lsas, n) && Advertised(lsas, e.to)
    ensures exists r :: r in routes
              && (WrongRoute(a, lsas, n, d, r) || WrongRoute(a, lsas, e.to, SaturatingAdd(d, e.cost), r))
  {
    hide WrongRoute, Advertised, Shortest, AllHandedOver, HasPath, HasCheaper, NothingLeads, LeadsTo, WrongHop, InternalRoutes,
      ExternalRoutes, SortedByLength;
    var dist, hops :| RoutesOver(a, lsas, routes, dist, hops);
    MisledGivesWrongHop(a, dist, hops, n, d, e, hop);
    MisledDistances(a, dist, n, d, e, hop);
    hide MisledAt, RoutesOver;
    if WrongHop(a, dist, hops, e.to, hop) {
      WrongHopIsRouted(a, lsas, routes, dist, hops, e.to, hop);
    } else {
      var h :| WrongHop(a, dist, hops, n, h);
      WrongHopIsRouted(a, lsas, routes, dist, hops, n, h);
    }
  }

  /** In the small area the route to the network costs 2 plus the prefix metric, or that to router 3 does, and the
      route goes over a hop with which no path of cost 2 begins. */
  lemma MisleadingRoutes(hop: NextHop, lsas: Lsas, routes: seq<Route>)
    requires exists dist, hops :: RoutesOver(Misleading(hop), lsas, routes, dist, hops)
    requires Advertised(lsas, NetworkNode(2, 5)) && Advertised(lsas, RouterNode(3))
    ensures exists r :: r in routes
              && (WrongRoute(Misleading(hop), lsas, NetworkNode(2, 5), 2, r) || WrongRoute(Misleading(hop), lsas, RouterNode(3), 2, r))
  {
    hide RoutesOver, Advertised, WrongRoute, MisledAt;
    BlindNetworkMisleads(hop);
    MisledRoute(Misleading(hop), lsas, routes, NetworkNode(2, 5), 2, Edge(RouterNode(3), 0), hop);
  }
}
