/** What the external connectivity calls accept and store, in terms of addresses and the stored fields alone. */
module ExternalRouteCalls {
  import opened Collections
  import opened Cidr
  import opened ExternalRoutes
  import opened ExternalRouteRuns

  ghost predicate SameAddresses(p: Prefix, q: Prefix) {
    forall a :: Covers(p, a) <==> Covers(q, a)
  }

  /** 0.0.0.0/0 or ::/0 */
  predicate IsDefaultRoute(p: Prefix) {
    p.address == 0 && p.length == 0
  }

  // ----- What is compared -----

  /** Only the two default routes are left out of the comparison with pools. */
  lemma DestinationsExactly(routes: set<Route>, d: Prefix)
    ensures d in Destinations(routes) <==> (exists r :: r in routes && r.destination == d) && !IsDefaultRoute(d)
  {
  }

  /** Segments are apart exactly if no two of their routes cover the same addresses. */
  lemma ApartExactly(a: Segment, b: Segment)
    ensures Apart(a, b) <==>
            forall r, q :: r in a.routes && q in b.routes ==> !SameAddresses(r.destination, q.destination)
  {
    forall r, q | r in a.routes && q in b.routes
      ensures Normal(r.destination) == Normal(q.destination) <==> SameAddresses(r.destination, q.destination)
    {
      NormalIsAddressSet(r.destination, q.destination);
    }
  }

  /** No address of the pool is routed, except by a default route. */
  ghost predicate PoolNotRouted(pool: set<Prefix>, routes: set<Route>) {
    forall p, r, a :: p in pool && r in routes && Covers(p, a) && Covers(r.destination, a) ==>
      IsDefaultRoute(r.destination)
  }

  lemma DisjointExactly(pool: set<Prefix>, routes: set<Route>)
    ensures Disjoint(pool, Destinations(routes)) <==> PoolNotRouted(pool, routes)
  {
    if a :| InSome(pool, a) && InSome(Destinations(routes), a) {
      var p :| p in pool && Covers(p, a);
      var d :| d in Destinations(routes) && Covers(d, a);
      DestinationsExactly(routes, d);
      var r :| r in routes && r.destination == d;
      assert Covers(r.destination, a);
    }
    if !PoolNotRouted(pool, routes) {
      var p, r, a :| p in pool && r in routes && Covers(p, a) && Covers(r.destination, a)
          && !IsDefaultRoute(r.destination);
      DestinationsExactly(routes, r.destination);
      assert InSome(pool, a) && InSome(Destinations(routes), a);
    }
  }

  // ----- What a call accepts -----

  /** No route of the segment and of another segment of the policy cover the same addresses. */
  ghost predicate RoutesDiffer(s: State, id: string, p: Policy)
    requires id in s.segments
  {
    forall e, r, q ::
      (e in p.links && e != id && e in s.segments && r in s.segments[id].routes && q in s.segments[e].routes) ==>
        !SameAddresses(r.destination, q.destination)
  }

  lemma RoutesDifferExactly(s: State, id: string, p: Policy)
    requires id in s.segments
    ensures RoutesDiffer(s, id, p) <==>
            forall e :: e in p.links && e != id && e in s.segments ==> Apart(s.segments[id], s.segments[e])
  {
    forall e | e in p.links && e != id && e in s.segments
      ensures Apart(s.segments[id], s.segments[e]) <==>
              forall r, q :: r in s.segments[id].routes && q in s.segments[e].routes ==>
                !SameAddresses(r.destination, q.destination)
    {
      ApartExactly(s.segments[id], s.segments[e]);
    }
  }

  /** Added routes are accepted exactly if they route no address of a linked pool but by default, the segment's routes
      differ from those of the other segments of each linked policy, and the added next hops lie in the segment. */
  lemma RoutesAcceptedExactly(s: State, id: string, added: set<Route>)
    requires id in s.segments && added != {}
    ensures RoutesAccepted(s, id, added) <==>
            && (forall l :: l in s.policies && id in s.policies[l].links ==>
                  PoolNotRouted(s.policies[l].pool, added) && RoutesDiffer(s, id, s.policies[l]))
            && (forall r :: r in added && r.nexthop.Some? ==> Covers(s.segments[id].cidr, r.nexthop.value))
  {
    forall l | l in s.policies && id in s.policies[l].links
      ensures PolicyAllowsRoutes(s, id, added, s.policies[l]) <==>
              PoolNotRouted(s.policies[l].pool, added) && RoutesDiffer(s, id, s.policies[l])
    {
      DisjointExactly(s.policies[l].pool, added);
      RoutesDifferExactly(s, id, s.policies[l]);
    }
  }

  /** Nothing in the segment or behind it is an address of the pool, and the addresses on it lie in it. */
  ghost predicate SegmentFits(pool: set<Prefix>, addresses: set<Option<Address>>, segment: Segment) {
    && PoolNotRouted(pool, segment.routes)
    && (forall p, a :: p in pool ==> !(Covers(p, a) && Covers(segment.cidr, a)))
    && (forall x :: x in addresses && x.Some? ==> Covers(segment.cidr, x.value))
  }

  lemma SegmentFitsExactly(p: Policy, e: string, segment: Segment)
    requires e in p.links
    ensures SegmentAllowsPool(p, e, segment) <==> SegmentFits(p.pool, p.links[e], segment)
  {
    DisjointExactly(p.pool, segment.routes);
    forall a ensures InSome({segment.cidr}, a) <==> Covers(segment.cidr, a) {
      assert segment.cidr in {segment.cidr};
    }
  }

  /** No route of the first segment covers the same addresses as a route of another one. */
  ghost predicate FirstDiffers(s: State, order: seq<string>)
    requires forall i :: 0 <= i < |order| ==> order[i] in s.segments
  {
    forall i, r, q ::
      (1 <= i < |order| && r in s.segments[order[0]].routes && q in s.segments[order[i]].routes) ==>
        !SameAddresses(r.destination, q.destination)
  }

  lemma FirstDiffersExactly(s: State, order: seq<string>)
    requires forall i :: 0 <= i < |order| ==> order[i] in s.segments
    ensures FirstApart(SegmentsOf(s, order)) <==> FirstDiffers(s, order)
  {
    var segments := SegmentsOf(s, order);
    forall i | 1 <= i < |order|
      ensures Apart(segments[0], segments[i]) <==>
              forall r, q :: r in s.segments[order[0]].routes && q in s.segments[order[i]].routes ==>
                !SameAddresses(r.destination, q.destination)
    {
      ApartExactly(segments[0], segments[i]);
    }
  }

  /** Added links are accepted exactly if each added segment fits the pool and its addresses, and no route of the first
      segment retrieved covers the same addresses as a route of another one. */
  lemma LinksAcceptedExactly(s: State, p: Policy, added: set<string>, order: seq<string>)
    requires added <= p.links.Keys && IsOrder(order, p.links.Keys) && p.links.Keys <= s.segments.Keys && added != {}
    ensures LinksAccepted(s, p, added, order) <==>
            && (forall e :: e in added ==> SegmentFits(p.pool, p.links[e], s.segments[e]))
            && FirstDiffers(s, order)
  {
    forall e | e in added
      ensures SegmentAllowsPool(p, e, s.segments[e]) <==> SegmentFits(p.pool, p.links[e], s.segments[e])
    {
      SegmentFitsExactly(p, e, s.segments[e]);
    }
    FirstDiffersExactly(s, order);
  }

  // ----- Default routes -----

  /** A prefix of length zero covers the whole family. */
  lemma ZeroLength(p: Prefix)
    requires p.length == 0
    ensures Normal(p) == Network(p.v6, 0, 0)
  {
    DivUnique(p.address, Size(p), 0);
  }

  /** A default route can be added to a segment, linked or not, whatever the pools: exactly if its next hop lies in the
      segment and no other segment of a linked policy has a default route of the same family. */
  lemma DefaultRouteAccepted(s: State, id: string, v6: bool, hop: Option<Address>)
    requires AllDistinct(s) && id in s.segments && Route(Network(v6, 0, 0), hop) !in s.segments[id].routes
    ensures Accepted(s, UpdateSegment(id, s.segments[id].routes + {Route(Network(v6, 0, 0), hop)}), []) <==>
            && (hop.Some? ==> Covers(s.segments[id].cidr, hop.value))
            && (forall l, e, q ::
                  (l in s.policies && id in s.policies[l].links && e in s.policies[l].links && e != id
                   && e in s.segments && q in s.segments[e].routes) ==>
                    q.destination.v6 != v6 || q.destination.length != 0)
  {
    var route := Route(Network(v6, 0, 0), hop);
    var routes := s.segments[id].routes + {route};
    var t := WithRoutes(s, id, routes);
    assert routes - s.segments[id].routes == {route};
    RoutesAcceptedExactly(t, id, {route});
    forall l | l in s.policies && id in s.policies[l].links
      ensures RoutesDiffer(t, id, s.policies[l]) <==> NoDefaultBeside(s, id, s.policies[l], v6)
    {
      assert Distinct(s, s.policies[l].links.Keys);
      DefaultRouteDiffers(s, id, v6, hop, s.policies[l]);
    }
  }

  ghost predicate NoDefaultBeside(s: State, id: string, p: Policy, v6: bool) {
    forall e, q :: e in p.links && e != id && e in s.segments && q in s.segments[e].routes ==>
      q.destination.v6 != v6 || q.destination.length != 0
  }

  lemma DefaultRouteDiffers(s: State, id: string, v6: bool, hop: Option<Address>, p: Policy)
    requires id in s.segments && id in p.links && Distinct(s, p.links.Keys)
    ensures var routes := s.segments[id].routes + {Route(Network(v6, 0, 0), hop)};
            RoutesDiffer(WithRoutes(s, id, routes), id, p) <==> NoDefaultBeside(s, id, p, v6)
  {
    var routes := s.segments[id].routes + {Route(Network(v6, 0, 0), hop)};
    var t := WithRoutes(s, id, routes);
    RoutesDifferExactly(t, id, p);
    forall e | e in p.links && e != id && e in s.segments
      ensures Apart(t.segments[id], t.segments[e]) <==>
              forall q :: q in s.segments[e].routes ==> q.destination.v6 != v6 || q.destination.length != 0
    {
      assert Apart(s.segments[id], s.segments[e]) && t.segments[e] == s.segments[e];
      DefaultRouteApart(s.segments[id], v6, hop, s.segments[e]);
    }
  }

  lemma DefaultRouteApart(a: Segment, v6: bool, hop: Option<Address>, b: Segment)
    requires Apart(a, b)
    ensures Apart(a.(routes := a.routes + {Route(Network(v6, 0, 0), hop)}), b) <==>
            forall q :: q in b.routes ==> q.destination.v6 != v6 || q.destination.length != 0
  {
    var route := Route(Network(v6, 0, 0), hop);
    var more := a.(routes := a.routes + {route});
    assert route in more.routes;
    ZeroLength(route.destination);
    forall q | q in b.routes
      ensures Normal(q.destination) == Normal(route.destination) <==>
              q.destination.v6 == v6 && q.destination.length == 0
    {
      if q.destination.length == 0 {
        ZeroLength(q.destination);
      }
    }
  }

  // ----- What a call stores -----

  /** An accepted call stores what it asks for and touches nothing else. */
  lemma CallStores(s: State, c: Call, order: seq<string>, t: State)
    requires Next(s, c, order, t) && Accepted(s, c, order)
    ensures match c
            case CreateSegment(id, cidr, routes) =>
              t.policies == s.policies && t.segments == s.segments[id := Segment(cidr, routes)]
            case UpdateSegment(id, routes) =>
              && id in s.segments && t.policies == s.policies
              && t.segments == s.segments[id := Segment(s.segments[id].cidr, routes)]
            case DeleteSegment(id, _) => t.policies == s.policies && t.segments == s.segments - {id}
            case CreatePolicy(id, pool, links) =>
              t.segments == s.segments && t.policies == s.policies[id := Policy(pool, links)]
            case UpdatePolicy(id, links) =>
              && id in s.policies && t.segments == s.segments
              && t.policies == s.policies[id := Policy(s.policies[id].pool, links)]
            case DeletePolicy(id) => t.segments == s.segments && t.policies == s.policies - {id}
  {
  }
}
