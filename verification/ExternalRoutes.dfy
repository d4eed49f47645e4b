/** External segments, their routes, and the L3 policies linked to them.
    gbpservice/neutron/services/grouppolicy/plugin.py, lines 229 to 323. */
module ExternalRoutes {
  import opened Collections
  import opened Cidr

  datatype Route = Route(destination: Prefix, nexthop: Option<Address>)
  datatype Segment = Segment(cidr: Prefix, routes: set<Route>)

  /** `links` maps each linked segment to the addresses allocated on it; None is the unspecified address. */
  datatype Policy = Policy(pool: set<Prefix>, links: map<string, set<Option<Address>>>)

  datatype State = State(policies: map<string, Policy>, segments: map<string, Segment>)

  const DEFAULT_ROUTES: set<Prefix> := {Network(false, 0, 0), Network(true, 0, 0)}

  function Destinations(routes: set<Route>): set<Prefix> {
    (set r | r in routes :: r.destination) - DEFAULT_ROUTES
  }

  /** No two routes of the two segments are for the same network. */
  predicate Apart(a: Segment, b: Segment) {
    forall r, q :: r in a.routes && q in b.routes ==> Normal(r.destination) != Normal(q.destination)
  }

  predicate HopsInside(routes: set<Route>, cidr: Prefix) {
    forall r :: r in routes && r.nexthop.Some? ==> Covers(cidr, r.nexthop.value)
  }

  predicate AddressesInside(addresses: set<Option<Address>>, cidr: Prefix) {
    forall a :: a in addresses && a.Some? ==> Covers(cidr, a.value)
  }

  // ----- What the plugin checks -----

  /** _validate_routes for one linked policy: its pool, and the other segments it is linked to. */
  ghost predicate PolicyAllowsRoutes(s: State, id: string, added: set<Route>, p: Policy)
    requires id in s.segments
  {
    && Disjoint(p.pool, Destinations(added))
    && (forall e :: e in p.links && e != id && e in s.segments ==> Apart(s.segments[id], s.segments[e]))
  }

  ghost predicate RoutesAccepted(s: State, id: string, added: set<Route>)
    requires id in s.segments
  {
    added == {} ||
    ((forall l :: l in s.policies && id in s.policies[l].links ==> PolicyAllowsRoutes(s, id, added, s.policies[l]))
     && HopsInside(added, s.segments[id].cidr))
  }

  /** _validate_l3p_es for one added segment */
  ghost predicate SegmentAllowsPool(p: Policy, e: string, segment: Segment)
    requires e in p.links
  {
    && Disjoint(p.pool, Destinations(segment.routes))
    && Disjoint(p.pool, {segment.cidr})
    && AddressesInside(p.links[e], segment.cidr)
  }

  /** `order` lists the segments of `ids` in the order the database returns them. */
  ghost predicate IsOrder(order: seq<string>, ids: set<string>) {
    && (forall i :: 0 <= i < |order| ==> order[i] in ids)
    && (forall e :: e in ids ==> exists i :: 0 <= i < |order| && order[i] == e)
    && (forall i, j :: 0 <= i < j < |order| ==> order[i] != order[j])
  }

  /** _validate_identical_external_routes: the first segment against each other one. */
  predicate FirstApart(segments: seq<Segment>) {
    forall i :: 1 <= i < |segments| ==> Apart(segments[0], segments[i])
  }

  function SegmentsOf(s: State, order: seq<string>): (r: seq<Segment>)
    requires forall i :: 0 <= i < |order| ==> order[i] in s.segments
    ensures |r| == |order| && forall i :: 0 <= i < |r| ==> r[i] == s.segments[order[i]]
  {
    seq(|order|, i requires 0 <= i < |order| => s.segments[order[i]])
  }

  ghost predicate LinksAccepted(s: State, p: Policy, added: set<string>, order: seq<string>)
    requires added <= p.links.Keys && IsOrder(order, p.links.Keys) && p.links.Keys <= s.segments.Keys
  {
    added == {} ||
    ((forall e :: e in added ==> SegmentAllowsPool(p, e, s.segments[e])) && FirstApart(SegmentsOf(s, order)))
  }

  // ----- What the calls do to the tables -----

  function WithSegment(s: State, id: string, segment: Segment): State {
    s.(segments := s.segments[id := segment])
  }

  function WithRoutes(s: State, id: string, routes: set<Route>): State
    requires id in s.segments
  {
    WithSegment(s, id, s.segments[id].(routes := routes))
  }

  function WithoutSegment(s: State, id: string): State {
    s.(segments := s.segments - {id})
  }

  function WithPolicy(s: State, id: string, p: Policy): State {
    s.(policies := s.policies[id := p])
  }

  function WithoutPolicy(s: State, id: string): State {
    s.(policies := s.policies - {id})
  }

  /** Policies are linked to existing segments, a foreign key of the association table. */
  predicate LinksLive(s: State) {
    forall l :: l in s.policies ==> s.policies[l].links.Keys <= s.segments.Keys
  }

  // ----- The plugin -----

  /** netaddr's intersection test of two address sets */
  method Overlaps(ps: set<Prefix>, qs: set<Prefix>) returns (r: bool)
    ensures r <==> !Disjoint(ps, qs)
  {
    DisjointIsNoOverlap(ps, qs);
    r := exists p, q :: p in ps && q in qs && Overlap(p, q);
  }

  /** _validate_identical_external_routes */
  method ValidateIdenticalRoutes(esList: seq<Segment>) returns (ok: bool)
    ensures ok <==> FirstApart(esList)
  {
    if |esList| < 2 {
      return true;
    }
    var taken: set<Prefix> := {};
    for i := 1 to |esList|
      invariant forall n: Prefix ::
        n in taken <==> exists k, r :: 1 <= k < i && r in esList[k].routes && Normal(r.destination) == n
    {
      taken := taken + set r | r in esList[i].routes :: Normal(r.destination);
    }
    var left := esList[0].routes;
    while left != {}
      invariant left <= esList[0].routes
      invariant forall r :: r in esList[0].routes - left ==> Normal(r.destination) !in taken
    {
      var route :| route in left;
      if Normal(route.destination) in taken {
        return false;
      }
      left := left - {route};
    }
    return true;
  }

  class ExternalPlugin {
    var policies: map<string, Policy>
    var segments: map<string, Segment>

    ghost function View(): State
      reads this
    {
      State(policies, segments)
    }

    constructor ()
      ensures View() == State(map[], map[])
    {
      policies, segments := map[], map[];
    }

    /** The rows of `ids` in some order. */
    method Query(ids: set<string>) returns (order: seq<string>)
      ensures IsOrder(order, ids)
    {
      order := [];
      var left := ids;
      while left != {}
        invariant left <= ids && IsOrder(order, ids - left)
      {
        var id :| id in left;
        OneMore(order, ids - left, id);
        assert ids - left + {id} == ids - (left - {id});
        order := order + [id];
        left := left - {id};
      }
      assert ids - left == ids;
    }

    method Rows(ids: set<string>) returns (order: seq<string>, esList: seq<Segment>)
      requires ids <= segments.Keys
      ensures IsOrder(order, ids) && esList == SegmentsOf(View(), order)
    {
      order := Query(ids);
      esList := SegmentsOf(State(policies, segments), order);
    }

    /** _validate_routes; `added` are the routes the segment did not have before. */
    method ValidateRoutes(id: string, added: set<Route>) returns (ok: bool)
      requires id in segments
      requires LinksLive(View())
      ensures ok <==> RoutesAccepted(View(), id, added)
    {
      if added == {} {
        return true;
      }
      var addedDest := (set r | r in added :: r.destination) - DEFAULT_ROUTES;
      var left := set l | l in policies && id in policies[l].links;
      while left != {}
        invariant forall l :: l in left ==> l in policies && id in policies[l].links
        invariant forall l :: l in policies && id in policies[l].links && l !in left ==>
                    PolicyAllowsRoutes(View(), id, added, policies[l])
      {
        var l :| l in left;
        var fine := ValidatePolicyRoutes(id, added, addedDest, l);
        if !fine {
          return false;
        }
        left := left - {l};
      }
      return forall r :: r in added && r.nexthop.Some? ==> Covers(segments[id].cidr, r.nexthop.value);
    }

    method ValidatePolicyRoutes(id: string, ghost added: set<Route>, addedDest: set<Prefix>, l: string)
      returns (ok: bool)
      requires id in segments && l in policies && policies[l].links.Keys <= segments.Keys
      requires addedDest == Destinations(added)
      ensures ok <==> PolicyAllowsRoutes(View(), id, added, policies[l])
    {
      var overlap := Overlaps(policies[l].pool, addedDest);
      if overlap {
        return false;
      }
      var order, others := Rows(policies[l].links.Keys - {id});
      ok := ValidateIdenticalRoutes([segments[id]] + others);
      CurrentApart(View(), id, policies[l].links.Keys, order);
    }

    /** _validate_l3p_es; `order` is the order in which the segments of the policy are retrieved. */
    method ValidateL3pEs(p: Policy, added: set<string>) returns (ok: bool, order: seq<string>)
      requires added <= p.links.Keys <= segments.Keys
      ensures IsOrder(order, p.links.Keys)
      ensures ok <==> LinksAccepted(View(), p, added, order)
    {
      var left := added;
      var all, esListAll := Rows(p.links.Keys);
      order := all;
      if added == {} {
        return true, order;
      }
      while left != {}
        invariant left <= added
        invariant forall e :: e in added - left ==> SegmentAllowsPool(p, e, segments[e])
      {
        var e :| e in left;
        var fine := ValidateAddedSegment(p, e);
        if !fine {
          return false, order;
        }
        left := left - {e};
      }
      ok := ValidateIdenticalRoutes(esListAll);
    }

    method ValidateAddedSegment(p: Policy, e: string) returns (ok: bool)
      requires e in p.links && e in segments
      ensures ok <==> SegmentAllowsPool(p, e, segments[e])
    {
      var segment := segments[e];
      var overlap := Overlaps(p.pool, (set r | r in segment.routes :: r.destination) - DEFAULT_ROUTES);
      if overlap {
        return false;
      }
      overlap := Overlaps(p.pool, {segment.cidr});
      if overlap {
        return false;
      }
      return forall a :: a in p.links[e] && a.Some? ==> Covers(segment.cidr, a.value);
    }

    // ----- Segments -----

    /** create_external_segment */
    method CreateSegment(id: string, cidr: Prefix, routes: set<Route>) returns (ok: bool)
      requires id !in segments && LinksLive(View())
      modifies this
      ensures ok <==> RoutesAccepted(WithSegment(old(View()), id, Segment(cidr, routes)), id, routes)
      ensures View() == if ok then WithSegment(old(View()), id, Segment(cidr, routes)) else old(View())
    {
      var before := segments;
      segments := segments[id := Segment(cidr, routes)];
      ok := ValidateRoutes(id, routes);
      if !ok {
        segments := before;
      }
    }

    /** update_external_segment */
    method UpdateSegment(id: string, routes: set<Route>) returns (ok: bool)
      requires LinksLive(View())
      modifies this
      ensures ok <==> id in old(segments) &&
                      RoutesAccepted(WithRoutes(old(View()), id, routes), id, routes - old(segments)[id].routes)
      ensures View() == if ok then WithRoutes(old(View()), id, routes) else old(View())
    {
      if id !in segments {
        return false;
      }
      var before := segments;
      segments := segments[id := segments[id].(routes := routes)];
      ok := ValidateRoutes(id, routes - before[id].routes);
      if !ok {
        segments := before;
      }
    }

    /** delete_external_segment; `used` tells whether NAT pools or external policies refer to the segment. */
    method DeleteSegment(id: string, used: bool) returns (ok: bool)
      modifies this
      ensures ok <==> id in old(segments) && !used && forall l :: l in old(policies) ==> id !in old(policies)[l].links
      ensures View() == if ok then WithoutSegment(old(View()), id) else old(View())
    {
      if id !in segments || (exists l :: l in policies && id in policies[l].links) || used {
        return false;
      }
      segments := segments - {id};
      return true;
    }

    // ----- L3 policies -----

    /** create_l3_policy */
    method CreatePolicy(id: string, pool: set<Prefix>, links: map<string, set<Option<Address>>>)
      returns (ok: bool, order: seq<string>)
      requires id !in policies
      modifies this
      ensures IsOrder(order, links.Keys)
      ensures ok <==>
              links.Keys <= old(segments).Keys && LinksAccepted(old(View()), Policy(pool, links), links.Keys, order)
      ensures View() == if ok then WithPolicy(old(View()), id, Policy(pool, links)) else old(View())
    {
      ok, order := LinkPolicy(id, Policy(pool, links), links.Keys);
    }

    /** update_l3_policy of the external segments; the pool of a policy cannot be updated. */
    method UpdatePolicy(id: string, links: map<string, set<Option<Address>>>) returns (ok: bool, order: seq<string>)
      modifies this
      ensures IsOrder(order, links.Keys)
      ensures ok <==> && id in old(policies) && links.Keys <= old(segments).Keys
                      && LinksAccepted(old(View()), old(policies)[id].(links := links),
                                       links.Keys - old(policies)[id].links.Keys, order)
      ensures View() == if ok then WithPolicy(old(View()), id, old(policies)[id].(links := links)) else old(View())
    {
      if id !in policies {
        order := Query(links.Keys);
        return false, order;
      }
      ok, order := LinkPolicy(id, policies[id].(links := links), links.Keys - policies[id].links.Keys);
    }

    method LinkPolicy(id: string, p: Policy, added: set<string>) returns (ok: bool, order: seq<string>)
      requires added <= p.links.Keys
      modifies this
      ensures IsOrder(order, p.links.Keys)
      ensures ok <==> p.links.Keys <= old(segments).Keys && LinksAccepted(old(View()), p, added, order)
      ensures View() == if ok then WithPolicy(old(View()), id, p) else old(View())
    {
      if !(p.links.Keys <= segments.Keys) {
        order := Query(p.links.Keys);
        return false, order;
      }
      var before := policies;
      policies := policies[id := p];
      ok, order := ValidateL3pEs(p, added);
      if !ok {
        policies := before;
      }
    }

    /** delete_l3_policy */
    method DeletePolicy(id: string) returns (ok: bool)
      modifies this
      ensures ok <==> id in old(policies)
      ensures View() == if ok then WithoutPolicy(old(View()), id) else old(View())
    {
      if id !in policies {
        return false;
      }
      policies := policies - {id};
      return true;
    }
  }

  lemma OneMore(order: seq<string>, ids: set<string>, id: string)
    requires IsOrder(order, ids) && id !in ids
    ensures IsOrder(order + [id], ids + {id})
  {
    var more := order + [id];
    forall e | e in ids + {id} ensures exists i :: 0 <= i < |more| && more[i] == e {
      if e == id {
        assert more[|order|] == e;
      } else {
        var i :| 0 <= i < |order| && order[i] == e;
        assert more[i] == e;
      }
    }
  }

  /** Comparing the segment with the retrieved others covers every other linked segment. */
  lemma CurrentApart(s: State, id: string, linked: set<string>, order: seq<string>)
    requires id in s.segments && linked <= s.segments.Keys && IsOrder(order, linked - {id})
    ensures FirstApart([s.segments[id]] + SegmentsOf(s, order)) <==>
            forall e :: e in linked && e != id ==> Apart(s.segments[id], s.segments[e])
  {
    var all := [s.segments[id]] + SegmentsOf(s, order);
    if FirstApart(all) {
      forall e | e in linked && e != id ensures Apart(s.segments[id], s.segments[e]) {
        assert e in linked - {id};
        var i :| 0 <= i < |order| && order[i] == e;
        assert all[i + 1] == s.segments[e];
      }
    } else {
      var i :| 1 <= i < |all| && !Apart(all[0], all[i]);
      assert all[i] == s.segments[order[i - 1]];
    }
  }
}
