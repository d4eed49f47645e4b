/** Runs of the external connectivity calls: checks on what was added keep properties of everything. */
module ExternalRouteRuns {
  import opened Collections
  import opened Cidr
  import opened ExternalRoutes

  datatype Call =
    | CreateSegment(id: string, cidr: Prefix, routes: set<Route>)
    | UpdateSegment(id: string, routes: set<Route>)
    | DeleteSegment(id: string, used: bool)
    | CreatePolicy(id: string, pool: set<Prefix>, links: map<string, set<Option<Address>>>)
    | UpdatePolicy(id: string, links: map<string, set<Option<Address>>>)
    | DeletePolicy(id: string)

  predicate Proper(s: State, c: Call) {
    match c
    case CreateSegment(id, _, _) => id !in s.segments
    case CreatePolicy(id, _, _) => id !in s.policies
    case _ => true
  }

  /** The policy a linking call would store, and the segments it adds. */
  function Linked(s: State, c: Call): Policy
    requires c.CreatePolicy? || (c.UpdatePolicy? && c.id in s.policies)
  {
    if c.CreatePolicy? then Policy(c.pool, c.links) else s.policies[c.id].(links := c.links)
  }

  function AddedLinks(s: State, c: Call): set<string>
    requires c.CreatePolicy? || (c.UpdatePolicy? && c.id in s.policies)
  {
    if c.CreatePolicy? then c.links.Keys else c.links.Keys - s.policies[c.id].links.Keys
  }

  /** Acceptance; a linking call depends on the order in which the segments are retrieved. */
  ghost predicate Accepted(s: State, c: Call, order: seq<string>) {
    match c
    case CreateSegment(id, cidr, routes) => RoutesAccepted(WithSegment(s, id, Segment(cidr, routes)), id, routes)
    case UpdateSegment(id, routes) =>
      id in s.segments && RoutesAccepted(WithRoutes(s, id, routes), id, routes - s.segments[id].routes)
    case DeleteSegment(id, used) =>
      id in s.segments && !used && forall l :: l in s.policies ==> id !in s.policies[l].links
    case DeletePolicy(id) => id in s.policies
    case _ =>
      && (c.UpdatePolicy? ==> c.id in s.policies) && c.links.Keys <= s.segments.Keys && IsOrder(order, c.links.Keys)
      && LinksAccepted(s, Linked(s, c), AddedLinks(s, c), order)
  }

  function After(s: State, c: Call): State
    requires c.UpdateSegment? ==> c.id in s.segments
    requires c.UpdatePolicy? ==> c.id in s.policies
  {
    match c
    case CreateSegment(id, cidr, routes) => WithSegment(s, id, Segment(cidr, routes))
    case UpdateSegment(id, routes) => WithRoutes(s, id, routes)
    case DeleteSegment(id, _) => WithoutSegment(s, id)
    case DeletePolicy(id) => WithoutPolicy(s, id)
    case _ => WithPolicy(s, c.id, Linked(s, c))
  }

  ghost predicate Next(s: State, c: Call, order: seq<string>, t: State) {
    Proper(s, c) && if Accepted(s, c, order) then t == After(s, c) else t == s
  }

  /** The plugin's methods take exactly these steps. */
  method Perform(p: ExternalPlugin, c: Call) returns (ok: bool, order: seq<string>)
    requires LinksLive(p.View()) && Proper(p.View(), c)
    modifies p
    ensures ok == Accepted(old(p.View()), c, order) && Next(old(p.View()), c, order, p.View())
  {
    order := [];
    match c {
      case CreateSegment(id, cidr, routes) => ok := p.CreateSegment(id, cidr, routes);
      case UpdateSegment(id, routes) => ok := p.UpdateSegment(id, routes);
      case DeleteSegment(id, used) => ok := p.DeleteSegment(id, used);
      case CreatePolicy(id, pool, links) => ok, order := p.CreatePolicy(id, pool, links);
      case UpdatePolicy(id, links) => ok, order := p.UpdatePolicy(id, links);
      case DeletePolicy(id) => ok := p.DeletePolicy(id);
    }
  }

  // ----- Pools, segments and next hops -----

  /** The pool shares no address with the segment or with a network it routes to. */
  ghost predicate PoolClear(p: Policy, segment: Segment) {
    Disjoint(p.pool, {segment.cidr}) && Disjoint(p.pool, Destinations(segment.routes))
  }

  ghost predicate Clear(s: State) {
    && LinksLive(s)
    && (forall l, e :: l in s.policies && e in s.policies[l].links && e in s.segments ==>
          PoolClear(s.policies[l], s.segments[e]))
    && (forall e :: e in s.segments ==> HopsInside(s.segments[e].routes, s.segments[e].cidr))
  }

  /** Old destinations and added ones are all of them. */
  lemma DisjointFromAll(pool: set<Prefix>, was: set<Route>, now: set<Route>)
    requires Disjoint(pool, Destinations(was)) && Disjoint(pool, Destinations(now - was))
    ensures Disjoint(pool, Destinations(now))
  {
    DisjointIsNoOverlap(pool, Destinations(was));
    DisjointIsNoOverlap(pool, Destinations(now - was));
    forall p, q | p in pool && q in Destinations(now) ensures !Overlap(p, q) {
      var r :| r in now && r.destination == q;
      assert if r in was then q in Destinations(was) else q in Destinations(now - was);
    }
    DisjointIsNoOverlap(pool, Destinations(now));
  }

  lemma UpdateSegmentClear(s: State, id: string, routes: set<Route>, l: string)
    requires Clear(s) && id in s.segments && l in s.policies && id in s.policies[l].links
    requires RoutesAccepted(WithRoutes(s, id, routes), id, routes - s.segments[id].routes)
    ensures PoolClear(s.policies[l], s.segments[id].(routes := routes))
  {
    var was := s.segments[id].routes;
    var pool := s.policies[l].pool;
    assert PoolClear(s.policies[l], s.segments[id]);
    if routes - was == {} {
      NothingDisjoint(pool, routes - was);
    } else {
      assert PolicyAllowsRoutes(WithRoutes(s, id, routes), id, routes - was, s.policies[l]);
    }
    DisjointFromAll(pool, was, routes);
  }

  lemma NothingDisjoint(pool: set<Prefix>, none: set<Route>)
    requires none == {}
    ensures Disjoint(pool, Destinations(none))
  {
    DisjointIsNoOverlap(pool, Destinations(none));
  }

  lemma HopsFromAll(was: set<Route>, now: set<Route>, cidr: Prefix)
    requires HopsInside(was, cidr) && (now - was == {} || HopsInside(now - was, cidr))
    ensures HopsInside(now, cidr)
  {
    forall r | r in now && r.nexthop.Some? ensures Covers(cidr, r.nexthop.value) {
      assert r in was || r in now - was;
    }
  }

  lemma SegmentCallsClear(s: State, c: Call, t: State)
    requires Clear(s) && (c.CreateSegment? || c.UpdateSegment? || c.DeleteSegment?) && Next(s, c, [], t)
            && Accepted(s, c, [])
    ensures Clear(t)
  {
    forall l, e | l in t.policies && e in t.policies[l].links && e in t.segments
      ensures PoolClear(t.policies[l], t.segments[e])
    {
      assert e in s.segments;
      if c.UpdateSegment? && c.id == e {
        UpdateSegmentClear(s, c.id, c.routes, l);
      } else {
        assert PoolClear(s.policies[l], s.segments[e]);
      }
    }
    forall e | e in t.segments ensures HopsInside(t.segments[e].routes, t.segments[e].cidr) {
      assert e in s.segments ==> HopsInside(s.segments[e].routes, s.segments[e].cidr);
      if c.UpdateSegment? && c.id == e {
        HopsFromAll(s.segments[e].routes, c.routes, s.segments[e].cidr);
      }
    }
  }

  lemma PolicyCallsClear(s: State, c: Call, order: seq<string>, t: State)
    requires Clear(s) && (c.CreatePolicy? || c.UpdatePolicy? || c.DeletePolicy?) && Next(s, c, order, t)
            && Accepted(s, c, order)
    ensures Clear(t)
  {
    forall l, e | l in t.policies && e in t.policies[l].links && e in t.segments
      ensures PoolClear(t.policies[l], t.segments[e])
    {
      if !c.DeletePolicy? && l == c.id && e in AddedLinks(s, c) {
        assert SegmentAllowsPool(Linked(s, c), e, s.segments[e]);
      } else {
        assert l in s.policies && PoolClear(s.policies[l], s.segments[e]);
      }
    }
  }

  lemma StepKeepsClear(s: State, c: Call, order: seq<string>, t: State)
    requires Clear(s) && Next(s, c, order, t)
    ensures Clear(t)
  {
    if Accepted(s, c, order) {
      if c.CreatePolicy? || c.UpdatePolicy? || c.DeletePolicy? {
        PolicyCallsClear(s, c, order, t);
      } else {
        SegmentCallsClear(s, c, t);
      }
    }
  }

  // ----- Identical routes -----

  /** No network is routed by two segments of the policy. */
  ghost predicate Distinct(s: State, linked: set<string>) {
    forall e, f :: e in linked && f in linked && e != f && e in s.segments && f in s.segments ==>
      Apart(s.segments[e], s.segments[f])
  }

  ghost predicate AllDistinct(s: State) {
    forall l :: l in s.policies ==> Distinct(s, s.policies[l].links.Keys)
  }

  /** What linking leaves to be checked: all the segments but the first one retrieved. */
  ghost predicate RestApart(s: State, order: seq<string>)
    requires forall i :: 0 <= i < |order| ==> order[i] in s.segments
  {
    forall i, j :: 1 <= i < j < |order| ==> Apart(s.segments[order[i]], s.segments[order[j]])
  }

  lemma DistinctInOrder(s: State, linked: set<string>, order: seq<string>)
    requires IsOrder(order, linked) && linked <= s.segments.Keys
    ensures Distinct(s, linked) <==> FirstApart(SegmentsOf(s, order)) && RestApart(s, order)
  {
    if Distinct(s, linked) {
      forall i | 1 <= i < |order| ensures Apart(s.segments[order[0]], s.segments[order[i]]) {
        assert order[0] != order[i];
      }
    }
    if FirstApart(SegmentsOf(s, order)) && RestApart(s, order) {
      forall e, f | e in linked && f in linked && e != f ensures Apart(s.segments[e], s.segments[f]) {
        var i :| 0 <= i < |order| && order[i] == e;
        var j :| 0 <= j < |order| && order[j] == f;
        InOrderApart(s, order, if i < j then i else j, if i < j then j else i);
      }
    }
  }

  lemma InOrderApart(s: State, order: seq<string>, i: nat, j: nat)
    requires forall i :: 0 <= i < |order| ==> order[i] in s.segments
    requires i < j < |order| && FirstApart(SegmentsOf(s, order)) && RestApart(s, order)
    ensures Apart(s.segments[order[i]], s.segments[order[j]]) && Apart(s.segments[order[j]], s.segments[order[i]])
  {
    var all := SegmentsOf(s, order);
    assert i == 0 ==> Apart(all[0], all[j]);
  }

  /** An accepted call keeps every policy's routes distinct, unless it adds links: then exactly if the rest is apart. */
  lemma StepDistinct(s: State, c: Call, order: seq<string>, t: State)
    requires Clear(s) && AllDistinct(s) && Next(s, c, order, t) && Accepted(s, c, order)
    ensures AllDistinct(t) <==>
            ((c.CreatePolicy? || c.UpdatePolicy?) && AddedLinks(s, c) != {} ==> RestApart(s, order))
  {
    match c {
      case CreatePolicy(id, pool, links) => LinkingDistinct(s, c, order, t);
      case UpdatePolicy(id, links) => LinkingDistinct(s, c, order, t);
      case UpdateSegment(id, routes) => UpdateSegmentDistinct(s, id, routes, t);
      case _ =>
        forall l | l in t.policies ensures Distinct(t, t.policies[l].links.Keys) {
          assert Distinct(s, s.policies[l].links.Keys);
        }
    }
  }

  lemma LinkingDistinct(s: State, c: Call, order: seq<string>, t: State)
    requires Clear(s) && AllDistinct(s) && (c.CreatePolicy? || c.UpdatePolicy?) && Next(s, c, order, t)
            && Accepted(s, c, order)
    ensures AllDistinct(t) <==> (AddedLinks(s, c) != {} ==> RestApart(s, order))
  {
    DistinctInOrder(t, c.links.Keys, order);
    assert SegmentsOf(t, order) == SegmentsOf(s, order);
    OthersStayDistinct(s, c, order, t);
    if AddedLinks(s, c) == {} {
      FewerLinksDistinct(s, c, t);
    }
  }

  /** Only the policy of the call has other links. */
  lemma OthersStayDistinct(s: State, c: Call, order: seq<string>, t: State)
    requires AllDistinct(s) && (c.CreatePolicy? || c.UpdatePolicy?) && Next(s, c, order, t) && Accepted(s, c, order)
    ensures AllDistinct(t) <==> Distinct(t, c.links.Keys)
  {
    forall l | l in t.policies && l != c.id ensures Distinct(t, t.policies[l].links.Keys) {
      assert Distinct(s, s.policies[l].links.Keys);
    }
    assert t.policies[c.id].links.Keys == c.links.Keys;
  }

  lemma FewerLinksDistinct(s: State, c: Call, t: State)
    requires AllDistinct(s) && (c.CreatePolicy? || (c.UpdatePolicy? && c.id in s.policies))
    requires t.segments == s.segments && AddedLinks(s, c) == {}
    ensures Distinct(t, c.links.Keys)
  {
    if c.UpdatePolicy? {
      assert Distinct(s, s.policies[c.id].links.Keys);
      assert forall e :: e in c.links.Keys ==> e !in AddedLinks(s, c);
    }
  }

  /** A route update compares the segment with all the others of each linked policy, however many there are. */
  lemma UpdateSegmentDistinct(s: State, id: string, routes: set<Route>, t: State)
    requires AllDistinct(s) && id in s.segments && t == WithRoutes(s, id, routes)
    requires RoutesAccepted(t, id, routes - s.segments[id].routes)
    ensures AllDistinct(t)
  {
    forall l | l in t.policies ensures Distinct(t, t.policies[l].links.Keys) {
      assert Distinct(s, s.policies[l].links.Keys);
      forall e | e in s.policies[l].links && id in s.policies[l].links && e != id && e in s.segments
        ensures Apart(t.segments[id], t.segments[e]) && Apart(t.segments[e], t.segments[id])
      {
        if routes - s.segments[id].routes == {} {
          assert forall r :: r in routes ==> r !in routes - s.segments[id].routes;
        } else {
          assert PolicyAllowsRoutes(t, id, routes - s.segments[id].routes, s.policies[l]);
        }
      }
    }
  }

  // ----- The exact condition, whatever the order of retrieval -----

  predicate IsLinking(s: State, c: Call) {
    c.CreatePolicy? || (c.UpdatePolicy? && c.id in s.policies)
  }

  /** Some segment shares no network with any other of the linked ones. */
  ghost predicate SomeApart(s: State, linked: set<string>)
    requires linked <= s.segments.Keys
  {
    exists e :: e in linked && ApartFromOthers(s, linked, e)
  }

  ghost predicate ApartFromOthers(s: State, linked: set<string>, e: string)
    requires linked <= s.segments.Keys && e in linked
  {
    forall f :: f in linked && f != e ==> Apart(s.segments[e], s.segments[f])
  }

  /** Each added segment passes the checks on its own. */
  ghost predicate PoolAllowed(s: State, c: Call)
    requires IsLinking(s, c) && c.links.Keys <= s.segments.Keys
  {
    forall e :: e in AddedLinks(s, c) ==> SegmentAllowsPool(Linked(s, c), e, s.segments[e])
  }

  /** A call that links segments with a network in common, beside one that is apart from all the others. */
  ghost predicate SlipsThrough(s: State, c: Call) {
    && IsLinking(s, c) && c.links.Keys <= s.segments.Keys && AddedLinks(s, c) != {} && PoolAllowed(s, c)
    && !Distinct(s, c.links.Keys) && SomeApart(s, c.links.Keys)
  }

  /** The rows can be retrieved in some order. */
  lemma {:induction false} SomeOrder(ids: set<string>) returns (order: seq<string>)
    ensures IsOrder(order, ids)
  {
    if ids == {} {
      order := [];
    } else {
      var id :| id in ids;
      var rest := SomeOrder(ids - {id});
      OneMore(rest, ids - {id}, id);
      assert ids - {id} + {id} == ids;
      order := rest + [id];
    }
  }

  /** Any of them can be the first one. */
  lemma SomeOrderFrom(ids: set<string>, first: string) returns (order: seq<string>)
    requires first in ids
    ensures IsOrder(order, ids) && order[0] == first
  {
    var rest := SomeOrder(ids - {first});
    order := [first] + rest;
    forall e | e in ids ensures exists i :: 0 <= i < |order| && order[i] == e {
      if e == first {
        assert order[0] == e;
      } else {
        assert e in ids - {first};
        var i :| 0 <= i < |rest| && rest[i] == e;
        assert order[i + 1] == e;
      }
    }
  }

  lemma FirstIsApart(s: State, linked: set<string>, order: seq<string>)
    requires IsOrder(order, linked) && linked <= s.segments.Keys && order != []
    ensures FirstApart(SegmentsOf(s, order)) <==> ApartFromOthers(s, linked, order[0])
  {
    var all := SegmentsOf(s, order);
    if FirstApart(all) {
      forall f | f in linked && f != order[0] ensures Apart(s.segments[order[0]], s.segments[f]) {
        var i :| 0 <= i < |order| && order[i] == f;
        assert Apart(all[0], all[i]);
      }
    } else {
      var i :| 1 <= i < |all| && !Apart(all[0], all[i]);
      assert order[i] != order[0];
    }
  }

  /** A linking call keeps routes distinct exactly if the segments it names have none in common. */
  lemma LinkingKeepsDistinct(s: State, c: Call)
    requires AllDistinct(s) && IsLinking(s, c) && c.links.Keys <= s.segments.Keys
    ensures AllDistinct(After(s, c)) <==> Distinct(s, c.links.Keys)
  {
    var t := After(s, c);
    forall l | l in t.policies && l != c.id ensures Distinct(t, t.policies[l].links.Keys) {
      assert Distinct(s, s.policies[l].links.Keys);
    }
    assert t.policies[c.id].links.Keys == c.links.Keys;
    assert Distinct(t, c.links.Keys) <==> Distinct(s, c.links.Keys);
  }

  lemma AcceptedLinking(s: State, c: Call, order: seq<string>)
    requires AllDistinct(s) && IsLinking(s, c) && Accepted(s, c, order)
    ensures AllDistinct(After(s, c)) || SlipsThrough(s, c)
  {
    LinkingKeepsDistinct(s, c);
    if AddedLinks(s, c) == {} {
      FewerLinksDistinct(s, c, After(s, c));
    } else {
      FirstSomeApart(s, c.links.Keys, order);
    }
  }

  lemma FirstSomeApart(s: State, linked: set<string>, order: seq<string>)
    requires IsOrder(order, linked) && linked <= s.segments.Keys && linked != {}
    ensures FirstApart(SegmentsOf(s, order)) ==> SomeApart(s, linked)
  {
    var e :| e in linked;
    assert order != [];
    FirstIsApart(s, linked, order);
  }

  lemma OthersKeepDistinct(s: State, c: Call, order: seq<string>)
    requires AllDistinct(s) && Accepted(s, c, order) && !IsLinking(s, c)
    ensures AllDistinct(After(s, c))
  {
    var t := After(s, c);
    if c.UpdateSegment? {
      UpdateSegmentDistinct(s, c.id, c.routes, t);
    } else {
      forall l | l in t.policies ensures Distinct(t, t.policies[l].links.Keys) {
        assert Distinct(s, s.policies[l].links.Keys);
      }
    }
  }

  lemma SlippingOrder(s: State, c: Call) returns (order: seq<string>)
    requires AllDistinct(s) && SlipsThrough(s, c)
    ensures Accepted(s, c, order) && !AllDistinct(After(s, c))
  {
    var first :| first in c.links.Keys && ApartFromOthers(s, c.links.Keys, first);
    order := SomeOrderFrom(c.links.Keys, first);
    AcceptedFrom(s, c, order);
    LinkingKeepsDistinct(s, c);
  }

  lemma AcceptedFrom(s: State, c: Call, order: seq<string>)
    requires SlipsThrough(s, c) && IsOrder(order, c.links.Keys) && order != []
            && ApartFromOthers(s, c.links.Keys, order[0])
    ensures Accepted(s, c, order)
  {
    FirstIsApart(s, c.links.Keys, order);
  }

  /** In some order of retrieval the call is accepted and leaves identical routes, exactly if it slips through. */
  lemma SlipsInSomeOrder(s: State, c: Call)
    requires Clear(s) && AllDistinct(s)
    ensures (exists order :: Accepted(s, c, order) && !AllDistinct(After(s, c))) <==> SlipsThrough(s, c)
  {
    forall order | Accepted(s, c, order) ensures AllDistinct(After(s, c)) || SlipsThrough(s, c) {
      if IsLinking(s, c) {
        AcceptedLinking(s, c, order);
      } else {
        OthersKeepDistinct(s, c, order);
      }
    }
    if SlipsThrough(s, c) {
      var order := SlippingOrder(s, c);
    }
  }

  /** At most two segments cannot slip through: if one is apart from the other, both are. */
  lemma TwoCannotSlip(s: State, c: Call)
    requires IsLinking(s, c) && |c.links.Keys| <= 2
    ensures !SlipsThrough(s, c)
  {
    if c.links.Keys <= s.segments.Keys {
      TwoDistinct(s, c.links.Keys);
    }
  }

  lemma TwoDistinct(s: State, linked: set<string>)
    requires linked <= s.segments.Keys && |linked| <= 2
    ensures SomeApart(s, linked) ==> Distinct(s, linked)
  {
    forall e, f, g | e in linked && f in linked && g in linked && f != g ensures f == e || g == e {
      SizeOfPair(linked - {e}, f, g);
    }
  }

  lemma SizeOfPair(ids: set<string>, f: string, g: string)
    ensures f in ids && g in ids && f != g ==> |ids| >= 2
  {
    if f in ids {
      var rest := ids - {f};
      assert |rest| == |ids| - 1 && (g in ids && f != g ==> g in rest);
    }
  }

  // ----- Whole runs -----

  /** A run from the empty tables; `orders[i]` is the retrieval order met by `calls[i]`. */
  ghost predicate Run(calls: seq<Call>, orders: seq<seq<string>>, trace: seq<State>) {
    && |orders| == |calls| && |trace| == |calls| + 1 && trace[0] == State(map[], map[])
    && forall i :: 0 <= i < |calls| ==> Next(trace[i], calls[i], orders[i], trace[i + 1])
  }

  lemma {:induction false} RunClear(calls: seq<Call>, orders: seq<seq<string>>, trace: seq<State>, i: nat)
    requires Run(calls, orders, trace) && i < |trace|
    ensures Clear(trace[i])
  {
    if i > 0 {
      RunClear(calls, orders, trace, i - 1);
      StepKeepsClear(trace[i - 1], calls[i - 1], orders[i - 1], trace[i]);
    }
  }

  /** If no call slips through, no state has identical routes, in whatever orders the rows are retrieved. */
  lemma {:induction false} RunDistinct(calls: seq<Call>, orders: seq<seq<string>>, trace: seq<State>, i: nat)
    requires Run(calls, orders, trace) && i < |trace|
    requires forall k :: 0 <= k < i ==> !SlipsThrough(trace[k], calls[k])
    ensures AllDistinct(trace[i])
  {
    if i > 0 {
      RunDistinct(calls, orders, trace, i - 1);
      RunClear(calls, orders, trace, i - 1);
      SlipsInSomeOrder(trace[i - 1], calls[i - 1]);
    }
  }

  // ----- Three segments -----

  /** Three segments; the second and the third have a default route. */
  function ThreeSegments(a: string, b: string, c: string): State {
    var net := Network(false, 0, 8);
    var routed := Segment(net, {Route(Network(false, 0, 0), None)});
    State(map[], map[a := Segment(net, {}), b := routed, c := routed])
  }

  function LinkThree(a: string, b: string, c: string): Call {
    CreatePolicy("", {}, map[a := {}, b := {}, c := {}])
  }

  lemma BeforeLinking(a: string, b: string, c: string)
    requires a != b && b != c && a != c
    ensures Clear(ThreeSegments(a, b, c)) && AllDistinct(ThreeSegments(a, b, c))
    ensures !Apart(ThreeSegments(a, b, c).segments[b], ThreeSegments(a, b, c).segments[c])
  {
    var r := Route(Network(false, 0, 0), None);
    assert r in ThreeSegments(a, b, c).segments[b].routes && r in ThreeSegments(a, b, c).segments[c].routes;
  }

  lemma ThreeOrdered(a: string, b: string, c: string)
    requires a != b && b != c && a != c
    ensures IsOrder([a, b, c], {a, b, c})
  {
    var abc := [a, b, c];
    assert abc[0] == a && abc[1] == b && abc[2] == c;
  }

  /** A policy without a pool and addresses is accepted exactly if the first segment is apart from the others. */
  lemma FirstDecides(a: string, b: string, c: string, order: seq<string>)
    requires IsOrder(order, {a, b, c})
    ensures Accepted(ThreeSegments(a, b, c), LinkThree(a, b, c), order) <==>
            FirstApart(SegmentsOf(ThreeSegments(a, b, c), order))
  {
    var s, call := ThreeSegments(a, b, c), LinkThree(a, b, c);
    assert call.links.Keys == {a, b, c} <= s.segments.Keys;
    forall e | e in {a, b, c} ensures SegmentAllowsPool(Linked(s, call), e, s.segments[e]) {
      EmptyPoolAllowed(Linked(s, call), e, s.segments[e]);
    }
  }

  lemma EmptyPoolAllowed(p: Policy, e: string, segment: Segment)
    requires p.pool == {} && e in p.links && p.links[e] == {}
    ensures SegmentAllowsPool(p, e, segment)
  {
    DisjointIsNoOverlap({}, Destinations(segment.routes));
    DisjointIsNoOverlap({}, {segment.cidr});
  }

  lemma AfterLinking(a: string, b: string, c: string)
    requires a != b && b != c && a != c
    ensures !AllDistinct(After(ThreeSegments(a, b, c), LinkThree(a, b, c)))
  {
    var t := After(ThreeSegments(a, b, c), LinkThree(a, b, c));
    BeforeLinking(a, b, c);
    assert !Distinct(t, LinkThree(a, b, c).links.Keys) by {
      assert b in LinkThree(a, b, c).links.Keys && c in LinkThree(a, b, c).links.Keys;
    }
    assert t.policies[""].links == LinkThree(a, b, c).links;
  }

  /** Linking them is accepted in one order and leaves identical routes; in another order it is rejected. */
  lemma ThirdSegmentUnchecked(a: string, b: string, c: string)
    requires a != b && b != c && a != c
    ensures Clear(ThreeSegments(a, b, c)) && AllDistinct(ThreeSegments(a, b, c))
    ensures Accepted(ThreeSegments(a, b, c), LinkThree(a, b, c), [a, b, c])
    ensures !AllDistinct(After(ThreeSegments(a, b, c), LinkThree(a, b, c)))
    ensures IsOrder([b, a, c], {a, b, c}) && !Accepted(ThreeSegments(a, b, c), LinkThree(a, b, c), [b, a, c])
  {
    BeforeLinking(a, b, c);
    AfterLinking(a, b, c);
    ThreeOrdered(a, b, c);
    ThreeOrdered(b, a, c);
    assert {b, a, c} == {a, b, c};
    FirstDecides(a, b, c, [a, b, c]);
    FirstDecides(a, b, c, [b, a, c]);
    var all := SegmentsOf(ThreeSegments(a, b, c), [b, a, c]);
    assert !Apart(all[0], all[2]);
  }
}
