/** What creates, updates and deletes of resources accept and store, in terms of the request and the stored fields
    alone. */
module ResourceCalls {
  import opened Collections
  import opened Resources
  import opened ResourceRuns

  // ----- The reference graph -----

  /** An attribute leads to one kind, whichever kind has it, and these are all the kinds that have one. */
  lemma UsageEdges(k: Kind, a: Attr)
    ensures a in UsageGraph(k) <==>
            (k, a) in {(L3Policy, ExternalSegments), (L2Policy, L3PolicyId),
                       (TargetGroup, NetworkServicePolicyId), (TargetGroup, L2PolicyId),
                       (TargetGroup, ProvidedRuleSets), (TargetGroup, ConsumedRuleSets),
                       (PolicyRule, ClassifierId), (PolicyRule, Actions),
                       (PolicyRuleSet, ParentId), (PolicyRuleSet, Rules),
                       (ExternalPolicy, ExternalSegments),
                       (ExternalPolicy, ProvidedRuleSets), (ExternalPolicy, ConsumedRuleSets),
                       (NatPool, ExternalSegmentId), (PolicyTarget, TargetGroupId)}
    ensures a in UsageGraph(k) ==> UsageGraph(k)[a] == LedTo(a)
  {
    match k case _ => match a case _ =>
  }

  function LedTo(a: Attr): Kind {
    match a
    case ExternalSegments => ExternalSegment
    case ExternalSegmentId => ExternalSegment
    case L3PolicyId => L3Policy
    case L2PolicyId => L2Policy
    case NetworkServicePolicyId => NetworkServicePolicy
    case ProvidedRuleSets => PolicyRuleSet
    case ConsumedRuleSets => PolicyRuleSet
    case ParentId => PolicyRuleSet
    case Rules => PolicyRule
    case ClassifierId => PolicyClassifier
    case Actions => PolicyAction
    case TargetGroupId => TargetGroup
  }

  // ----- What a call accepts -----

  /** The caller sees the resource. */
  predicate Sees(c: Context, r: Resource) {
    r.shared || c.isAdmin || c.tenant == r.tenant
  }

  /** A resource of the tenant may refer to `j` through the attribute: shared resources use shared ones, and without
      admin rights nobody uses what another tenant does not share. */
  predicate Usable(s: Store, c: Context, tenant: string, shared: bool, a: Attr, j: string) {
    && j in s && s[j].kind == LedTo(a) && Sees(c, s[j])
    && (shared ==> s[j].shared)
    && (!c.isAdmin && !s[j].shared ==> s[j].tenant == tenant)
  }

  lemma LinkIsUsable(s: Store, c: Context, r: Resource, a: Attr, j: string)
    requires a in UsageGraph(r.kind)
    ensures LinkAccepted(s, c, r, UsageGraph(r.kind)[a], j) <==> Usable(s, c, r.tenant, r.shared, a, j)
  {
    UsageEdges(r.kind, a);
  }

  lemma LinksAreUsable(s: Store, c: Context, r: Resource)
    ensures LinksAccepted(s, c, r) <==>
            forall a, j :: a in UsageGraph(r.kind) && j in Links(r, a) ==> Usable(s, c, r.tenant, r.shared, a, j)
  {
    forall a, j | a in UsageGraph(r.kind) && j in Links(r, a)
      ensures LinkAccepted(s, c, r, UsageGraph(r.kind)[a], j) <==> Usable(s, c, r.tenant, r.shared, a, j)
    {
      LinkIsUsable(s, c, r, a, j);
    }
  }

  /** The rule sets exist, the caller sees them, and none of them has children. */
  predicate Adoptable(s: Store, c: Context, ids: set<string>) {
    forall i :: i in ids ==>
      i in s && s[i].kind == PolicyRuleSet && Sees(c, s[i]) && forall x :: x in s ==> i !in Links(s[x], ParentId)
  }

  /** A create is accepted exactly if it is for the caller's own tenant or by an admin, the children can be adopted, and
      everything it refers to may be used. */
  lemma CreateAcceptedExactly(s: Store, c: Context, id: string, r: Resource, children: set<string>)
    requires id !in s && Requested(r)
    ensures CreateAccepted(s, c, id, r, children) <==>
            && (c.isAdmin || c.tenant == r.tenant)
            && (r.kind == PolicyRuleSet ==> Adoptable(s, c, children))
            && forall a, j :: a in r.links && j in r.links[a] ==> Usable(s, c, r.tenant, r.shared, a, j)
  {
    if r.kind == PolicyRuleSet {
      NewChildren(s, c, id, r, children);
    }
    var t := Created(s, id, r, children);
    StoredSameButParents(s[id := r], id, ForRuleSet(r.kind, Some(children)));
    CreateLinks(s, c, id, r, t);
  }

  lemma CreateLinks(s: Store, c: Context, id: string, r: Resource, t: Store)
    requires id !in s && Requested(r) && SameButParents(s[id := r], t)
    ensures LinksAccepted(t, c, r) <==>
            forall a, j :: a in r.links && j in r.links[a] ==> Usable(s, c, r.tenant, r.shared, a, j)
  {
    LinksAreUsable(t, c, r);
    forall a, j | a in UsageGraph(r.kind) && j in Links(r, a)
      ensures Usable(t, c, r.tenant, r.shared, a, j) <==> Usable(s, c, r.tenant, r.shared, a, j)
    {
      UsageEdges(r.kind, a);
      assert j != id ==> (j in t <==> j in s);
    }
    forall a, j | a in r.links && j in r.links[a] ensures a in UsageGraph(r.kind) && j in Links(r, a) {
    }
  }

  lemma NewChildren(s: Store, c: Context, id: string, r: Resource, children: set<string>)
    requires id !in s && Requested(r) && r.kind == PolicyRuleSet
    ensures ChildrenAccepted(s[id := r], c, id, children) <==> Adoptable(s, c, children)
  {
    var w := s[id := r];
    forall i ensures Children(w, i) == {} <==> forall x :: x in s ==> i !in Links(s[x], ParentId) {
      assert forall x :: x in Children(w, i) <==> x in s && i in Links(s[x], ParentId);
    }
  }

  /** An update may give a rule set these children: none, or else it has no parent and none of them is itself. */
  predicate MayGetChildren(s: Store, c: Context, id: string, ids: set<string>)
    requires id in s
  {
    ids == {} || (Links(s[id], ParentId) == {} && id !in ids && Adoptable(s, c, ids))
  }

  lemma ChildrenOfUpdate(s: Store, c: Context, id: string, w: Store, ids: set<string>)
    requires id in s && Written(s, w, id)
    ensures ChildrenAccepted(w, c, id, ids) <==> MayGetChildren(s, c, id, ids)
  {
    forall i ensures Children(w, i) == {} <==> forall x :: x in s ==> i !in Links(s[x], ParentId) {
      assert forall x :: x in Children(w, i) <==> x in s && i in Links(s[x], ParentId);
    }
  }

  /** Every resource that refers to `id`, children aside, is unshared and of its tenant. */
  ghost predicate UsedWithinTenant(s: Store, id: string)
    requires id in s
  {
    forall i, a :: Edge(s, i, a, id) && a != ParentId ==> !s[i].shared && s[i].tenant == s[id].tenant
  }

  lemma CheckedIsEdge(s: Store, id: string, w: Store, t: Store, i: string, a: Attr)
    requires NoDangling(s) && id in s && Written(s, w, id) && SameButParents(w, t)
    ensures i in t && (t[i].kind, a) in UnshareChecks(t[id].kind) && id in Links(t[i], a) <==>
            Edge(s, i, a, id) && a != ParentId
    ensures Edge(s, i, a, id) && a != ParentId ==> t[i].shared == s[i].shared && t[i].tenant == s[i].tenant
  {
    assert t[id].kind == s[id].kind && (i in s ==> t[i].kind == s[i].kind);
    if i in s {
      UnshareCheckInvertsEdge(t[i].kind, a, t[id].kind);
      UsageEdges(t[i].kind, a);
    }
  }

  lemma UnshareIsWithinTenant(s: Store, id: string, w: Store, t: Store)
    requires NoDangling(s) && id in s && Written(s, w, id) && SameButParents(w, t)
    ensures UnshareAccepted(t, id) <==> s[id].kind != ApplicationPolicyGroup && UsedWithinTenant(s, id)
  {
    forall i, a
      ensures i in t && (t[i].kind, a) in UnshareChecks(t[id].kind) && id in Links(t[i], a) <==>
              Edge(s, i, a, id) && a != ParentId
      ensures Edge(s, i, a, id) && a != ParentId ==> t[i].shared == s[i].shared && t[i].tenant == s[i].tenant
    {
      CheckedIsEdge(s, id, w, t, i, a);
    }
    assert t[id].tenant == s[id].tenant && t[id].kind == s[id].kind;
  }

  /** The links a request asks for, and the parent the resource has, may all be used. */
  ghost predicate RequestUsable(s: Store, c: Context, id: string, shared: bool, links: map<Attr, set<string>>)
    requires id in s
  {
    && (forall a, j :: a in links && j in links[a] ==> Usable(s, c, s[id].tenant, shared, a, j))
    && (forall p :: p in Links(s[id], ParentId) ==> Usable(s, c, s[id].tenant, shared, ParentId, p))
  }

  lemma UpdateLinks(s: Store, c: Context, id: string, shared: bool, links: map<Attr, set<string>>, t: Store)
    requires Inv(s) && id in s && Requested(Resource(s[id].kind, s[id].tenant, shared, links))
    requires SameButParents(s[id := Changed(s[id], shared, links)], t)
    ensures LinksAccepted(t, c, Changed(s[id], shared, links)) <==> RequestUsable(s, c, id, shared, links)
  {
    var r := Changed(s[id], shared, links);
    LinksAreUsable(t, c, r);
    forall a, j | a in UsageGraph(r.kind) && j in Links(r, a)
      ensures Usable(t, c, r.tenant, shared, a, j) <==> Usable(s, c, r.tenant, shared, a, j)
    {
      UpdatedLink(s, c, id, shared, links, t, a, j);
    }
    forall p | p in Links(s[id], ParentId) ensures ParentId in UsageGraph(r.kind) && p in Links(r, ParentId) {
    }
    forall a, j | a in links && j in links[a] ensures a in UsageGraph(r.kind) && j in Links(r, a) {
    }
  }

  /** The update does not change what it refers to. */
  lemma UpdatedLink(s: Store, c: Context, id: string, shared: bool, links: map<Attr, set<string>>, t: Store, a: Attr,
      j: string)
    requires OneLevel(s) && id in s && SameButParents(s[id := Changed(s[id], shared, links)], t)
    requires a in UsageGraph(s[id].kind) && j in Links(Changed(s[id], shared, links), a)
    ensures Usable(t, c, s[id].tenant, shared, a, j) <==> Usable(s, c, s[id].tenant, shared, a, j)
  {
    if a == ParentId {
      assert j in Links(s[id], ParentId) && j != id;
    } else if j == id {
      NothingUsesItsKind(s[id].kind, a);
    }
    assert j != id ==> (j in t <==> j in s);
  }

  lemma NothingUsesItsKind(k: Kind, a: Attr)
    requires a in UsageGraph(k) && a != ParentId
    ensures LedTo(a) != k
  {
  }

  /** An update is accepted exactly if the caller sees the resource, it may get the children, everything it then refers
      to may be used, and a change of sharing leaves its users within the tenant. */
  lemma UpdateAcceptedExactly(s: Store, c: Context, id: string, shared: bool, links: map<Attr, set<string>>,
      children: Option<set<string>>)
    requires Inv(s) && id in s && Requested(Resource(s[id].kind, s[id].tenant, shared, links))
    ensures UpdateAccepted(s, c, id, shared, links, children) <==>
            && Sees(c, s[id])
            && (s[id].kind == PolicyRuleSet && children.Some? ==> MayGetChildren(s, c, id, children.value))
            && RequestUsable(s, c, id, shared, links)
            && (shared != s[id].shared ==> s[id].kind != ApplicationPolicyGroup && UsedWithinTenant(s, id))
  {
    var w, t := s[id := Changed(s[id], shared, links)], Updated(s, id, shared, links, children);
    WrittenByUpdate(s, id, shared, links);
    StoredSameButParents(w, id, ForRuleSet(s[id].kind, children));
    if children.Some? {
      ChildrenOfUpdate(s, c, id, w, children.value);
    }
    UpdateLinks(s, c, id, shared, links, t);
    UnshareIsWithinTenant(s, id, w, t);
  }

  // ----- What a call stores -----

  /** The parent links after `id` has got the children: they have it as their parent, and nobody else keeps it. */
  ghost predicate OnlyChildren(s: Store, t: Store, id: string, children: set<string>) {
    && t.Keys == s.Keys + {id}
    && Links(t[id], ParentId) == (if id in s then Links(s[id], ParentId) else {})
    && forall i :: i in s && i != id ==>
         Links(t[i], ParentId) == if i in children then {id} else Links(s[i], ParentId) - {id}
  }

  /** Apart from parents, no other resource has changed. */
  ghost predicate OthersKept(s: Store, t: Store, id: string) {
    && t.Keys == s.Keys + {id}
    && forall i :: i in s && i != id ==>
         && t[i].kind == s[i].kind && t[i].tenant == s[i].tenant && t[i].shared == s[i].shared
         && forall a :: a != ParentId ==> Links(t[i], a) == Links(s[i], a)
  }

  /** An accepted update stores exactly the requested sharing, links and children. */
  lemma UpdateStores(s: Store, c: Context, id: string, shared: bool, links: map<Attr, set<string>>,
      children: Option<set<string>>)
    requires Inv(s) && Accepted(s, Update(c, id, shared, links, children))
    ensures var t := After(s, Update(c, id, shared, links, children));
            && t.Keys == s.Keys && OthersKept(s, t, id)
            && t[id].kind == s[id].kind && t[id].tenant == s[id].tenant && t[id].shared == shared
            && (forall a :: a != ParentId ==> Links(t[id], a) == if a in links then links[a] else {})
            && (if s[id].kind == PolicyRuleSet && children.Some? then OnlyChildren(s, t, id, children.value)
                else forall i :: i in s ==> Links(t[i], ParentId) == Links(s[i], ParentId))
  {
    var w, cs := s[id := Changed(s[id], shared, links)], ForRuleSet(s[id].kind, children);
    var t := Updated(s, id, shared, links, children);
    UpdateIsPut(s, c, id, shared, links, children);
    PutStores(s, c, id, w, cs, t);
    assert SameButParents(w, t);
  }

  /** An accepted create stores exactly the requested resource, with the requested children. */
  lemma CreateStores(s: Store, c: Context, id: string, r: Resource, children: set<string>)
    requires Inv(s) && Accepted(s, Create(c, id, r, children))
    ensures var t := After(s, Create(c, id, r, children));
            && OthersKept(s, t, id)
            && t[id].kind == r.kind && t[id].tenant == r.tenant && t[id].shared == r.shared
            && (forall a :: a != ParentId ==> Links(t[id], a) == if a in r.links then r.links[a] else {})
            && (if r.kind == PolicyRuleSet then OnlyChildren(s, t, id, children)
                else forall i :: i in s ==> Links(t[i], ParentId) == Links(s[i], ParentId))
  {
    var w, cs := s[id := r], ForRuleSet(r.kind, Some(children));
    var t := Created(s, id, r, children);
    CreateIsPut(s, c, id, r, children);
    PutStores(s, c, id, w, cs, t);
    assert SameButParents(w, t);
  }

  lemma PutStores(s: Store, c: Context, id: string, w: Store, children: Option<set<string>>, t: Store)
    requires Inv(s) && Put(s, c, id, w, children, t)
    ensures OthersKept(s, t, id)
    ensures if children.Some? then OnlyChildren(s, t, id, children.value)
            else forall i :: i in s ==> Links(t[i], ParentId) == Links(s[i], ParentId)
  {
    PutKeepsOthers(s, id, w, t);
    if children.Some? {
      NoParentOfItself(s, c, id, w, children.value);
      PutParents(s, c, id, w, children, t, id);
      forall i | i in s && i != id
        ensures Links(t[i], ParentId) == if i in children.value then {id} else Links(s[i], ParentId) - {id}
      {
        PutParentOf(s, c, id, w, children, t, i);
      }
    }
  }

  lemma PutKeepsOthers(s: Store, id: string, w: Store, t: Store)
    requires Written(s, w, id) && SameButParents(w, t)
    ensures OthersKept(s, t, id)
  {
    forall i | i in s && i != id ensures w[i] == s[i] {
    }
  }

  lemma PutParentOf(s: Store, c: Context, id: string, w: Store, children: Option<set<string>>, t: Store, i: string)
    requires Inv(s) && Put(s, c, id, w, children, t) && children.Some? && i in s && i != id
    ensures Links(t[i], ParentId) == if i in children.value then {id} else Links(s[i], ParentId) - {id}
  {
    PutParents(s, c, id, w, children, t, i);
    OneParent(s, id, w, i);
  }

  lemma OneParent(s: Store, id: string, w: Store, i: string)
    requires Inv(s) && Written(s, w, id) && i in s && i != id
    ensures i in Children(w, id) <==> id in Links(s[i], ParentId)
    ensures id in Links(s[i], ParentId) ==> Links(s[i], ParentId) == {id}
  {
  }

  lemma NoParentOfItself(s: Store, c: Context, id: string, w: Store, children: set<string>)
    requires Inv(s) && Written(s, w, id) && ChildrenAccepted(w, c, id, children)
    ensures id !in children && id !in Children(w, id)
  {
  }

  // ----- Deletes -----

  /** A delete is accepted exactly if the caller sees the resource and nothing refers to it but the children of a rule
      set and the targets of a group; what else a group refers to is checked once more. */
  lemma DeleteAcceptedExactly(s: Store, c: Context, id: string)
    requires Inv(s)
    ensures DeleteAccepted(s, c, id) <==>
            && id in s && Sees(c, s[id])
            && (forall i, a :: Edge(s, i, a, id) ==> a == ParentId || a == TargetGroupId)
            && (s[id].kind == TargetGroup ==> forall a, j ::
                  a in {NetworkServicePolicyId, L2PolicyId} && j in Links(s[id], a) ==>
                    Usable(s, c, s[id].tenant, s[id].shared, a, j))
  {
    if id in s {
      forall i, a
        ensures i in s && (s[i].kind, a) in DeleteGuards(s[id].kind) && id in Links(s[i], a) <==>
                Edge(s, i, a, id) && a != ParentId && a != TargetGroupId
      {
        GuardIsEdge(s, id, i, a);
      }
      if s[id].kind == TargetGroup {
        GivenUpLinks(s, c, id);
      }
    }
  }

  lemma GuardIsEdge(s: Store, id: string, i: string, a: Attr)
    requires Inv(s) && id in s
    ensures i in s && (s[i].kind, a) in DeleteGuards(s[id].kind) && id in Links(s[i], a) <==>
            Edge(s, i, a, id) && a != ParentId && a != TargetGroupId
  {
    if i in s {
      GuardsAreEdges(s[i].kind, a, s[id].kind);
    }
  }

  /** A group and a rule set can go although targets and children refer to them; every other edge is guarded. */
  lemma GuardsAreEdges(from: Kind, a: Attr, k: Kind)
    ensures (from, a) in DeleteGuards(k) <==>
            a in UsageGraph(from) && UsageGraph(from)[a] == k && a != ParentId && a != TargetGroupId
  {
    match from case _ => match k case _ =>
  }

  lemma GivenUpLinks(s: Store, c: Context, id: string)
    requires Inv(s) && id in s && s[id].kind == TargetGroup
    ensures LinksAccepted(s[id := Disassociated(s[id])], c, Disassociated(s[id])) <==>
            forall a, j :: a in {NetworkServicePolicyId, L2PolicyId} && j in Links(s[id], a) ==>
              Usable(s, c, s[id].tenant, s[id].shared, a, j)
  {
    var r := Disassociated(s[id]);
    var t := s[id := r];
    LinksAreUsable(t, c, r);
    forall a, j | a in UsageGraph(TargetGroup) && j in Links(r, a)
      ensures a in {NetworkServicePolicyId, L2PolicyId} && j in Links(s[id], a)
      ensures Usable(t, c, r.tenant, r.shared, a, j) <==> Usable(s, c, r.tenant, r.shared, a, j)
    {
      UsageEdges(TargetGroup, a);
    }
    forall a, j | a in {NetworkServicePolicyId, L2PolicyId} && j in Links(s[id], a) ensures j in Links(r, a) {
    }
  }

  /** With a group go the targets that the caller sees, and nothing else goes with any resource; what remains loses its
      link to the deleted one and changes in no other way. */
  lemma DeleteLeaves(s: Store, c: Context, id: string)
    requires Inv(s) && Accepted(s, Delete(c, id))
    ensures var t := After(s, Delete(c, id));
            && (forall i :: i in t <==>
                  i in s && i != id && !(id in Links(s[i], TargetGroupId) && Sees(c, s[i])))
            && (forall i :: i in t ==>
                  && t[i].kind == s[i].kind && t[i].tenant == s[i].tenant && t[i].shared == s[i].shared
                  && forall a :: Links(t[i], a) == if id in Links(s[i], a) then {} else Links(s[i], a))
  {
    var t := Deleted(s, c, id);
    DeletedShrinks(s, c, id);
    forall i | i in s ensures id in Links(s[i], TargetGroupId) <==> s[id].kind == TargetGroup && i in Targets(s, id) {
      LinkFromTarget(s, id, i);
    }
    forall i, a | i in t ensures Cleared(s, id, i, a) <==> id in Links(s[i], a) {
      ClearedAreLinks(s, c, id, i, a);
    }
  }

  lemma LinkFromTarget(s: Store, id: string, i: string)
    requires Inv(s) && id in s && i in s
    ensures id in Links(s[i], TargetGroupId) <==> s[id].kind == TargetGroup && i in Targets(s, id)
  {
    if id in Links(s[i], TargetGroupId) {
      UsageEdges(s[i].kind, TargetGroupId);
      assert Edge(s, i, TargetGroupId, id);
    }
  }

  lemma ClearedAreLinks(s: Store, c: Context, id: string, i: string, a: Attr)
    requires Inv(s) && DeleteAccepted(s, c, id) && i in s
    ensures Cleared(s, id, i, a) <==> id in Links(s[i], a)
  {
    if id in Links(s[i], a) {
      LinkFromTarget(s, id, i);
      assert a != ParentId ==> Edge(s, i, a, id);
      GuardIsEdge(s, id, i, a);
    }
  }
}
