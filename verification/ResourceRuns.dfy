/** What every run of creates, updates and deletes keeps true of the resource store. */
module ResourceRuns {
  import opened Collections
  import opened Resources

  // ----- The tables of checks against the reference graph -----

  /** The kinds and attributes whose links lead to kind `k`, the parent link aside. */
  predicate LeadsTo(from: Kind, a: Attr, k: Kind) {
    a in UsageGraph(from) && UsageGraph(from)[a] == k && a != ParentId
  }

  /** The unshare checks are the inverse of the usage graph without the parent link. */
  lemma UnshareChecksInvertGraph(k: Kind)
    ensures forall from, a :: (from, a) in UnshareChecks(k) <==> LeadsTo(from, a, k)
  {
    forall from, a ensures (from, a) in UnshareChecks(k) <==> LeadsTo(from, a, k) {
      UnshareCheckInvertsEdge(from, a, k);
    }
  }

  lemma UnshareCheckInvertsEdge(from: Kind, a: Attr, k: Kind)
    ensures (from, a) in UnshareChecks(k) <==> LeadsTo(from, a, k)
  {
    match from case _ => match k case _ =>
  }

  /** The delete guards cover every link into a kind; a group takes its targets along, children lose their parent. */
  lemma DeleteGuardsCoverGraph(from: Kind, a: Attr, k: Kind)
    requires a in UsageGraph(from) && UsageGraph(from)[a] == k
    ensures (from, a) in DeleteGuards(k) || (from == PolicyTarget && k == TargetGroup) || a == ParentId
  {
    match from case _ => match k case _ =>
  }

  // ----- The invariants -----

  ghost predicate WellFormed(s: Store) {
    forall i :: i in s ==>
      && s[i].links.Keys <= UsageGraph(s[i].kind).Keys + {ParentId}
      && (s[i].kind != PolicyRuleSet ==> Links(s[i], ParentId) == {})
      && (s[i].kind == PolicyTarget ==> !s[i].shared)
      && forall p, q :: p in Links(s[i], ParentId) && q in Links(s[i], ParentId) ==> p == q
  }

  /** Every link leads to a stored resource of the right kind. */
  ghost predicate NoDangling(s: Store) {
    forall i, a, j :: Edge(s, i, a, j) ==> j in s && s[j].kind == UsageGraph(s[i].kind)[a]
  }

  /** No rule set has both a parent and children, and none is its own parent. */
  ghost predicate OneLevel(s: Store) {
    forall i, p :: i in s && p in Links(s[i], ParentId) ==>
        p in s && s[p].kind == PolicyRuleSet && p != i && Links(s[p], ParentId) == {}
  }

  /** A shared resource uses only shared resources. */
  ghost predicate SharedUsesShared(s: Store) {
    forall i, a, j :: Edge(s, i, a, j) && a != ParentId && j in s && s[i].shared ==> s[j].shared
  }

  /** Only shared resources are used by other tenants. */
  ghost predicate TenantsApart(s: Store) {
    forall i, a, j :: Edge(s, i, a, j) && a != ParentId && j in s && !s[j].shared ==> s[i].tenant == s[j].tenant
  }

  ghost predicate Inv(s: Store) {
    WellFormed(s) && NoDangling(s) && OneLevel(s) && SharedUsesShared(s)
  }

  // ----- Steps -----

  datatype Step =
    | Create(c: Context, id: string, r: Resource, adopted: set<string>)
    | Update(c: Context, id: string, shared: bool, links: map<Attr, set<string>>, children: Option<set<string>>)
    | Delete(c: Context, id: string)

  ghost predicate Accepted(s: Store, step: Step) {
    match step
    case Create(c, id, r, children) => id !in s && Requested(r) && CreateAccepted(s, c, id, r, children)
    case Update(c, id, shared, links, children) =>
      && id in s && Requested(Resource(s[id].kind, s[id].tenant, shared, links))
      && UpdateAccepted(s, c, id, shared, links, children)
    case Delete(c, id) => DeleteAccepted(s, c, id)
  }

  ghost function After(s: Store, step: Step): Store
    requires Accepted(s, step)
  {
    match step
    case Create(c, id, r, children) => Created(s, id, r, children)
    case Update(c, id, shared, links, children) => Updated(s, id, shared, links, children)
    case Delete(c, id) => Deleted(s, c, id)
  }

  /** New identifiers are unused, and a request has only the attributes its kind has. */
  predicate Proper(s: Store, step: Step) {
    match step
    case Create(_, id, r, _) => id !in s && Requested(r)
    case Update(_, id, shared, links, _) => id in s ==> Requested(Resource(s[id].kind, s[id].tenant, shared, links))
    case Delete(_, _) => true
  }

  /** The plugin's methods take exactly these steps. */
  method Perform(p: GroupPolicyPlugin, step: Step) returns (ok: bool)
    requires Proper(p.resources, step)
    modifies p
    ensures ok <==> Accepted(old(p.resources), step)
    ensures p.resources == if ok then After(old(p.resources), step) else old(p.resources)
  {
    match step {
      case Create(c, id, r, children) => ok := p.Create(c, id, r, children);
      case Update(c, id, shared, links, children) => ok := p.Update(c, id, shared, links, children);
      case Delete(c, id) => ok := p.Delete(c, id);
    }
  }

  // ----- Writing the resource, then its children -----

  /** The store with `id` written, before the child list is handled; the other resources are untouched. */
  ghost predicate Written(s: Store, w: Store, id: string) {
    && id in w && w.Keys == s.Keys + {id}
    && (forall i :: i in s && i != id ==> w[i] == s[i])
    && (id in s ==>
        w[id].kind == s[id].kind && w[id].tenant == s[id].tenant && Links(w[id], ParentId) == Links(s[id], ParentId))
    && (id !in s ==> Links(w[id], ParentId) == {})
  }

  /** Apart from parents, a store and the one with some parents changed agree. */
  ghost predicate SameButParents(w: Store, t: Store) {
    && t.Keys == w.Keys
    && forall i :: i in w ==>
         && t[i].kind == w[i].kind && t[i].tenant == w[i].tenant && t[i].shared == w[i].shared
         && (forall a :: a != ParentId ==> Links(t[i], a) == Links(w[i], a))
         && t[i].links.Keys <= w[i].links.Keys + {ParentId}
  }

  lemma WithParentSameButParents(w: Store, ids: set<string>, parent: set<string>)
    ensures SameButParents(w, WithParent(w, ids, parent))
    ensures forall i :: i in w ==>
            Links(WithParent(w, ids, parent)[i], ParentId) == if i in ids then parent else Links(w[i], ParentId)
  {
  }

  function ParentAfter(w: Store, id: string, ids: set<string>, i: string): set<string>
    requires i in w
  {
    if i in ids then {id} else if i in Children(w, id) then {} else Links(w[i], ParentId)
  }

  /** The effect of SetChildren on parents. */
  lemma SetChildrenParents(w: Store, id: string, ids: set<string>)
    ensures SameButParents(w, SetChildren(w, id, ids))
    ensures forall i :: i in w ==> Links(SetChildren(w, id, ids)[i], ParentId) == ParentAfter(w, id, ids, i)
  {
    WithParentSameButParents(w, Children(w, id), {});
    WithParentSameButParents(WithParent(w, Children(w, id), {}), ids, {id});
  }

  // ----- Create and update -----

  /** Only rule sets have children. */
  function ForRuleSet(k: Kind, children: Option<set<string>>): Option<set<string>> {
    if k == PolicyRuleSet then children else None
  }

  /** What creates and updates have in common once accepted. */
  ghost predicate Put(s: Store, c: Context, id: string, w: Store, children: Option<set<string>>, t: Store) {
    && Written(s, w, id) && SameButParents(w, t)
    && w[id].links.Keys <= UsageGraph(w[id].kind).Keys + {ParentId} && (w[id].kind == PolicyTarget ==> !w[id].shared)
    && (children.Some? ==>
        w[id].kind == PolicyRuleSet && ChildrenAccepted(w, c, id, children.value)
            && t == SetChildren(w, id, children.value))
    && (children.None? ==> t == w)
    && LinksAccepted(t, c, w[id])
    && (id in s && s[id].shared != w[id].shared ==> UnshareAccepted(t, id))
  }

  lemma WrittenByCreate(s: Store, id: string, r: Resource)
    requires id !in s && Requested(r)
    ensures Written(s, s[id := r], id)
  {
  }

  lemma WrittenByUpdate(s: Store, id: string, shared: bool, links: map<Attr, set<string>>)
    requires id in s && Requested(Resource(s[id].kind, s[id].tenant, shared, links))
    ensures Written(s, s[id := Changed(s[id], shared, links)], id)
  {
  }

  lemma StoredSameButParents(w: Store, id: string, children: Option<set<string>>)
    ensures SameButParents(w, if children.Some? then SetChildren(w, id, children.value) else w)
  {
    if children.Some? {
      SetChildrenParents(w, id, children.value);
    }
  }

  lemma CreateIsPut(s: Store, c: Context, id: string, r: Resource, children: set<string>)
    requires id !in s && Requested(r) && CreateAccepted(s, c, id, r, children)
    ensures Put(s, c, id, s[id := r], ForRuleSet(r.kind, Some(children)), Created(s, id, r, children))
  {
    WrittenByCreate(s, id, r);
    StoredSameButParents(s[id := r], id, ForRuleSet(r.kind, Some(children)));
  }

  lemma UpdateIsPut(s: Store, c: Context, id: string, shared: bool, links: map<Attr, set<string>>,
      children: Option<set<string>>)
    requires id in s && Requested(Resource(s[id].kind, s[id].tenant, shared, links))
    requires UpdateAccepted(s, c, id, shared, links, children)
    ensures Put(s, c, id, s[id := Changed(s[id], shared, links)], ForRuleSet(s[id].kind, children),
              Updated(s, id, shared, links, children))
  {
    WrittenByUpdate(s, id, shared, links);
    StoredSameButParents(s[id := Changed(s[id], shared, links)], id, ForRuleSet(s[id].kind, children));
  }

  lemma PutWellFormed(s: Store, c: Context, id: string, w: Store, children: Option<set<string>>, t: Store)
    requires Put(s, c, id, w, children, t) && WellFormed(s)
    ensures WellFormed(t)
  {
    forall i | i in t
      ensures t[i].links.Keys <= UsageGraph(t[i].kind).Keys + {ParentId}
      ensures t[i].kind == PolicyTarget ==> !t[i].shared
    {
      assert i in s || i == id;
    }
    forall i | i in t
      ensures t[i].kind != PolicyRuleSet ==> Links(t[i], ParentId) == {}
      ensures forall p, q :: p in Links(t[i], ParentId) && q in Links(t[i], ParentId) ==> p == q
    {
      PutOneParent(s, c, id, w, children, t, i);
    }
  }

  lemma PutOneParent(s: Store, c: Context, id: string, w: Store, children: Option<set<string>>, t: Store, i: string)
    requires Put(s, c, id, w, children, t) && WellFormed(s) && i in t
    ensures t[i].kind != PolicyRuleSet ==> Links(t[i], ParentId) == {}
    ensures forall p, q :: p in Links(t[i], ParentId) && q in Links(t[i], ParentId) ==> p == q
  {
    PutParents(s, c, id, w, children, t, i);
    assert i in s || i == id;
    if children.Some? && i in children.value {
      assert w[i].kind == PolicyRuleSet;
    }
  }

  /** The outgoing links of other resources are those they had, the parent link aside. */
  lemma PutEdgeOfOther(s: Store, c: Context, id: string, w: Store, children: Option<set<string>>, t: Store, i: string,
      a: Attr, j: string)
    requires Put(s, c, id, w, children, t) && Edge(t, i, a, j) && i != id && a != ParentId
    ensures Edge(s, i, a, j) && t[i].shared == s[i].shared && t[i].tenant == s[i].tenant && t[i].kind == s[i].kind
  {
    assert i in s && w[i] == s[i];
  }

  /** The outgoing links of the written resource were checked. */
  lemma PutEdgeOfWritten(s: Store, c: Context, id: string, w: Store, children: Option<set<string>>, t: Store, a: Attr,
      j: string)
    requires Put(s, c, id, w, children, t) && Edge(t, id, a, j) && a != ParentId
    ensures LinkAccepted(t, c, t[id], UsageGraph(t[id].kind)[a], j)
  {
    assert j in Links(w[id], a);
    assert LinkAccepted(t, c, w[id], UsageGraph(w[id].kind)[a], j);
  }

  /** An incoming link that the unshare check has looked at. */
  lemma PutUnshareSafe(s: Store, c: Context, id: string, w: Store, children: Option<set<string>>, t: Store, i: string,
      a: Attr)
    requires Put(s, c, id, w, children, t) && NoDangling(s) && Edge(s, i, a, id) && i != id && a != ParentId
    requires id in s && t[id].shared != s[id].shared
    ensures !t[i].shared && t[i].tenant == t[id].tenant
  {
    assert w[i] == s[i];
    UnshareCheckInvertsEdge(t[i].kind, a, t[id].kind);
  }

  /** The parent links after the write: the old ones, less the children let go, plus the adopted. */
  lemma PutParents(s: Store, c: Context, id: string, w: Store, children: Option<set<string>>, t: Store, i: string)
    requires Put(s, c, id, w, children, t) && i in t
    ensures Links(t[i], ParentId) ==
            if children.Some? then ParentAfter(w, id, children.value, i) else Links(w[i], ParentId)
    ensures Links(w[i], ParentId) == if i in s then Links(s[i], ParentId) else {}
  {
    if children.Some? {
      SetChildrenParents(w, id, children.value);
    }
  }

  lemma AdoptedOneLevel(s: Store, c: Context, id: string, w: Store, children: Option<set<string>>, t: Store, i: string)
    requires Put(s, c, id, w, children, t) && OneLevel(s) && i in t && children.Some? && i in children.value
    ensures Links(t[i], ParentId) == {id} && t[id].kind == PolicyRuleSet && id != i && Links(t[id], ParentId) == {}
  {
    PutParents(s, c, id, w, children, t, i);
    PutParents(s, c, id, w, children, t, id);
  }

  /** A parent that was not written by this call was there before. */
  lemma KeptParent(s: Store, c: Context, id: string, w: Store, children: Option<set<string>>, t: Store, i: string,
      p: string)
    requires Put(s, c, id, w, children, t) && OneLevel(s) && i in t && p in Links(t[i], ParentId)
    requires children.None? || i !in children.value
    ensures i in s && p in s && p in Links(s[i], ParentId) && p in Links(w[i], ParentId)
    ensures s[p].kind == PolicyRuleSet && p != i && Links(s[p], ParentId) == {}
  {
    PutParents(s, c, id, w, children, t, i);
  }

  lemma KeptOneLevel(s: Store, c: Context, id: string, w: Store, children: Option<set<string>>, t: Store, i: string,
      p: string)
    requires Put(s, c, id, w, children, t) && OneLevel(s) && i in t && p in Links(t[i], ParentId)
    requires children.None? || i !in children.value
    ensures p in t && t[p].kind == PolicyRuleSet && p != i && Links(t[p], ParentId) == {}
  {
    KeptParent(s, c, id, w, children, t, i, p);
    PutParents(s, c, id, w, children, t, p);
    assert i in Children(w, p);
  }

  lemma ParentAfterPut(s: Store, c: Context, id: string, w: Store, children: Option<set<string>>, t: Store, i: string,
      p: string)
    requires Put(s, c, id, w, children, t) && OneLevel(s) && i in t && p in Links(t[i], ParentId)
    ensures p in t && t[p].kind == PolicyRuleSet && p != i && Links(t[p], ParentId) == {}
  {
    if children.Some? && i in children.value {
      AdoptedOneLevel(s, c, id, w, children, t, i);
    } else {
      KeptOneLevel(s, c, id, w, children, t, i, p);
    }
  }

  lemma PutOneLevel(s: Store, c: Context, id: string, w: Store, children: Option<set<string>>, t: Store)
    requires Put(s, c, id, w, children, t) && OneLevel(s)
    ensures OneLevel(t)
  {
    forall i, p | i in t && p in Links(t[i], ParentId)
      ensures p in t && t[p].kind == PolicyRuleSet && p != i && Links(t[p], ParentId) == {}
    {
      ParentAfterPut(s, c, id, w, children, t, i, p);
    }
  }

  lemma PutEdgeKept(s: Store, c: Context, id: string, w: Store, children: Option<set<string>>, t: Store, i: string,
      a: Attr, j: string)
    requires Put(s, c, id, w, children, t) && NoDangling(s) && Edge(t, i, a, j) && a != ParentId
    ensures j in t && t[j].kind == UsageGraph(t[i].kind)[a]
  {
    if i == id {
      PutEdgeOfWritten(s, c, id, w, children, t, a, j);
    } else {
      PutEdgeOfOther(s, c, id, w, children, t, i, a, j);
      assert w[j].kind == s[j].kind;
    }
  }

  lemma ParentEdgeKept(t: Store, i: string, j: string)
    requires OneLevel(t) && Edge(t, i, ParentId, j)
    ensures j in t && t[j].kind == PolicyRuleSet == UsageGraph(t[i].kind)[ParentId]
  {
    assert j in Links(t[i], ParentId);
  }

  lemma PutNoDangling(s: Store, c: Context, id: string, w: Store, children: Option<set<string>>, t: Store)
    requires Put(s, c, id, w, children, t) && NoDangling(s) && OneLevel(t)
    ensures NoDangling(t)
  {
    forall i, a, j | Edge(t, i, a, j) ensures j in t && t[j].kind == UsageGraph(t[i].kind)[a] {
      if a == ParentId {
        ParentEdgeKept(t, i, j);
      } else {
        PutEdgeKept(s, c, id, w, children, t, i, a, j);
      }
    }
  }

  lemma PutSharedUsesShared(s: Store, c: Context, id: string, w: Store, children: Option<set<string>>, t: Store)
    requires Put(s, c, id, w, children, t) && NoDangling(s) && SharedUsesShared(s)
    ensures SharedUsesShared(t)
  {
    forall i, a, j | Edge(t, i, a, j) && a != ParentId && j in t && t[i].shared ensures t[j].shared {
      if i == id {
        PutEdgeOfWritten(s, c, id, w, children, t, a, j);
      } else {
        PutEdgeOfOther(s, c, id, w, children, t, i, a, j);
        if j == id && t[j].shared != s[j].shared {
          PutUnshareSafe(s, c, id, w, children, t, i, a);
        }
      }
    }
  }

  lemma PutTenantsApart(s: Store, c: Context, id: string, w: Store, children: Option<set<string>>, t: Store)
    requires Put(s, c, id, w, children, t) && NoDangling(s) && TenantsApart(s) && !c.isAdmin
    ensures TenantsApart(t)
  {
    forall i, a, j | Edge(t, i, a, j) && a != ParentId && j in t && !t[j].shared ensures t[i].tenant == t[j].tenant {
      if i == id {
        PutEdgeOfWritten(s, c, id, w, children, t, a, j);
      } else {
        PutEdgeOfOther(s, c, id, w, children, t, i, a, j);
        if j == id && t[j].shared != s[j].shared {
          PutUnshareSafe(s, c, id, w, children, t, i, a);
        }
      }
    }
  }

  // ----- Delete -----

  /** What a delete leaves of the links: those of a rule set's children to it and of a group's targets to it are
      cleared. */
  lemma DeletedShrinks(s: Store, c: Context, id: string)
    requires id in s
    ensures var t := Deleted(s, c, id); id !in t && t.Keys <= s.Keys
    ensures var t := Deleted(s, c, id); forall i :: i in t ==>
      && t[i].kind == s[i].kind && t[i].tenant == s[i].tenant && t[i].shared == s[i].shared
      && t[i].links.Keys <= s[i].links.Keys + {ParentId}
      && (forall a :: Links(t[i], a) == if Cleared(s, id, i, a) then {} else Links(s[i], a))
  {
    if s[id].kind == PolicyRuleSet {
      WithParentSameButParents(s, Children(s, id), {});
    } else if s[id].kind == TargetGroup {
      DeletedGroupShrinks(s, c, id);
    }
  }

  lemma DeletedGroupShrinks(s: Store, c: Context, id: string)
    requires id in s && s[id].kind == TargetGroup
    ensures forall i :: i in Deleted(s, c, id) ==> var r := Deleted(s, c, id)[i];
              && r.kind == s[i].kind && r.tenant == s[i].tenant && r.shared == s[i].shared
              && r.links.Keys <= s[i].links.Keys
              && (forall a :: Links(r, a) == if Cleared(s, id, i, a) then {} else Links(s[i], a))
  {
  }

  predicate Cleared(s: Store, id: string, i: string, a: Attr)
    requires id in s
  {
    || (s[id].kind == PolicyRuleSet && a == ParentId && i in Children(s, id))
    || (s[id].kind == TargetGroup && a == TargetGroupId && i in Targets(s, id))
  }

  lemma DeleteWellFormed(s: Store, c: Context, id: string)
    requires WellFormed(s) && id in s
    ensures WellFormed(Deleted(s, c, id))
  {
    DeletedShrinks(s, c, id);
  }

  /** No accepted delete leaves a dangling link. */
  lemma DeleteNoDangling(s: Store, c: Context, id: string)
    requires DeleteAccepted(s, c, id) && WellFormed(s) && NoDangling(s)
    ensures NoDangling(Deleted(s, c, id))
  {
    var t := Deleted(s, c, id);
    DeletedShrinks(s, c, id);
    forall i, a, j | Edge(t, i, a, j) ensures j in t && t[j].kind == UsageGraph(t[i].kind)[a] {
      assert Edge(s, i, a, j);
      DeleteKeepsTarget(s, c, id, i, a, j);
    }
  }

  /** What a remaining resource refers to remains. */
  lemma DeleteKeepsTarget(s: Store, c: Context, id: string, i: string, a: Attr, j: string)
    requires DeleteAccepted(s, c, id) && NoDangling(s)
    requires i in Deleted(s, c, id) && Edge(Deleted(s, c, id), i, a, j) && Edge(s, i, a, j)
    ensures j in Deleted(s, c, id)
  {
    if j == id {
      DeletedIsUnused(s, c, id, i, a);
    } else if s[id].kind == TargetGroup && j in Targets(s, id) {
      NothingUsesTargets(s[i].kind, a);
    }
  }

  /** No remaining resource refers to the deleted one. */
  lemma DeletedIsUnused(s: Store, c: Context, id: string, i: string, a: Attr)
    requires DeleteAccepted(s, c, id) && NoDangling(s)
    requires i in Deleted(s, c, id) && Edge(s, i, a, id)
    ensures !Edge(Deleted(s, c, id), i, a, id)
  {
    DeleteGuardsCoverGraph(s[i].kind, a, s[id].kind);
    DeletedShrinks(s, c, id);
    assert Cleared(s, id, i, a);
  }

  lemma NothingUsesTargets(from: Kind, a: Attr)
    requires a in UsageGraph(from)
    ensures UsageGraph(from)[a] != PolicyTarget
  {
  }

  lemma DeleteOneLevel(s: Store, c: Context, id: string)
    requires id in s && OneLevel(s)
    ensures OneLevel(Deleted(s, c, id))
  {
    var t := Deleted(s, c, id);
    forall i, p | i in t && p in Links(t[i], ParentId)
      ensures p in t && t[p].kind == PolicyRuleSet && p != i && Links(t[p], ParentId) == {}
    {
      DeleteKeepsParent(s, c, id, i, p);
    }
  }

  lemma DeleteKeepsParent(s: Store, c: Context, id: string, i: string, p: string)
    requires id in s && OneLevel(s) && i in Deleted(s, c, id) && p in Links(Deleted(s, c, id)[i], ParentId)
    ensures var t := Deleted(s, c, id);
            p in t && t[p].kind == PolicyRuleSet && p != i && Links(t[p], ParentId) == {}
  {
    DeletedShrinks(s, c, id);
    assert p in Links(s[i], ParentId);
    assert p == id ==> i in Children(s, id);
  }

  lemma DeleteSharing(s: Store, c: Context, id: string)
    requires id in s
    ensures SharedUsesShared(s) ==> SharedUsesShared(Deleted(s, c, id))
    ensures TenantsApart(s) ==> TenantsApart(Deleted(s, c, id))
  {
    var t := Deleted(s, c, id);
    DeletedShrinks(s, c, id);
    forall i, a, j | Edge(t, i, a, j) && a != ParentId && j in t ensures Edge(s, i, a, j) && j in s {
    }
  }

  /** Another tenant's target of a shared group survives the group's delete, without a group. */
  lemma ForeignTargetSurvives(s: Store, c: Context, id: string, target: string)
    requires DeleteAccepted(s, c, id) && s[id].kind == TargetGroup && target in Targets(s, id) && !Visible(c, s[target])
    ensures target in Deleted(s, c, id) && Links(Deleted(s, c, id)[target], TargetGroupId) == {}
  {
  }

  // ----- Main results -----

  /** Every accepted call keeps references whole, the hierarchy one level deep, and shared resources on shared ones. */
  lemma StepKeepsInv(s: Store, step: Step)
    requires Inv(s) && Accepted(s, step)
    ensures Inv(After(s, step))
  {
    match step
    case Create(c, id, r, adopted) =>
      var w, children := s[id := r], ForRuleSet(r.kind, Some(adopted));
      CreateIsPut(s, c, id, r, adopted);
      PutKeepsInv(s, c, id, w, children, Created(s, id, r, adopted));
    case Update(c, id, shared, links, children) =>
      var w, cs := s[id := Changed(s[id], shared, links)], ForRuleSet(s[id].kind, children);
      UpdateIsPut(s, c, id, shared, links, children);
      PutKeepsInv(s, c, id, w, cs, Updated(s, id, shared, links, children));
    case Delete(c, id) =>
      DeleteWellFormed(s, c, id);
      DeleteNoDangling(s, c, id);
      DeleteOneLevel(s, c, id);
      DeleteSharing(s, c, id);
  }

  lemma PutKeepsInv(s: Store, c: Context, id: string, w: Store, children: Option<set<string>>, t: Store)
    requires Inv(s) && Put(s, c, id, w, children, t)
    ensures Inv(t)
  {
    PutWellFormed(s, c, id, w, children, t);
    PutOneLevel(s, c, id, w, children, t);
    PutNoDangling(s, c, id, w, children, t);
    PutSharedUsesShared(s, c, id, w, children, t);
  }

  /** Calls without admin rights keep what is not shared within one tenant. */
  lemma StepKeepsTenantsApart(s: Store, step: Step)
    requires Inv(s) && TenantsApart(s) && Accepted(s, step) && !step.c.isAdmin
    ensures TenantsApart(After(s, step))
  {
    match step
    case Create(c, id, r, adopted) =>
      CreateIsPut(s, c, id, r, adopted);
      PutTenantsApart(s, c, id, s[id := r], ForRuleSet(r.kind, Some(adopted)), Created(s, id, r, adopted));
    case Update(c, id, shared, links, children) =>
      UpdateIsPut(s, c, id, shared, links, children);
      PutTenantsApart(s, c, id, s[id := Changed(s[id], shared, links)], ForRuleSet(s[id].kind, children),
        Updated(s, id, shared, links, children));
    case Delete(c, id) => DeleteSharing(s, c, id);
  }

  /** Rejected calls change nothing. */
  ghost function Run(s: Store, steps: seq<Step>): Store
    decreases |steps|
  {
    if steps == [] then s
    else Run(if Accepted(s, steps[0]) then After(s, steps[0]) else s, steps[1..])
  }

  /** From a store with the invariants, every run keeps them. */
  lemma {:induction false} RunKeepsInv(s: Store, steps: seq<Step>)
    requires Inv(s)
    ensures Inv(Run(s, steps))
    ensures TenantsApart(s) && (forall i :: 0 <= i < |steps| ==> !steps[i].c.isAdmin) ==> TenantsApart(Run(s, steps))
    decreases |steps|
  {
    if steps != [] {
      if Accepted(s, steps[0]) {
        StepKeepsInv(s, steps[0]);
        if TenantsApart(s) && !steps[0].c.isAdmin {
          StepKeepsTenantsApart(s, steps[0]);
        }
      }
      RunKeepsInv(if Accepted(s, steps[0]) then After(s, steps[0]) else s, steps[1..]);
    }
  }

  /** In every reachable store the invariants hold, and without admin calls the tenants stay apart. */
  lemma ReachableInv(steps: seq<Step>)
    ensures Inv(Run(map[], steps))
    ensures (forall i :: 0 <= i < |steps| ==> !steps[i].c.isAdmin) ==> TenantsApart(Run(map[], steps))
  {
    assert Inv(map[]) && TenantsApart(map[]);
    RunKeepsInv(map[], steps);
  }

  // ----- The parent link, which the checks leave open -----

  /** A shared rule set has a shared parent. */
  ghost predicate SharedParents(s: Store) {
    forall i, p :: i in s && p in Links(s[i], ParentId) && p in s && s[i].shared ==> s[p].shared
  }

  /** The rule set ends up unshared above a child that is shared. */
  ghost predicate LeavesSharedChild(s: Store, step: Step) {
    match step
    case Create(c, id, r, adopted) =>
      r.kind == PolicyRuleSet && !r.shared && exists i :: i in adopted && i in s && s[i].shared
    case Update(c, id, shared, links, children) =>
      id in s && s[id].kind == PolicyRuleSet && !shared
      && exists i :: i in (if children.Some? then children.value else Children(s, id)) && i in s && s[i].shared
    case Delete(c, id) => false
  }

  /** The children of the written rule set afterwards. */
  ghost function ChildrenAfter(s: Store, id: string, children: Option<set<string>>): set<string> {
    if children.Some? then children.value else Children(s, id)
  }

  lemma ChildrenOfWritten(s: Store, c: Context, id: string, w: Store, children: Option<set<string>>, t: Store,
      i: string)
    requires Put(s, c, id, w, children, t) && i in t && id !in Links(w[id], ParentId)
    ensures id in Links(t[i], ParentId) <==> i in ChildrenAfter(s, id, children)
  {
    PutParents(s, c, id, w, children, t, i);
  }

  lemma PutSharedParents(s: Store, c: Context, id: string, w: Store, children: Option<set<string>>, t: Store)
    requires Inv(s) && SharedParents(s) && Put(s, c, id, w, children, t)
    ensures SharedParents(t) <==>
            w[id].shared || forall i :: i in ChildrenAfter(s, id, children) && i in s ==> !s[i].shared
  {
    forall i | i in t ensures id in Links(t[i], ParentId) <==> i in ChildrenAfter(s, id, children) {
      ChildrenOfWritten(s, c, id, w, children, t, i);
    }
    forall i, p | i in t && p in Links(t[i], ParentId) && p in t && p != id && t[i].shared ensures t[p].shared {
      PutOtherParent(s, c, id, w, children, t, i, p);
    }
    forall i | i in ChildrenAfter(s, id, children) && i in s ensures i in t && i != id && t[i].shared == s[i].shared {
      NotItsOwnChild(s, c, id, w, children, t);
    }
    assert t[id].shared == w[id].shared;
  }

  lemma NotItsOwnChild(s: Store, c: Context, id: string, w: Store, children: Option<set<string>>, t: Store)
    requires Inv(s) && Put(s, c, id, w, children, t)
    ensures id !in ChildrenAfter(s, id, children)
  {
  }

  /** Parents other than the written rule set. */
  lemma PutOtherParent(s: Store, c: Context, id: string, w: Store, children: Option<set<string>>, t: Store, i: string,
      p: string)
    requires Inv(s) && SharedParents(s) && Put(s, c, id, w, children, t)
    requires i in t && p in Links(t[i], ParentId) && p in t && p != id && t[i].shared
    ensures t[p].shared
  {
    if i == id {
      OwnParentShared(s, c, id, w, children, t, p);
    } else {
      PutParents(s, c, id, w, children, t, i);
      assert p in Links(s[i], ParentId) && s[p].shared;
    }
  }

  lemma OwnParentShared(s: Store, c: Context, id: string, w: Store, children: Option<set<string>>, t: Store, p: string)
    requires Inv(s) && Put(s, c, id, w, children, t) && p in Links(t[id], ParentId) && p in t && t[id].shared
    ensures t[p].shared
  {
    PutParents(s, c, id, w, children, t, id);
    PutOneParent(s, c, id, w, children, t, id);
    CheckedParent(t, c, w[id], p);
  }

  lemma CheckedParent(t: Store, c: Context, r: Resource, p: string)
    requires LinksAccepted(t, c, r) && r.kind == PolicyRuleSet && p in Links(r, ParentId)
    ensures p in t && (r.shared ==> t[p].shared)
  {
    assert ParentId in UsageGraph(r.kind) && LinkAccepted(t, c, r, PolicyRuleSet, p);
  }

  /** An accepted call keeps shared parents for shared children, except exactly when it leaves a shared child below. */
  lemma StepSharedParents(s: Store, step: Step)
    requires Inv(s) && SharedParents(s) && Accepted(s, step)
    ensures SharedParents(After(s, step)) <==> !LeavesSharedChild(s, step)
  {
    match step
    case Create(c, id, r, adopted) =>
      var children := ForRuleSet(r.kind, Some(adopted));
      CreateIsPut(s, c, id, r, adopted);
      NoParentYet(s, id);
      PutSharedParents(s, c, id, s[id := r], children, Created(s, id, r, adopted));
    case Update(c, id, shared, links, children) =>
      var w, cs := s[id := Changed(s[id], shared, links)], ForRuleSet(s[id].kind, children);
      UpdateIsPut(s, c, id, shared, links, children);
      PutSharedParents(s, c, id, w, cs, Updated(s, id, shared, links, children));
      if s[id].kind != PolicyRuleSet {
        OnlyRuleSetsHaveChildren(s, id);
      }
    case Delete(c, id) => DeletedShrinks(s, c, id);
  }

  lemma NoParentYet(s: Store, id: string)
    requires Inv(s) && id !in s
    ensures Children(s, id) == {}
  {
  }

  lemma OnlyRuleSetsHaveChildren(s: Store, id: string)
    requires Inv(s) && id in s && s[id].kind != PolicyRuleSet
    ensures Children(s, id) == {}
  {
  }

  /** A rule set can be unshared above a shared child, whoever asks: the check looks at groups and external policies
      only. */
  lemma UnsharedParentOfSharedChild(c: Context, p: string, child: string, tenant: string)
    requires p != child
    ensures var s := SharedFamily(p, child, tenant);
            var step := Update(c, p, false, map[], None);
            Inv(s) && SharedParents(s) && Accepted(s, step) && !SharedParents(After(s, step))
  {
    var s := SharedFamily(p, child, tenant);
    var step := Update(c, p, false, map[], None);
    SharedFamilyInv(p, child, tenant);
    UnshareOfParentAccepted(c, p, child, tenant);
    assert child in Children(s, p);
    StepSharedParents(s, step);
  }

  lemma SharedFamilyInv(p: string, child: string, tenant: string)
    requires p != child
    ensures Inv(SharedFamily(p, child, tenant)) && SharedParents(SharedFamily(p, child, tenant))
  {
  }

  lemma UnshareOfParentAccepted(c: Context, p: string, child: string, tenant: string)
    requires p != child
    ensures Accepted(SharedFamily(p, child, tenant), Update(c, p, false, map[], None))
  {
  }

  /** A shared rule set with one shared child. */
  function SharedFamily(p: string, child: string, tenant: string): Store {
    map[
      p := Resource(PolicyRuleSet, tenant, true, map[]),
      child := Resource(PolicyRuleSet, tenant, true, map[ParentId := {p}])]
  }
}
