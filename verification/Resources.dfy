/** The group policy resources, their reference graph, and the checks of
    gbpservice/neutron/services/grouppolicy/plugin.py and db/grouppolicy/group_policy_db.py on them. */
module Resources {
  import opened Collections

  datatype Kind =
    | L3Policy | L2Policy | TargetGroup | NetworkServicePolicy
    | PolicyRule | PolicyAction | PolicyClassifier | PolicyRuleSet
    | ExternalSegment | ExternalPolicy | NatPool | PolicyTarget | ApplicationPolicyGroup

  datatype Attr =
    | ExternalSegments | L3PolicyId | NetworkServicePolicyId | L2PolicyId | ProvidedRuleSets | ConsumedRuleSets
    | ClassifierId | Actions | ParentId | Rules | ExternalSegmentId | TargetGroupId

  datatype Resource = Resource(kind: Kind, tenant: string, shared: bool, links: map<Attr, set<string>>)

  type Store = map<string, Resource>

  datatype Context = Context(tenant: string, isAdmin: bool)

  /** usage_graph: for each kind, its link attributes and the kind they lead to. */
  function UsageGraph(k: Kind): map<Attr, Kind> {
    match k
    case L3Policy => map[ExternalSegments := ExternalSegment]
    case L2Policy => map[L3PolicyId := L3Policy]
    case TargetGroup => map[NetworkServicePolicyId := NetworkServicePolicy, L2PolicyId := L2Policy,
                            ProvidedRuleSets := PolicyRuleSet, ConsumedRuleSets := PolicyRuleSet]
    case PolicyRule => map[ClassifierId := PolicyClassifier, Actions := PolicyAction]
    case PolicyRuleSet => map[ParentId := PolicyRuleSet, Rules := PolicyRule]
    case ExternalPolicy => map[ExternalSegments := ExternalSegment,
                               ProvidedRuleSets := PolicyRuleSet, ConsumedRuleSets := PolicyRuleSet]
    case NatPool => map[ExternalSegmentId := ExternalSegment]
    case PolicyTarget => map[TargetGroupId := TargetGroup]
    case _ => map[]
  }

  function Links(r: Resource, a: Attr): set<string> {
    if a in r.links then r.links[a] else {}
  }

  /** `i` refers to `j` through attribute `a`. */
  predicate Edge(s: Store, i: string, a: Attr, j: string) {
    i in s && a in UsageGraph(s[i].kind) && j in Links(s[i], a)
  }

  // ----- The sharing checks -----

  predicate Visible(c: Context, r: Resource) {
    c.isAdmin || r.shared || r.tenant == c.tenant
  }

  /** _verify_sharing_consistency does not object. */
  predicate SharingConsistent(primary: Resource, reference: Resource, isAdmin: bool) {
    reference.shared || (!primary.shared && (isAdmin || primary.tenant == reference.tenant))
  }

  predicate LinkAccepted(s: Store, c: Context, r: Resource, k: Kind, j: string) {
    j in s && s[j].kind == k && Visible(c, s[j]) && SharingConsistent(r, s[j], c.isAdmin)
  }

  /** _validate_shared_create does not object. */
  predicate LinksAccepted(s: Store, c: Context, r: Resource) {
    forall a, j :: a in UsageGraph(r.kind) && j in Links(r, a) ==> LinkAccepted(s, c, r, UsageGraph(r.kind)[a], j)
  }

  /** The referring kinds and attributes each _validate_..._unshare method looks at. */
  function UnshareChecks(k: Kind): set<(Kind, Attr)> {
    match k
    case L3Policy => {(L2Policy, L3PolicyId)}
    case L2Policy => {(TargetGroup, L2PolicyId)}
    case TargetGroup => {(PolicyTarget, TargetGroupId)}
    case NetworkServicePolicy => {(TargetGroup, NetworkServicePolicyId)}
    case PolicyRuleSet => {(TargetGroup, ProvidedRuleSets), (TargetGroup, ConsumedRuleSets),
                           (ExternalPolicy, ProvidedRuleSets), (ExternalPolicy, ConsumedRuleSets)}
    case PolicyClassifier => {(PolicyRule, ClassifierId)}
    case PolicyRule => {(PolicyRuleSet, Rules)}
    case PolicyAction => {(PolicyRule, Actions)}
    case ExternalSegment => {(L3Policy, ExternalSegments), (ExternalPolicy, ExternalSegments),
        (NatPool, ExternalSegmentId)}
    case _ => {}
  }

  /** _check_shared_or_different_tenant does not object to any referring resource. */
  predicate UnshareAccepted(s: Store, id: string)
    requires id in s
  {
    && s[id].kind != ApplicationPolicyGroup  // has no such method: the update fails
    && forall i, a :: i in s && (s[i].kind, a) in UnshareChecks(s[id].kind) && id in Links(s[i], a) ==>
         !s[i].shared && s[i].tenant == s[id].tenant
  }

  // ----- The rule set hierarchy -----

  function Children(s: Store, id: string): set<string> {
    set i | i in s && id in Links(s[i], ParentId)
  }

  function WithParent(s: Store, ids: set<string>, parent: set<string>): Store {
    map i | i in s :: if i in ids then s[i].(links := s[i].links[ParentId := parent]) else s[i]
  }

  /** _set_children_for_policy_rule_set does not object. */
  predicate ChildrenAccepted(s: Store, c: Context, id: string, ids: set<string>)
    requires id in s
  {
    ids == {} ||
    (&& Links(s[id], ParentId) == {}
     && forall i :: i in ids ==>
          i in s && s[i].kind == PolicyRuleSet && Visible(c, s[i]) && Children(s, i) == {} && i != id)
  }

  /** Resets the children and adopts the new ones, also from another parent. */
  function SetChildren(s: Store, id: string, ids: set<string>): Store {
    WithParent(WithParent(s, Children(s, id), {}), ids, {id})
  }

  // ----- Create, update, delete -----

  /** What a request can say: everything but the parent, which only the parent's own update sets. */
  predicate Requested(r: Resource) {
    r.links.Keys <= UsageGraph(r.kind).Keys - {ParentId} && (r.kind == PolicyTarget ==> !r.shared)
  }

  function Created(s: Store, id: string, r: Resource, children: set<string>): Store {
    if r.kind == PolicyRuleSet then SetChildren(s[id := r], id, children) else s[id := r]
  }

  predicate CreateAccepted(s: Store, c: Context, id: string, r: Resource, children: set<string>) {
    && (c.isAdmin || r.tenant == c.tenant)
    && (r.kind == PolicyRuleSet ==> ChildrenAccepted(s[id := r], c, id, children))
    && LinksAccepted(Created(s, id, r, children), c, r)
  }

  /** The resource after the update request, which gives all the links it is to have: kind, tenant and parent stay. */
  function Changed(r: Resource, shared: bool, links: map<Attr, set<string>>): Resource {
    r.(shared := shared, links := links[ParentId := Links(r, ParentId)])
  }

  function Updated(s: Store, id: string, shared: bool, links: map<Attr, set<string>>,
      children: Option<set<string>>): Store
    requires id in s
  {
    var s' := s[id := Changed(s[id], shared, links)];
    if s[id].kind == PolicyRuleSet && children.Some? then SetChildren(s', id, children.value) else s'
  }

  predicate UpdateAccepted(s: Store, c: Context, id: string, shared: bool, links: map<Attr, set<string>>,
      children: Option<set<string>>)
  {
    && id in s && Visible(c, s[id])
    && (s[id].kind == PolicyRuleSet && children.Some? ==>
          ChildrenAccepted(s[id := Changed(s[id], shared, links)], c, id, children.value))
    && var s' := Updated(s, id, shared, links, children);
       LinksAccepted(s', c, Changed(s[id], shared, links)) && (shared != s[id].shared ==> UnshareAccepted(s', id))
  }

  /** The relations each delete checks before it removes a resource. */
  function DeleteGuards(k: Kind): set<(Kind, Attr)> {
    match k
    case L3Policy => {(L2Policy, L3PolicyId)}
    case L2Policy => {(TargetGroup, L2PolicyId)}
    case NetworkServicePolicy => {(TargetGroup, NetworkServicePolicyId)}
    case PolicyRuleSet => {(TargetGroup, ProvidedRuleSets), (TargetGroup, ConsumedRuleSets),
                           (ExternalPolicy, ProvidedRuleSets), (ExternalPolicy, ConsumedRuleSets)}
    case PolicyClassifier => {(PolicyRule, ClassifierId)}
    case PolicyRule => {(PolicyRuleSet, Rules)}
    case PolicyAction => {(PolicyRule, Actions)}
    case ExternalSegment => {(L3Policy, ExternalSegments), (NatPool, ExternalSegmentId),
        (ExternalPolicy, ExternalSegments)}
    case _ => {}
  }

  function Targets(s: Store, id: string): set<string> {
    set i | i in s && s[i].kind == PolicyTarget && id in Links(s[i], TargetGroupId)
  }

  function VisibleTargets(s: Store, c: Context, id: string): set<string> {
    set i | i in Targets(s, id) && Visible(c, s[i])
  }

  /** The group as its delete first updates it: without rule sets. */
  function Disassociated(r: Resource): Resource {
    r.(links := r.links - {ProvidedRuleSets, ConsumedRuleSets})
  }

  predicate DeleteAccepted(s: Store, c: Context, id: string) {
    && id in s && Visible(c, s[id])
    && (forall i, a :: i in s && (s[i].kind, a) in DeleteGuards(s[id].kind) ==> id !in Links(s[i], a))
    && (s[id].kind == TargetGroup ==> LinksAccepted(s[id := Disassociated(s[id])], c, Disassociated(s[id])))
  }

  /** `policy_target_group_id` of the group's remaining targets is set to null. */
  function WithoutGroup(s: Store, targets: set<string>): Store {
    map i | i in s :: if i in targets then s[i].(links := s[i].links[TargetGroupId := {}]) else s[i]
  }

  /** A group takes the targets its caller can see with it, and leaves the others without a group;
      a rule set's children lose their parent. */
  function Deleted(s: Store, c: Context, id: string): Store
    requires id in s
  {
    match s[id].kind
    case TargetGroup => WithoutGroup(s, Targets(s, id)) - VisibleTargets(s, c, id) - {id}
    case PolicyRuleSet => WithParent(s, Children(s, id), {}) - {id}
    case _ => s - {id}
  }

  // ----- The plugin -----

  /** One committed transaction is one step; an exception leaves the store as it was. */
  class GroupPolicyPlugin {
    var resources: Store

    constructor ()
      ensures resources == map[]
    {
      resources := map[];
    }

    /** _validate_shared_create, on the store `s` as written so far */
    method ValidateSharedCreate(s: Store, c: Context, r: Resource) returns (ok: bool)
      ensures ok <==> LinksAccepted(s, c, r)
    {
      var attrs := UsageGraph(r.kind).Keys;
      while attrs != {}
        invariant attrs <= UsageGraph(r.kind).Keys
        invariant forall a, j :: a in UsageGraph(r.kind).Keys - attrs && j in Links(r, a) ==>
                    LinkAccepted(s, c, r, UsageGraph(r.kind)[a], j)
        decreases attrs
      {
        var a :| a in attrs;
        var ids := Links(r, a);
        var linked := set j | j in ids && j in s && s[j].kind == UsageGraph(r.kind)[a] && Visible(c, s[j]);
        var left, linkIds := linked, {};
        while left != {}
          invariant left <= linked && linkIds == linked - left
          invariant forall j :: j in linkIds ==> SharingConsistent(r, s[j], c.isAdmin)
          decreases left
        {
          var j :| j in left;
          if !s[j].shared {
            if r.shared || (!c.isAdmin && r.tenant != s[j].tenant) {
              assert !LinkAccepted(s, c, r, UsageGraph(r.kind)[a], j);
              return false;
            }
          }
          left, linkIds := left - {j}, linkIds + {j};
        }
        if ids - linkIds != {} {
          var j :| j in ids - linkIds;
          assert !LinkAccepted(s, c, r, UsageGraph(r.kind)[a], j);
          return false;
        }
        assert forall j :: j in ids ==> j in linkIds;
        attrs := attrs - {a};
      }
      return true;
    }

    /** One _check_shared_or_different_tenant call per referring kind and attribute */
    method ValidateUnshare(s: Store, id: string) returns (ok: bool)
      requires id in s
      ensures ok <==> UnshareAccepted(s, id)
    {
      if s[id].kind == ApplicationPolicyGroup {
        return false;
      }
      var checks := UnshareChecks(s[id].kind);
      while checks != {}
        invariant checks <= UnshareChecks(s[id].kind)
        invariant forall i, a ::
                i in s && (s[i].kind, a) in UnshareChecks(s[id].kind) - checks && id in Links(s[i], a) ==>
                    !s[i].shared && s[i].tenant == s[id].tenant
        decreases checks
      {
        var check :| check in checks;
        var refs := set i | i in s && s[i].kind == check.0 && id in Links(s[i], check.1);
        if i :| i in refs && (s[i].shared || s[i].tenant != s[id].tenant) {
          assert (s[i].kind, check.1) in UnshareChecks(s[id].kind);
          return false;
        }
        checks := checks - {check};
      }
      return true;
    }

    method Create(c: Context, id: string, r: Resource, children: set<string>) returns (ok: bool)
      requires id !in resources && Requested(r)
      modifies this
      ensures ok <==> CreateAccepted(old(resources), c, id, r, children)
      ensures resources == if ok then Created(old(resources), id, r, children) else old(resources)
    {
      if !c.isAdmin && r.tenant != c.tenant {
        return false;
      }
      if r.kind == PolicyRuleSet && !ChildrenAccepted(resources[id := r], c, id, children) {
        return false;
      }
      var s := Created(resources, id, r, children);
      ok := ValidateSharedCreate(s, c, r);
      if ok {
        resources := s;
      }
    }

    method Update(c: Context, id: string, shared: bool, links: map<Attr, set<string>>, children: Option<set<string>>)
      returns (ok: bool)
      requires id in resources ==> Requested(Resource(resources[id].kind, resources[id].tenant, shared, links))
      modifies this
      ensures ok <==> UpdateAccepted(old(resources), c, id, shared, links, children)
      ensures resources == if ok then Updated(old(resources), id, shared, links, children) else old(resources)
    {
      if id !in resources || !Visible(c, resources[id]) {
        return false;
      }
      var r := Changed(resources[id], shared, links);
      if r.kind == PolicyRuleSet && children.Some? && !ChildrenAccepted(resources[id := r], c, id, children.value) {
        return false;
      }
      var s := Updated(resources, id, shared, links, children);
      ok := ValidateSharedCreate(s, c, r);
      if ok && shared != resources[id].shared {
        ok := ValidateUnshare(s, id);
      }
      if ok {
        resources := s;
      }
    }

    method Delete(c: Context, id: string) returns (ok: bool)
      modifies this
      ensures ok <==> DeleteAccepted(old(resources), c, id)
      ensures resources == if ok then Deleted(old(resources), c, id) else old(resources)
    {
      if id !in resources || !Visible(c, resources[id]) {
        return false;
      }
      var s := resources;
      if i :| i in s && exists a :: (s[i].kind, a) in DeleteGuards(s[id].kind) && id in Links(s[i], a) {
        return false;
      }
      if s[id].kind == TargetGroup {
        ok := DeleteGroup(c, id);
        return ok;
      }
      resources := if s[id].kind == PolicyRuleSet then WithParent(s, Children(s, id), {}) - {id} else s - {id};
      return true;
    }

    /** delete_policy_target_group: the rule sets are given up first, then the visible targets go one by one. */
    method DeleteGroup(c: Context, id: string) returns (ok: bool)
      requires id in resources && resources[id].kind == TargetGroup
      modifies this
      ensures ok <==>
              LinksAccepted(old(resources)[id := Disassociated(old(resources)[id])], c,
                  Disassociated(old(resources)[id]))
      ensures resources == if ok then Deleted(old(resources), c, id) else old(resources)
    {
      var s := resources;
      var updated := s[id := Disassociated(s[id])];
      ok := ValidateSharedCreate(updated, c, updated[id]);
      if !ok {
        return false;
      }
      resources := updated;
      var left := VisibleTargets(s, c, id);
      while left != {}
        invariant left <= VisibleTargets(s, c, id)
        invariant resources == updated - (VisibleTargets(s, c, id) - left)
      {
        var pt :| pt in left;
        resources := resources - {pt};
        left := left - {pt};
      }
      assert updated - (VisibleTargets(s, c, id) - left) == updated - VisibleTargets(s, c, id);
      resources := WithoutGroup(resources, Targets(s, id)) - {id};
      DisassociatedGoes(s, c, id);
    }
  }

  /** The group's own update does not show once the group is gone. */
  lemma DisassociatedGoes(s: Store, c: Context, id: string)
    requires id in s && s[id].kind == TargetGroup
    ensures WithoutGroup(s[id := Disassociated(s[id])] - VisibleTargets(s, c, id), Targets(s, id)) - {id} ==
            Deleted(s, c, id)
  {
  }
}
