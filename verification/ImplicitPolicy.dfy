/** Implicit L2 and L3 policies: created on demand, owned by the driver, and removed with their last user.
    gbpservice/neutron/services/grouppolicy/drivers/implicit_policy.py with the plugin calls it makes. */
module ImplicitPolicy {
  import opened Collections

  datatype Group = Group(tenant: string, shared: bool, l2: Option<string>)
  datatype L2 = L2(tenant: string, shared: bool, l3: Option<string>)
  datatype L3 = L3(tenant: string, shared: bool, hasDefaultName: bool)

  /** The tables; the two ownership tables refer to policies and go with them. */
  datatype State = State(
    groups: map<string, Group>,
    l2s: map<string, L2>,
    l3s: map<string, L3>,
    ownedL2: set<string>,
    ownedL3: set<string>)

  function GroupsOf(s: State, l2: string): set<string> {
    set g | g in s.groups && s.groups[g].l2 == Some(l2)
  }

  function L2sOf(s: State, l3: string): set<string> {
    set l | l in s.l2s && s.l2s[l].l3 == Some(l3)
  }

  function Defaults(s: State, tenant: string): set<string> {
    set l | l in s.l3s && s.l3s[l].tenant == tenant && s.l3s[l].hasDefaultName
  }

  /** What holds between calls: links are live, every group has its L2 policy, and owned policies have users. */
  ghost predicate Tidy(s: State) {
    && (forall g :: g in s.groups ==> s.groups[g].l2.Some? && s.groups[g].l2.value in s.l2s)
    && (forall l :: l in s.l2s && s.l2s[l].l3.Some? ==> s.l2s[l].l3.value in s.l3s)
    && s.ownedL2 <= s.l2s.Keys && s.ownedL3 <= s.l3s.Keys
    && (forall l :: l in s.ownedL2 ==> GroupsOf(s, l) != {})
    && (forall l :: l in s.ownedL3 ==> L2sOf(s, l) != {})
  }

  /** Every L2 policy has its L3 policy. */
  ghost predicate AllLinked(s: State) {
    forall l :: l in s.l2s ==> s.l2s[l].l3.Some?
  }

  ghost predicate Quiet(s: State) {
    Tidy(s) && AllLinked(s)
  }

  /** _verify_sharing_consistency: a resource may refer to a shared one, and an unshared one of its tenant to any of the
      tenant, or of every tenant if the caller is an admin. */
  predicate MayUse(tenant: string, shared: bool, refTenant: string, refShared: bool, isAdmin: bool) {
    refShared || (!shared && (isAdmin || tenant == refTenant))
  }

  predicate MayUseL3(s: State, tenant: string, shared: bool, l3: string, isAdmin: bool) {
    l3 in s.l3s && MayUse(tenant, shared, s.l3s[l3].tenant, s.l3s[l3].shared, isAdmin)
  }

  predicate MayUseL2(s: State, tenant: string, shared: bool, l2: string, isAdmin: bool) {
    l2 in s.l2s && MayUse(tenant, shared, s.l2s[l2].tenant, s.l2s[l2].shared, isAdmin)
  }

  /** Each tenant has at most one L3 policy of the default name. */
  ghost predicate OneDefault(s: State) {
    forall l, m ::
      (l in s.l3s && m in s.l3s && l in Defaults(s, s.l3s[l].tenant) && m in Defaults(s, s.l3s[l].tenant)) ==> l == m
  }

  // ----- What the calls do to the tables -----

  function WithName(s: State, l3: string, hasDefaultName: bool): State
    requires l3 in s.l3s
  {
    s.(l3s := s.l3s[l3 := s.l3s[l3].(hasDefaultName := hasDefaultName)])
  }

  function WithoutL3(s: State, l3: string): State {
    s.(l3s := s.l3s - {l3}, ownedL3 := s.ownedL3 - {l3})
  }

  /** _cleanup_l3_policy: only an owned policy, and only when no L2 policy uses it. */
  function CleanL3(s: State, l3: Option<string>): State {
    if l3.Some? && l3.value in s.ownedL3 && L2sOf(s, l3.value) == {} then WithoutL3(s, l3.value) else s
  }

  /** delete_l2_policy of a policy without groups, and what its postcommit hook cleans up. */
  function WithoutL2(s: State, l2: string): State
    requires l2 in s.l2s
  {
    CleanL3(s.(l2s := s.l2s - {l2}, ownedL2 := s.ownedL2 - {l2}), s.l2s[l2].l3)
  }

  /** _cleanup_l2_policy */
  function CleanL2(s: State, l2: Option<string>): State {
    if l2.Some? && l2.value in s.ownedL2 && l2.value in s.l2s && GroupsOf(s, l2.value) == {}
        then WithoutL2(s, l2.value) else s
  }

  /** `l3` is a policy _create_implicit_l3_policy may come up with: a default one, or a new one if there is none. */
  predicate ImplicitChoice(s: State, tenant: string, l3: string) {
    if Defaults(s, tenant) != {} then l3 in Defaults(s, tenant) else l3 !in s.l3s
  }

  /** The tables after _use_implicit_l3_policy for an L2 policy. */
  function WithImplicitL3(s: State, l2: string, l3: string): State
    requires l2 in s.l2s
  {
    var s' := if l3 in s.l3s then s
              else s.(l3s := s.l3s[l3 := L3(s.l2s[l2].tenant, s.l2s[l2].shared, true)], ownedL3 := s.ownedL3 + {l3});
    s'.(l2s := s'.l2s[l2 := s'.l2s[l2].(l3 := Some(l3))])
  }

  /** What set_l3_policy_id turns down: the tenant's default policy is not shared, but the L2 policy is. */
  predicate Refused(s: State, shared: bool, l3: string) {
    shared && l3 in s.l3s && !s.l3s[l3].shared
  }

  /** create_l2_policy with its postcommit hook; `l3` is the given policy or the implicit choice. */
  function WithNewL2(s: State, l2: string, tenant: string, shared: bool, l3: string): State {
    WithImplicitL3(s.(l2s := s.l2s[l2 := L2(tenant, shared, None)]), l2, l3)
  }

  /** create_policy_target_group with its postcommit hook, when no L2 policy is given. */
  function WithImplicitGroup(s: State, g: string, tenant: string, shared: bool, l2: string, l3: string): State {
    var s' := WithNewL2(s, l2, tenant, shared, l3);
    s'.(groups := s'.groups[g := Group(tenant, shared, Some(l2))], ownedL2 := s'.ownedL2 + {l2})
  }

  /** update_l2_policy with its postcommit hook: the old L3 policy is cleaned up before a new one is chosen. */
  function WithMovedL2(s: State, l2: string, given: Option<string>): State
    requires l2 in s.l2s
  {
    var s' := s.(l2s := s.l2s[l2 := s.l2s[l2].(l3 := given)]);
    if given == s.l2s[l2].l3 then s' else CleanL3(s', s.l2s[l2].l3)
  }

  function WithoutGroup(s: State, g: string): State
    requires g in s.groups
  {
    CleanL2(s.(groups := s.groups - {g}), s.groups[g].l2)
  }

  /** update_policy_target_group, before its postcommit hook */
  function WithGroupL2(s: State, g: string, given: Option<string>): State
    requires g in s.groups
  {
    s.(groups := s.groups[g := s.groups[g].(l2 := given)])
  }

  /** The proxied group, if there is one, has an L2 policy. */
  predicate ProxyLive(s: State, proxied: Option<string>) {
    proxied.Some? ==>
      proxied.value in s.groups && s.groups[proxied.value].l2.Some? && s.groups[proxied.value].l2.value in s.l2s
  }

  /** The L3 policy an implicit L2 policy is created with. */
  function ProxiedL3(s: State, proxied: Option<string>): Option<string>
    requires ProxyLive(s, proxied)
  {
    if proxied.Some? then s.l2s[s.groups[proxied.value].l2.value].l3 else None
  }

  /** An L3 policy the driver may settle on for an L2 policy: the tenant's default one, or else the fresh one. */
  predicate Settles(s: State, tenant: string, freshL3: string, l3: string) {
    ImplicitChoice(s, tenant, l3) && (l3 in s.l3s || l3 == freshL3)
  }

  /** The L3 policy of a new L2 policy: the given one, or the implicit choice. */
  predicate SettlesL2(s: State, tenant: string, given: Option<string>, freshL3: string, l3: string) {
    if given.Some? then l3 == given.value else Settles(s, tenant, freshL3, l3)
  }

  /** The new L2 policy may use that L3 policy. */
  predicate L2Allowed(s: State, tenant: string, shared: bool, given: Option<string>, l3: string, isAdmin: bool) {
    if given.Some? then MayUseL3(s, tenant, shared, given.value, isAdmin) else !Refused(s, shared, l3)
  }

  /** A cleanup leaves alone what a group uses. */
  lemma CleanL2KeepsProxy(s: State, l2: Option<string>, proxied: Option<string>)
    requires ProxyLive(s, proxied)
    ensures ProxyLive(CleanL2(s, l2), proxied)
    ensures CleanL2(s, l2).groups == s.groups
  {
    if proxied.Some? {
      assert proxied.value in GroupsOf(s, s.groups[proxied.value].l2.value);
    }
  }

  /** A new L2 policy whose creation is given up leaves no trace. */
  lemma CreateL2Undone(s: State, l2: string, tenant: string, shared: bool)
    requires l2 !in s.l2s && l2 !in s.ownedL2
    ensures WithoutL2(s.(l2s := s.l2s[l2 := L2(tenant, shared, None)]), l2) == s
  {
    assert s.l2s[l2 := L2(tenant, shared, None)] - {l2} == s.l2s;
  }

  /** The same for a new group. */
  lemma CreateGroupUndone(s: State, g: string, group: Group)
    requires g !in s.groups && group.l2.None?
    ensures WithoutGroup(s.(groups := s.groups[g := group]), g) == s
  {
    assert s.groups[g := group] - {g} == s.groups;
  }

  // ----- The plugin with the implicit policy driver -----

  class ImplicitPolicyPlugin {
    var groups: map<string, Group>
    var l2s: map<string, L2>
    var l3s: map<string, L3>
    var ownedL2: set<string>
    var ownedL3: set<string>

    ghost function View(): State
      reads this
    {
      State(groups, l2s, l3s, ownedL2, ownedL3)
    }

    constructor ()
      ensures View() == State(map[], map[], map[], {}, {})
    {
      groups, l2s, l3s, ownedL2, ownedL3 := map[], map[], map[], {}, {};
    }

    // ----- L3 policies -----

    /** create_l3_policy; the precommit hook rejects a second default policy of the tenant. */
    method CreateL3(id: string, tenant: string, shared: bool, hasDefaultName: bool) returns (ok: bool)
      requires id !in l3s
      modifies this
      ensures ok <==> !hasDefaultName || Defaults(old(View()), tenant) == {}
      ensures View() == if ok then old(View()).(l3s := old(l3s)[id := L3(tenant, shared, hasDefaultName)])
                        else old(View())
    {
      if hasDefaultName && exists l :: l in l3s && l3s[l].tenant == tenant && l3s[l].hasDefaultName {
        assert Defaults(View(), tenant) != {} by {
          var l :| l in l3s && l3s[l].tenant == tenant && l3s[l].hasDefaultName;
          assert l in Defaults(View(), tenant);
        }
        return false;
      }
      l3s := l3s[id := L3(tenant, shared, hasDefaultName)];
      return true;
    }

    /** update_l3_policy of the name; no hook looks at it. */
    method UpdateL3(id: string, hasDefaultName: bool) returns (ok: bool)
      modifies this
      ensures ok <==> id in old(l3s)
      ensures View() == if ok then WithName(old(View()), id, hasDefaultName) else old(View())
    {
      if id !in l3s {
        return false;
      }
      l3s := l3s[id := l3s[id].(hasDefaultName := hasDefaultName)];
      return true;
    }

    /** delete_l3_policy; with check_unused a used policy is left alone without an error. */
    method DeleteL3(id: string, checkUnused: bool) returns (deleted: bool)
      modifies this
      ensures deleted <==> id in old(l3s) && L2sOf(old(View()), id) == {}
      ensures View() == if deleted then WithoutL3(old(View()), id) else old(View())
    {
      var users := set l | l in l2s && l2s[l].l3 == Some(id);
      assert users == L2sOf(View(), id);
      if checkUnused && users != {} {
        return false;
      }
      if id !in l3s || users != {} {
        return false;
      }
      l3s := l3s - {id};
      ownedL3 := ownedL3 - {id};
      return true;
    }

    /** _cleanup_l3_policy */
    method CleanupL3(id: Option<string>)
      requires ownedL3 <= l3s.Keys
      modifies this
      ensures View() == CleanL3(old(View()), id)
    {
      if id.Some? && id.value in ownedL3 {
        var deleted := DeleteL3(id.value, true);
      }
    }

    /** _use_implicit_l3_policy; `freshId` is the identifier a new policy would get. The setter checks the sharing. */
    method UseImplicitL3(l2: string, freshId: string) returns (ok: bool, l3: string)
      requires l2 in l2s && freshId !in l3s
      modifies this
      ensures Settles(old(View()), old(l2s)[l2].tenant, freshId, l3)
      ensures ok <==> !Refused(old(View()), old(l2s)[l2].shared, l3)
      ensures ok ==> l3 in l3s && l3s[l3].tenant == old(l2s)[l2].tenant && l3s[l3].hasDefaultName
      ensures ok ==> l2s == old(l2s)[l2 := old(l2s)[l2].(l3 := Some(l3))]
      ensures View() == if ok then WithImplicitL3(old(View()), l2, l3) else old(View())
    {
      var tenant, shared := l2s[l2].tenant, l2s[l2].shared;
      var found := set l | l in l3s && l3s[l].tenant == tenant && l3s[l].hasDefaultName;
      assert found == Defaults(View(), tenant);
      if found != {} {
        l3 :| l3 in found;
      } else {
        l3 := freshId;
        var created := CreateL3(l3, tenant, shared, true);
        ownedL3 := ownedL3 + {l3};
      }
      if !MayUse(tenant, shared, l3s[l3].tenant, l3s[l3].shared, false) {
        return false, l3;
      }
      l2s := l2s[l2 := l2s[l2].(l3 := Some(l3))];
      return true, l3;
    }

    // ----- L2 policies -----

    /** create_l2_policy; a refusal in the postcommit hook is compensated by a delete. */
    method CreateL2(id: string, tenant: string, shared: bool, given: Option<string>, isAdmin: bool, freshL3: string)
      returns (ok: bool, l3: string)
      requires id !in l2s && id !in ownedL2 && freshL3 !in l3s && GroupsOf(View(), id) == {} && ownedL3 <= l3s.Keys
      modifies this
      ensures SettlesL2(old(View()), tenant, given, freshL3, l3)
      ensures ok <==> L2Allowed(old(View()), tenant, shared, given, l3, isAdmin)
      ensures View() == if ok then WithNewL2(old(View()), id, tenant, shared, l3) else old(View())
    {
      if given.Some? {
        l3 := given.value;
        if l3 !in l3s || !MayUse(tenant, shared, l3s[l3].tenant, l3s[l3].shared, isAdmin) {
          return false, l3;
        }
        l2s := l2s[id := L2(tenant, shared, given)];
        return true, l3;
      }
      ghost var before := View();
      l2s := l2s[id := L2(tenant, shared, None)];
      CreateL2Undone(before, id, tenant, shared);
      ok, l3 := UseImplicitL3(id, freshL3);
      if !ok {
        var deleted := DeleteL2(id);
      }
    }

    /** delete_l2_policy, with the L2PolicyInUse guard and the postcommit cleanup */
    method DeleteL2(id: string) returns (ok: bool)
      requires ownedL3 <= l3s.Keys
      modifies this
      ensures ok <==> id in old(l2s) && GroupsOf(old(View()), id) == {}
      ensures View() == if ok then WithoutL2(old(View()), id) else old(View())
    {
      var users := set g | g in groups && groups[g].l2 == Some(id);
      assert users == GroupsOf(View(), id);
      if id !in l2s || users != {} {
        return false;
      }
      var l3 := l2s[id].l3;
      l2s := l2s - {id};
      ownedL2 := ownedL2 - {id};
      CleanupL3(l3);
      return true;
    }

    /** _cleanup_l2_policy: L2PolicyInUse is swallowed. */
    method CleanupL2(id: Option<string>)
      requires ownedL3 <= l3s.Keys
      modifies this
      ensures View() == CleanL2(old(View()), id)
    {
      if id.Some? && id.value in ownedL2 {
        var ok := DeleteL2(id.value);
      }
    }

    /** update_l2_policy of the L3 policy; a refusal in the postcommit hook comes after the update and its cleanup. */
    method UpdateL2(id: string, given: Option<string>, isAdmin: bool, freshL3: string)
      returns (stored: bool, refused: bool, l3: string)
      requires ownedL3 <= l3s.Keys && freshL3 !in l3s
      modifies this
      ensures stored <==> id in old(l2s) &&
                          (given.Some? ==>
                              MayUseL3(old(View()), old(l2s)[id].tenant, old(l2s)[id].shared, given.value, isAdmin))
      ensures !stored ==> View() == old(View()) && !refused
      ensures stored ==>
                var s := WithMovedL2(old(View()), id, given);
                if given.None? && old(l2s)[id].l3.Some? then
                  && Settles(s, s.l2s[id].tenant, freshL3, l3) && (refused <==> Refused(s, s.l2s[id].shared, l3))
                  && View() == if refused then s else WithImplicitL3(s, id, l3)
                else View() == s && !refused
    {
      l3, refused := freshL3, false;
      if id !in l2s {
        return false, refused, l3;
      }
      if given.Some? && (given.value !in l3s ||
                         !MayUse(l2s[id].tenant, l2s[id].shared, l3s[given.value].tenant, l3s[given.value].shared,
                             isAdmin)) {
        return false, refused, l3;
      }
      var was := l2s[id].l3;
      l2s := l2s[id := l2s[id].(l3 := given)];
      if given != was {
        CleanupL3(was);
        if given.None? {
          var used;
          used, l3 := UseImplicitL3(id, freshL3);
          refused := !used;
        }
      }
      return true, refused, l3;
    }

    // ----- Groups -----

    /** _use_implicit_l2_policy: a new L2 policy, on the proxied group's L3 policy if there is one. */
    method UseImplicitL2(id: string, proxied: Option<string>, isAdmin: bool, freshL2: string, freshL3: string)
      returns (ok: bool, l3: string)
      requires id in groups && ProxyLive(View(), proxied)
      requires freshL2 !in l2s && freshL2 !in ownedL2 && freshL3 !in l3s && GroupsOf(View(), freshL2) == {}
      requires ownedL3 <= l3s.Keys
      modifies this
      ensures var given := ProxiedL3(old(View()), proxied);
              && SettlesL2(old(View()), old(groups)[id].tenant, given, freshL3, l3)
              && (ok <==> L2Allowed(old(View()), old(groups)[id].tenant, old(groups)[id].shared, given, l3, isAdmin))
      ensures View() == if ok
              then WithImplicitGroup(old(View()), id, old(groups)[id].tenant, old(groups)[id].shared, freshL2, l3)
                        else old(View())
    {
      var group := groups[id];
      var attrsL3: Option<string> := None;
      if proxied.Some? {
        attrsL3 := l2s[groups[proxied.value].l2.value].l3;
      }
      ok, l3 := CreateL2(freshL2, group.tenant, group.shared, attrsL3, isAdmin, freshL3);
      if ok {
        ownedL2 := ownedL2 + {freshL2};
        groups := groups[id := Group(group.tenant, group.shared, Some(freshL2))];
      }
    }

    /** create_policy_target_group; a refusal in the postcommit hook is compensated by a delete. */
    method CreateGroup(id: string, group: Group, proxied: Option<string>, isAdmin: bool, freshL2: string,
        freshL3: string)
      returns (ok: bool, l3: string)
      requires Tidy(View()) && id !in groups && freshL2 !in l2s && freshL3 !in l3s
      requires proxied.Some? ==> proxied.value in groups
      modifies this
      ensures group.l2.Some? ==>
                && (ok <==> MayUseL2(old(View()), group.tenant, group.shared, group.l2.value, isAdmin))
                && View() == if ok then old(View()).(groups := old(groups)[id := group]) else old(View())
      ensures group.l2.None? ==>
                var given := ProxiedL3(old(View()), proxied);
                && SettlesL2(old(View()), group.tenant, given, freshL3, l3)
                && (ok <==> L2Allowed(old(View()), group.tenant, group.shared, given, l3, isAdmin))
                && View() == if ok then WithImplicitGroup(old(View()), id, group.tenant, group.shared, freshL2, l3)
                             else old(View())
    {
      l3 := freshL3;
      if group.l2.Some? {
        var l2 := group.l2.value;
        if l2 !in l2s || !MayUse(group.tenant, group.shared, l2s[l2].tenant, l2s[l2].shared, isAdmin) {
          return false, l3;
        }
        groups := groups[id := group];
        return true, l3;
      }
      ghost var before := View();
      groups := groups[id := group];
      ok, l3 := CreateGroupPostcommit(before, id, group, proxied, isAdmin, freshL2, freshL3);
    }

    /** create_policy_target_group_postcommit for a group without an L2 policy, and the delete if it is refused;
        `before` is the state the group was added to. */
    method CreateGroupPostcommit(ghost before: State, id: string, group: Group, proxied: Option<string>, isAdmin: bool,
        freshL2: string, freshL3: string)
      returns (ok: bool, l3: string)
      requires id !in before.groups && group.l2.None? && View() == before.(groups := before.groups[id := group])
      requires ProxyLive(before, proxied) && GroupsOf(before, freshL2) == {}
      requires freshL2 !in l2s && freshL2 !in ownedL2 && freshL3 !in l3s && ownedL3 <= l3s.Keys
      modifies this
      ensures var given := ProxiedL3(before, proxied);
              && SettlesL2(before, group.tenant, given, freshL3, l3)
              && (ok <==> L2Allowed(before, group.tenant, group.shared, given, l3, isAdmin))
      ensures View() == if ok then WithImplicitGroup(before, id, group.tenant, group.shared, freshL2, l3) else before
    {
      assert GroupsOf(View(), freshL2) == {};
      ok, l3 := UseImplicitL2(id, proxied, isAdmin, freshL2, freshL3);
      if !ok {
        CreateGroupUndone(before, id, group);
        var deleted := DeleteGroup(id);
      } else {
        assert groups == before.groups[id := Group(group.tenant, group.shared, Some(freshL2))];
      }
    }

    /** update_policy_target_group_postcommit; `was` is the L2 policy the group had before. */
    method UpdateGroupPostcommit(id: string, was: Option<string>, proxied: Option<string>, isAdmin: bool,
        freshL2: string,
        freshL3: string)
      returns (ok: bool, l3: string)
      requires id in groups && ProxyLive(View(), proxied)
      requires freshL2 !in l2s && freshL2 !in ownedL2 && freshL3 !in l3s && GroupsOf(View(), freshL2) == {}
      requires ownedL3 <= l3s.Keys
      modifies this
      ensures was == old(groups)[id].l2 ==> ok && View() == old(View())
      ensures was != old(groups)[id].l2 && old(groups)[id].l2.Some? ==> ok && View() == CleanL2(old(View()), was)
      ensures was != old(groups)[id].l2 && old(groups)[id].l2.None? ==>
                var s, group := CleanL2(old(View()), was), old(groups)[id];
                && ProxyLive(s, proxied) && SettlesL2(s, group.tenant, ProxiedL3(s, proxied), freshL3, l3)
                && (ok <==> L2Allowed(s, group.tenant, group.shared, ProxiedL3(s, proxied), l3, isAdmin))
                && View() == if ok then WithImplicitGroup(s, id, group.tenant, group.shared, freshL2, l3) else s
    {
      ok, l3 := true, freshL3;
      if groups[id].l2 != was {
        CleanL2KeepsProxy(View(), was, proxied);
        CleanupL2(was);
        assert GroupsOf(View(), freshL2) == {};
        if groups[id].l2.None? {
          ok, l3 := UseImplicitL2(id, proxied, isAdmin, freshL2, freshL3);
        }
      }
    }

    /** update_policy_target_group of the L2 policy: a group that has one cannot be moved to another. */
    method UpdateGroup(id: string, given: Option<string>, proxied: Option<string>, isAdmin: bool, freshL2: string,
        freshL3: string)
      returns (ok: bool)
      requires freshL2 !in l2s && freshL2 !in ownedL2 && freshL3 !in l3s && GroupsOf(View(), freshL2) == {}
      requires ownedL3 <= l3s.Keys && ProxyLive(View(), proxied) && proxied != Some(id)
      modifies this
      ensures ok <==> && id in old(groups) && old(groups)[id].l2 in {None, given}
                      && (given.Some? ==>
                          MayUseL2(old(View()), old(groups)[id].tenant, old(groups)[id].shared, given.value, isAdmin))
      ensures View() == if ok then WithGroupL2(old(View()), id, given) else old(View())
      ensures old(Tidy(View())) ==> View() == old(View()) && (ok ==> given == old(groups)[id].l2)
    {
      if id !in groups {
        return false;
      }
      if given.Some? && (given.value !in l2s ||
                         !MayUse(groups[id].tenant, groups[id].shared, l2s[given.value].tenant,
                             l2s[given.value].shared, isAdmin)) {
        return false;
      }
      var original := groups;
      groups := groups[id := groups[id].(l2 := given)];
      if original[id].l2.Some? && original[id].l2 != given {
        groups := original;
        return false;
      }
      assert GroupsOf(View(), freshL2) == {};
      var l3;
      ok, l3 := UpdateGroupPostcommit(id, original[id].l2, proxied, isAdmin, freshL2, freshL3);
      assert original[id].l2 == given ==> groups == original;
    }

    /** delete_policy_target_group, with the postcommit cleanup */
    method DeleteGroup(id: string) returns (ok: bool)
      requires ownedL3 <= l3s.Keys
      modifies this
      ensures ok <==> id in old(groups)
      ensures View() == if ok then WithoutGroup(old(View()), id) else old(View())
    {
      if id !in groups {
        return false;
      }
      var l2 := groups[id].l2;
      groups := groups - {id};
      CleanupL2(l2);
      return true;
    }
  }
}
