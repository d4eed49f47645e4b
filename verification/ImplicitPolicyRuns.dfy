/** Runs of the plugin with the implicit policy driver: ownership is reference counting. */
module ImplicitPolicyRuns {
  import opened Collections
  import opened ImplicitPolicy

  /** A request; the fresh identifiers are the ones policies created on the way would get. */
  datatype Call =
    | CreateL3(id: string, tenant: string, shared: bool, hasDefaultName: bool)
    | UpdateL3(id: string, hasDefaultName: bool)
    | DeleteL3(id: string)
    | CreateL2(id: string, tenant: string, shared: bool, given: Option<string>, isAdmin: bool, freshL3: string)
    | UpdateL2(id: string, given: Option<string>, isAdmin: bool, freshL3: string)
    | DeleteL2(id: string)
    | CreateGroup(id: string, group: Group, proxied: Option<string>, isAdmin: bool, freshL2: string, freshL3: string)
    | UpdateGroup(id: string, given: Option<string>, proxied: Option<string>, isAdmin: bool, freshL2: string,
        freshL3: string)
    | DeleteGroup(id: string)

  /** New identifiers are unused, and a proxied group exists. */
  predicate Proper(s: State, c: Call) {
    match c
    case CreateL3(id, _, _, _) => id !in s.l3s
    case CreateL2(id, _, _, _, _, freshL3) => id !in s.l2s && freshL3 !in s.l3s
    case UpdateL2(_, _, _, freshL3) => freshL3 !in s.l3s
    case CreateGroup(id, _, proxied, _, freshL2, freshL3) =>
      id !in s.groups && freshL2 !in s.l2s && freshL3 !in s.l3s && (proxied.Some? ==> proxied.value in s.groups)
    case UpdateGroup(id, _, proxied, _, freshL2, freshL3) =>
      freshL2 !in s.l2s && freshL3 !in s.l3s && (proxied.Some? ==> proxied.value in s.groups && proxied.value != id)
    case _ => true
  }

  /** The call is not rejected outright; a postcommit hook may still refuse an implicit policy. */
  predicate Accepted(s: State, c: Call) {
    match c
    case CreateL3(_, tenant, _, hasDefaultName) => !hasDefaultName || Defaults(s, tenant) == {}
    case UpdateL3(id, _) => id in s.l3s
    case DeleteL3(id) => id in s.l3s && L2sOf(s, id) == {}
    case CreateL2(_, tenant, shared, given, isAdmin, _) =>
      given.Some? ==> MayUseL3(s, tenant, shared, given.value, isAdmin)
    case UpdateL2(id, given, isAdmin, _) =>
      id in s.l2s && (given.Some? ==> MayUseL3(s, s.l2s[id].tenant, s.l2s[id].shared, given.value, isAdmin))
    case DeleteL2(id) => id in s.l2s && GroupsOf(s, id) == {}
    case CreateGroup(_, group, _, isAdmin, _, _) =>
      group.l2.Some? ==> MayUseL2(s, group.tenant, group.shared, group.l2.value, isAdmin)
    case UpdateGroup(id, given, _, isAdmin, _, _) =>
      && id in s.groups && s.groups[id].l2 in {None, given}
      && (given.Some? ==> MayUseL2(s, s.groups[id].tenant, s.groups[id].shared, given.value, isAdmin))
    case DeleteGroup(id) => id in s.groups
  }

  ghost predicate Done(s: State, c: Call, t: State)
    requires Accepted(s, c)
  {
    match c
    case CreateL3(id, tenant, shared, hasDefaultName) => t == s.(l3s := s.l3s[id := L3(tenant, shared, hasDefaultName)])
    case UpdateL3(id, hasDefaultName) => t == WithName(s, id, hasDefaultName)
    case DeleteL3(id) => t == WithoutL3(s, id)
    case CreateL2(id, tenant, shared, given, isAdmin, freshL3) =>
      exists l3 ::
        && SettlesL2(s, tenant, given, freshL3, l3)
        && t == if L2Allowed(s, tenant, shared, given, l3, isAdmin) then WithNewL2(s, id, tenant, shared, l3) else s
    case UpdateL2(id, given, _, freshL3) =>
      var moved := WithMovedL2(s, id, given);
      if given.None? && s.l2s[id].l3.Some? then exists l3 :: Resettled(s, id, freshL3, l3, t) else t == moved
    case DeleteL2(id) => t == WithoutL2(s, id)
    case CreateGroup(id, group, proxied, isAdmin, freshL2, freshL3) =>
      if group.l2.Some? then t == s.(groups := s.groups[id := group])
      else ProxyLive(s, proxied) && exists l3 :: GroupSettled(s, id, group, proxied, isAdmin, freshL2, freshL3, l3, t)
    case UpdateGroup(id, given, _, _, _, _) => t == WithGroupL2(s, id, given)
    case DeleteGroup(id) => t == WithoutGroup(s, id)
  }

  /** After an update to no L3 policy, the driver has settled on `l3`, or was refused it. */
  ghost predicate Resettled(s: State, l2: string, freshL3: string, l3: string, t: State)
    requires l2 in s.l2s
  {
    var moved := WithMovedL2(s, l2, None);
    && Settles(moved, s.l2s[l2].tenant, freshL3, l3)
    && l2 in moved.l2s
    && t == if Refused(moved, s.l2s[l2].shared, l3) then moved else WithImplicitL3(moved, l2, l3)
  }

  /** A group without an L2 policy has got one on `l3`, or was refused it and is not created. */
  ghost predicate GroupSettled(s: State, g: string, group: Group, proxied: Option<string>, isAdmin: bool,
      freshL2: string,
      freshL3: string, l3: string, t: State)
    requires ProxyLive(s, proxied)
  {
    var given := ProxiedL3(s, proxied);
    && SettlesL2(s, group.tenant, given, freshL3, l3)
    && t == if L2Allowed(s, group.tenant, group.shared, given, l3, isAdmin)
            then WithImplicitGroup(s, g, group.tenant, group.shared, freshL2, l3) else s
  }

  ghost predicate Next(s: State, c: Call, t: State) {
    Proper(s, c) && if Accepted(s, c) then Done(s, c, t) else t == s
  }

  /** The plugin's methods take exactly these steps. */
  method Perform(p: ImplicitPolicyPlugin, c: Call)
    requires Tidy(p.View()) && Proper(p.View(), c)
    modifies p
    ensures Next(old(p.View()), c, p.View())
  {
    FreshIdsUnused(p.View(), c);
    match c {
      case CreateL3(id, tenant, shared, hasDefaultName) => var ok := p.CreateL3(id, tenant, shared, hasDefaultName);
      case UpdateL3(id, hasDefaultName) => var ok := p.UpdateL3(id, hasDefaultName);
      case DeleteL3(id) => var ok := p.DeleteL3(id, false);
      case CreateL2(id, tenant, shared, given, isAdmin, freshL3) =>
        var ok, l3 := p.CreateL2(id, tenant, shared, given, isAdmin, freshL3);
      case UpdateL2(id, given, isAdmin, freshL3) => PerformUpdateL2(p, c);
      case DeleteL2(id) => var ok := p.DeleteL2(id);
      case CreateGroup(_, _, _, _, _, _) => PerformCreateGroup(p, c);
      case UpdateGroup(id, given, proxied, isAdmin, freshL2, freshL3) =>
        var ok := p.UpdateGroup(id, given, proxied, isAdmin, freshL2, freshL3);
      case DeleteGroup(id) => var ok := p.DeleteGroup(id);
    }
  }

  method PerformUpdateL2(p: ImplicitPolicyPlugin, c: Call)
    requires Tidy(p.View()) && Proper(p.View(), c) && c.UpdateL2?
    modifies p
    ensures Next(old(p.View()), c, p.View())
  {
    ghost var s := p.View();
    var stored, refused, l3 := p.UpdateL2(c.id, c.given, c.isAdmin, c.freshL3);
    if stored && c.given.None? && s.l2s[c.id].l3.Some? {
      assert Resettled(s, c.id, c.freshL3, l3, p.View());
    }
  }

  method PerformCreateGroup(p: ImplicitPolicyPlugin, c: Call)
    requires Tidy(p.View()) && Proper(p.View(), c) && c.CreateGroup?
    modifies p
    ensures Next(old(p.View()), c, p.View())
  {
    ghost var s := p.View();
    var ok, l3 := p.CreateGroup(c.id, c.group, c.proxied, c.isAdmin, c.freshL2, c.freshL3);
    if c.group.l2.None? {
      assert GroupSettled(s, c.id, c.group, c.proxied, c.isAdmin, c.freshL2, c.freshL3, l3, p.View());
    }
  }

  /** An identifier without an L2 policy has no group and no owner. */
  lemma FreshIdsUnused(s: State, c: Call)
    requires Tidy(s)
    ensures forall l :: l !in s.l2s ==> GroupsOf(s, l) == {} && l !in s.ownedL2
  {
  }

  // ----- Every call keeps the tables tidy -----

  /** Tidy, except that one L3 policy may have lost its last user. */
  ghost predicate TidyBut(s: State, l3: Option<string>) {
    && (forall g :: g in s.groups ==> s.groups[g].l2.Some? && s.groups[g].l2.value in s.l2s)
    && (forall l :: l in s.l2s && s.l2s[l].l3.Some? ==> s.l2s[l].l3.value in s.l3s)
    && s.ownedL2 <= s.l2s.Keys && s.ownedL3 <= s.l3s.Keys
    && (forall l :: l in s.ownedL2 ==> GroupsOf(s, l) != {})
    && (forall l :: l in s.ownedL3 && l3 != Some(l) ==> L2sOf(s, l) != {})
  }

  /** The same groups on the same L2 policies. */
  lemma KeepsGroups(s: State, t: State)
    requires s.groups == t.groups
    ensures forall l :: GroupsOf(s, l) == GroupsOf(t, l)
  {
  }

  lemma CleanL3Tidy(s: State, l3: Option<string>)
    requires TidyBut(s, l3)
    ensures Tidy(CleanL3(s, l3))
  {
    var t := CleanL3(s, l3);
    KeepsGroups(s, t);
    forall l | l in t.ownedL3 ensures L2sOf(t, l) != {} {
      assert L2sOf(t, l) == L2sOf(s, l);
    }
    forall l | l in t.l2s && t.l2s[l].l3.Some? ensures t.l2s[l].l3.value in t.l3s {
      assert l in L2sOf(s, s.l2s[l].l3.value);
    }
  }

  /** Changing the link of one L2 policy, or removing it, may free only its L3 policy. */
  lemma OthersStillUsed(s: State, t: State, l2: string, l3: string)
    requires l2 in s.l2s && s.l2s[l2].l3 != Some(l3) && L2sOf(s, l3) != {}
    requires forall l :: l in s.l2s && l != l2 ==> l in t.l2s && t.l2s[l] == s.l2s[l]
    ensures L2sOf(t, l3) != {}
  {
    var l :| l in L2sOf(s, l3);
    assert l in L2sOf(t, l3);
  }

  lemma WithoutL2Tidy(s: State, l2: string)
    requires l2 in s.l2s && GroupsOf(s, l2) == {}
    requires Tidy(s.(ownedL2 := s.ownedL2 - {l2}))
    ensures Tidy(WithoutL2(s, l2))
  {
    var u := s.(ownedL2 := s.ownedL2 - {l2});
    var t := s.(l2s := s.l2s - {l2}, ownedL2 := s.ownedL2 - {l2});
    KeepsGroups(u, t);
    forall l | l in t.ownedL3 && s.l2s[l2].l3 != Some(l) ensures L2sOf(t, l) != {} {
      OthersStillUsed(u, t, l2, l);
    }
    forall g | g in t.groups ensures t.groups[g].l2.Some? && t.groups[g].l2.value in t.l2s {
      assert s.groups[g].l2 == Some(l2) ==> g in GroupsOf(s, l2);
    }
    CleanL3Tidy(t, s.l2s[l2].l3);
  }

  lemma WithoutGroupTidy(s: State, g: string)
    requires Tidy(s) && g in s.groups
    ensures Tidy(WithoutGroup(s, g))
  {
    var t := s.(groups := s.groups - {g});
    var l2 := s.groups[g].l2.value;
    var u := t.(ownedL2 := t.ownedL2 - {l2});
    KeepsGroups(t, u);
    forall l | l in t.ownedL2 && l != l2 ensures GroupsOf(t, l) != {} {
      var h :| h in GroupsOf(s, l);
      assert h in GroupsOf(t, l);
    }
    forall l | l in t.ownedL3 ensures L2sOf(t, l) != {} && L2sOf(u, l) != {} {
      assert L2sOf(t, l) == L2sOf(s, l) == L2sOf(u, l);
    }
    if l2 in t.ownedL2 && GroupsOf(t, l2) == {} {
      WithoutL2Tidy(t, l2);
    }
  }

  /** Pointing an L2 policy that has no L3 policy at one, old or new. */
  lemma WithImplicitL3Tidy(s: State, l2: string, l3: string)
    requires l2 in s.l2s && s.l2s[l2].l3.None? && Tidy(s)
    ensures Tidy(WithImplicitL3(s, l2, l3))
  {
    var t := WithImplicitL3(s, l2, l3);
    KeepsGroups(s, t);
    forall l | l in t.ownedL3 ensures L2sOf(t, l) != {} {
      if l == l3 {
        assert l2 in L2sOf(t, l);
      } else {
        OthersStillUsed(s, t, l2, l);
      }
    }
  }

  lemma WithNewL2Tidy(s: State, l2: string, tenant: string, shared: bool, l3: string)
    requires Tidy(s) && l2 !in s.l2s
    ensures Tidy(WithNewL2(s, l2, tenant, shared, l3))
  {
    var t := s.(l2s := s.l2s[l2 := L2(tenant, shared, None)]);
    KeepsGroups(s, t);
    forall l | l in t.ownedL3 ensures L2sOf(t, l) != {} {
      var m :| m in L2sOf(s, l);
      assert m in L2sOf(t, l);
    }
    WithImplicitL3Tidy(t, l2, l3);
  }

  /** A new group on an L2 policy that exists. */
  lemma WithNewGroupTidy(s: State, g: string, group: Group, owned: bool)
    requires Tidy(s) && g !in s.groups && group.l2.Some? && group.l2.value in s.l2s
    ensures Tidy(s.(groups := s.groups[g := group], ownedL2 := s.ownedL2 + if owned then {group.l2.value} else {}))
  {
    var t := s.(groups := s.groups[g := group], ownedL2 := s.ownedL2 + if owned then {group.l2.value} else {});
    forall l | l in t.ownedL2 ensures GroupsOf(t, l) != {} {
      if l == group.l2.value {
        assert g in GroupsOf(t, l);
      } else {
        var h :| h in GroupsOf(s, l);
        assert h in GroupsOf(t, l);
      }
    }
    forall l | l in t.ownedL3 ensures L2sOf(t, l) != {} {
      assert L2sOf(t, l) == L2sOf(s, l);
    }
  }

  lemma WithImplicitGroupTidy(s: State, g: string, tenant: string, shared: bool, l2: string, l3: string)
    requires Tidy(s) && g !in s.groups && l2 !in s.l2s
    ensures Tidy(WithImplicitGroup(s, g, tenant, shared, l2, l3))
  {
    WithNewL2Tidy(s, l2, tenant, shared, l3);
    WithNewGroupTidy(WithNewL2(s, l2, tenant, shared, l3), g, Group(tenant, shared, Some(l2)), true);
  }

  lemma WithMovedL2Tidy(s: State, l2: string, given: Option<string>)
    requires Tidy(s) && l2 in s.l2s && (given.None? || given.value in s.l3s)
    ensures Tidy(WithMovedL2(s, l2, given))
    ensures l2 in WithMovedL2(s, l2, given).l2s && WithMovedL2(s, l2, given).l2s[l2] == s.l2s[l2].(l3 := given)
  {
    var t := s.(l2s := s.l2s[l2 := s.l2s[l2].(l3 := given)]);
    if given == s.l2s[l2].l3 {
      assert t == s;
    } else {
      KeepsGroups(s, t);
      forall l | l in t.ownedL3 && s.l2s[l2].l3 != Some(l) ensures L2sOf(t, l) != {} {
        OthersStillUsed(s, t, l2, l);
      }
      CleanL3Tidy(t, s.l2s[l2].l3);
    }
  }

  lemma L3CallsTidy(s: State, c: Call, t: State)
    requires Tidy(s) && (c.CreateL3? || c.UpdateL3? || c.DeleteL3?) && Next(s, c, t)
    ensures Tidy(t)
  {
    KeepsGroups(s, t);
    forall l | l in t.ownedL3 ensures L2sOf(t, l) != {} {
      assert L2sOf(t, l) == L2sOf(s, l);
    }
    forall l | l in t.l2s && t.l2s[l].l3.Some? ensures t.l2s[l].l3.value in t.l3s {
      assert l in L2sOf(s, s.l2s[l].l3.value);
    }
  }

  lemma UpdateL2Tidy(s: State, c: Call, t: State)
    requires Tidy(s) && c.UpdateL2? && Next(s, c, t) && Accepted(s, c)
    ensures Tidy(t)
  {
    WithMovedL2Tidy(s, c.id, c.given);
    var moved := WithMovedL2(s, c.id, c.given);
    if c.given.None? && s.l2s[c.id].l3.Some? {
      var l3 :| Resettled(s, c.id, c.freshL3, l3, t);
      WithImplicitL3Tidy(moved, c.id, l3);
    }
  }

  lemma CreateL2Tidy(s: State, c: Call, t: State)
    requires Tidy(s) && c.CreateL2? && Next(s, c, t) && Accepted(s, c)
    ensures Tidy(t)
  {
    if t != s {
      var l3 :| t == WithNewL2(s, c.id, c.tenant, c.shared, l3);
      WithNewL2Tidy(s, c.id, c.tenant, c.shared, l3);
    }
  }

  lemma CreateGroupTidy(s: State, c: Call, t: State)
    requires Tidy(s) && c.CreateGroup? && Next(s, c, t) && Accepted(s, c)
    ensures Tidy(t)
  {
    if c.group.l2.Some? {
      WithNewGroupTidy(s, c.id, c.group, false);
      assert s.ownedL2 + {} == s.ownedL2;
    } else {
      var l3 :| GroupSettled(s, c.id, c.group, c.proxied, c.isAdmin, c.freshL2, c.freshL3, l3, t);
      WithImplicitGroupTidy(s, c.id, c.group.tenant, c.group.shared, c.freshL2, l3);
    }
  }

  /** Between calls every group has its L2 policy, so an accepted group update changes nothing. */
  lemma UpdateGroupIsNoOp(s: State, c: Call, t: State)
    requires Tidy(s) && c.UpdateGroup? && Next(s, c, t)
    ensures t == s && (Accepted(s, c) ==> c.given == s.groups[c.id].l2)
  {
    if Accepted(s, c) {
      assert t.groups == s.groups;
    }
  }

  lemma StepKeepsTidy(s: State, c: Call, t: State)
    requires Tidy(s) && Next(s, c, t)
    ensures Tidy(t)
  {
    if Accepted(s, c) {
      match c {
        case CreateL3(_, _, _, _) => L3CallsTidy(s, c, t);
        case UpdateL3(_, _) => L3CallsTidy(s, c, t);
        case DeleteL3(_) => L3CallsTidy(s, c, t);
        case CreateL2(_, _, _, _, _, _) => CreateL2Tidy(s, c, t);
        case UpdateL2(_, _, _, _) => UpdateL2Tidy(s, c, t);
        case DeleteL2(id) =>
          assert s.(ownedL2 := s.ownedL2 - {id}) == s;
          WithoutL2Tidy(s, id);
        case CreateGroup(_, _, _, _, _, _) => CreateGroupTidy(s, c, t);
        case UpdateGroup(_, _, _, _, _, _) => UpdateGroupIsNoOp(s, c, t);
        case DeleteGroup(id) => WithoutGroupTidy(s, id);
      }
    }
  }

  // ----- When an L2 policy is left without an L3 policy -----

  /** A shared L2 policy gives up its L3 policy, and its tenant then has a default one that is not shared. */
  predicate LosesL3(s: State, c: Call) {
    c.UpdateL2? && c.id in s.l2s && c.given.None? && s.l2s[c.id].l3.Some? && s.l2s[c.id].shared
    && var moved := WithMovedL2(s, c.id, None);
       exists l3 :: l3 in Defaults(moved, s.l2s[c.id].tenant) && !moved.l3s[l3].shared
  }

  lemma CleanL3KeepsL2s(s: State, l3: Option<string>)
    ensures CleanL3(s, l3).l2s == s.l2s
  {
  }

  lemma OtherCallsLinked(s: State, c: Call, t: State)
    requires Quiet(s) && Next(s, c, t) && Accepted(s, c) && !c.UpdateL2?
    ensures AllLinked(t)
  {
    if c.DeleteGroup? {
      assert t.l2s.Keys <= s.l2s.Keys && forall l :: l in t.l2s ==> t.l2s[l] == s.l2s[l];
    }
  }

  lemma UpdateL2Linked(s: State, c: Call, t: State)
    requires Quiet(s) && Next(s, c, t) && Accepted(s, c) && c.UpdateL2? && !LosesL3(s, c)
    ensures AllLinked(t)
  {
    WithMovedL2Tidy(s, c.id, c.given);
    var moved := WithMovedL2(s, c.id, c.given);
    CleanL3KeepsL2s(s.(l2s := s.l2s[c.id := s.l2s[c.id].(l3 := c.given)]), s.l2s[c.id].l3);
    if c.given.None? {
      var l3 :| Resettled(s, c.id, c.freshL3, l3, t);
    }
  }

  lemma StepKeepsQuiet(s: State, c: Call, t: State)
    requires Quiet(s) && Next(s, c, t) && !LosesL3(s, c)
    ensures Quiet(t)
  {
    StepKeepsTidy(s, c, t);
    if Accepted(s, c) {
      if c.UpdateL2? {
        UpdateL2Linked(s, c, t);
      } else {
        OtherCallsLinked(s, c, t);
      }
    }
  }

  /** The call that is refused a default policy that is not shared. */
  lemma RefusedStep(s: State, c: Call) returns (t: State)
    requires Quiet(s) && Proper(s, c) && LosesL3(s, c)
    ensures Next(s, c, t) && !Quiet(t)
  {
    t := WithMovedL2(s, c.id, None);
    WithMovedL2Tidy(s, c.id, None);
    var l3 :| l3 in Defaults(t, s.l2s[c.id].tenant) && !t.l3s[l3].shared;
    assert Resettled(s, c.id, c.freshL3, l3, t);
  }

  /** Exactly such an update can leave an L2 policy without an L3 policy. */
  lemma QuietExactly(s: State, c: Call)
    requires Quiet(s) && Proper(s, c)
    ensures (forall t :: Next(s, c, t) ==> Quiet(t)) <==> !LosesL3(s, c)
  {
    if LosesL3(s, c) {
      var t := RefusedStep(s, c);
    } else {
      forall t | Next(s, c, t) ensures Quiet(t) {
        StepKeepsQuiet(s, c, t);
      }
    }
  }

  /** A shared L2 policy on a shared L3 policy, in a tenant whose default L3 policy is not shared. */
  function SharedOnShared(l2: string, a: string, d: string, tenant: string): State {
    State(map[], map[l2 := L2(tenant, true, Some(a))], map[a := L3(tenant, true, false), d := L3(tenant, false, true)],
          {}, {})
  }

  lemma SharedL2LosesL3(l2: string, a: string, d: string, tenant: string, isAdmin: bool, freshL3: string)
    requires a != d && freshL3 != a && freshL3 != d
    ensures var s, c := SharedOnShared(l2, a, d, tenant), UpdateL2(l2, None, isAdmin, freshL3);
            Quiet(s) && OneDefault(s) && Proper(s, c) && Accepted(s, c) && LosesL3(s, c)
  {
    var s := SharedOnShared(l2, a, d, tenant);
    var moved := WithMovedL2(s, l2, None);
    assert moved.l3s == s.l3s;
    assert d in Defaults(moved, tenant) && !moved.l3s[d].shared;
  }

  // ----- Cleanup stays away from policies the driver does not own -----

  /** Why a policy may have gone, and where ownership comes from. */
  ghost predicate OnlyOwnedGo(s: State, c: Call, t: State) {
    && (forall l :: l in s.l2s && l !in t.l2s ==>
          c == DeleteL2(l) || (c.DeleteGroup? && l in s.ownedL2 && GroupsOf(s, l) == {c.id}))
    && (forall l :: l in s.l3s && l !in t.l3s ==> c == DeleteL3(l) || (l in s.ownedL3 && L2sOf(t, l) == {}))
    && (forall l :: l in t.ownedL2 ==> l in s.ownedL2 || l !in s.l2s)
    && (forall l :: l in t.ownedL3 ==> l in s.ownedL3 || l !in s.l3s)
  }

  lemma CleanL3OnlyOwned(s: State, l3: Option<string>, l: string)
    ensures l in s.l3s && l !in CleanL3(s, l3).l3s ==> l in s.ownedL3 && L2sOf(CleanL3(s, l3), l) == {}
    ensures CleanL3(s, l3).l2s == s.l2s && CleanL3(s, l3).ownedL2 == s.ownedL2 && CleanL3(s, l3).ownedL3 <= s.ownedL3
  {
    if l in s.l3s && l !in CleanL3(s, l3).l3s {
      assert L2sOf(CleanL3(s, l3), l) == L2sOf(s, l);
    }
  }

  lemma StepOnlyOwnedGo(s: State, c: Call, t: State)
    requires Tidy(s) && Next(s, c, t)
    ensures OnlyOwnedGo(s, c, t)
  {
    if Accepted(s, c) {
      match c {
        case UpdateL2(_, _, _, _) => UpdateL2OnlyOwned(s, c, t);
        case DeleteL2(id) => DeleteL2OnlyOwned(s, id, t);
        case DeleteGroup(id) => DeleteGroupOnlyOwned(s, id, t);
        case UpdateGroup(_, _, _, _, _, _) => UpdateGroupIsNoOp(s, c, t);
        case CreateL2(_, _, _, _, _, _) => CreatesOnlyOwned(s, c, t);
        case CreateGroup(_, _, _, _, _, _) => CreatesOnlyOwned(s, c, t);
        case _ => L3CallsOnlyOwned(s, c, t);
      }
    }
  }

  lemma CreatesOnlyOwned(s: State, c: Call, t: State)
    requires Tidy(s) && (c.CreateL2? || c.CreateGroup?) && Accepted(s, c) && Next(s, c, t)
    ensures OnlyOwnedGo(s, c, t)
  {
    if c.CreateL2? && t != s {
      var l3 :| t == WithNewL2(s, c.id, c.tenant, c.shared, l3);
      NewL2Keeps(s, c.id, c.tenant, c.shared, l3);
    } else if c.CreateGroup? && c.group.l2.None? && t != s {
      var l3 :| GroupSettled(s, c.id, c.group, c.proxied, c.isAdmin, c.freshL2, c.freshL3, l3, t);
      NewL2Keeps(s, c.freshL2, c.group.tenant, c.group.shared, l3);
    }
  }

  /** No policy goes, and only new ones become owned. */
  lemma NewL2Keeps(s: State, l2: string, tenant: string, shared: bool, l3: string)
    ensures var t := WithNewL2(s, l2, tenant, shared, l3);
            && s.l2s.Keys <= t.l2s.Keys && s.l3s.Keys <= t.l3s.Keys && t.ownedL2 == s.ownedL2
            && (forall l :: l in t.ownedL3 ==> l in s.ownedL3 || l !in s.l3s)
  {
  }

  lemma L3CallsOnlyOwned(s: State, c: Call, t: State)
    requires Tidy(s) && (c.CreateL3? || c.UpdateL3? || c.DeleteL3?) && Accepted(s, c) && Next(s, c, t)
    ensures OnlyOwnedGo(s, c, t)
  {
  }

  lemma DeleteL2OnlyOwned(s: State, id: string, t: State)
    requires Tidy(s) && id in s.l2s && t == WithoutL2(s, id)
    ensures OnlyOwnedGo(s, DeleteL2(id), t)
  {
    forall l ensures l in s.l3s && l !in t.l3s ==> l in s.ownedL3 && L2sOf(t, l) == {} {
      CleanL3OnlyOwned(s.(l2s := s.l2s - {id}, ownedL2 := s.ownedL2 - {id}), s.l2s[id].l3, l);
    }
  }

  lemma UpdateL2OnlyOwned(s: State, c: Call, t: State)
    requires Tidy(s) && c.UpdateL2? && Accepted(s, c) && Next(s, c, t)
    ensures OnlyOwnedGo(s, c, t)
  {
    forall l | l in s.l3s && l !in t.l3s ensures l in s.ownedL3 && L2sOf(t, l) == {} {
      UpdateL2Removes(s, c, t, l);
    }
    UpdateL2Keeps(s, c, t);
  }

  /** Every L2 policy stays, and only new L3 policies become owned. */
  lemma UpdateL2Keeps(s: State, c: Call, t: State)
    requires Tidy(s) && c.UpdateL2? && Accepted(s, c) && Next(s, c, t)
    ensures t.l2s.Keys == s.l2s.Keys && t.ownedL2 == s.ownedL2
    ensures forall l :: l in t.ownedL3 ==> l in s.ownedL3 || l !in s.l3s
  {
    var moved := WithMovedL2(s, c.id, c.given);
    WithMovedL2Keeps(s, c.id, c.given);
    if c.given.None? && s.l2s[c.id].l3.Some? {
      var l3 :| Resettled(s, c.id, c.freshL3, l3, t);
      WithImplicitL3Keeps(moved, c.id, l3);
    }
  }

  lemma WithMovedL2Keeps(s: State, l2: string, given: Option<string>)
    requires l2 in s.l2s
    ensures var t := WithMovedL2(s, l2, given);
            t.l2s.Keys == s.l2s.Keys && t.ownedL2 == s.ownedL2 && t.ownedL3 <= s.ownedL3 && t.l3s.Keys <= s.l3s.Keys
  {
  }

  lemma WithImplicitL3Keeps(s: State, l2: string, l3: string)
    requires l2 in s.l2s
    ensures var t := WithImplicitL3(s, l2, l3);
            && t.l2s.Keys == s.l2s.Keys && t.ownedL2 == s.ownedL2
            && (forall l :: l in t.ownedL3 ==> l in s.ownedL3 || (l == l3 && l3 !in s.l3s))
  {
  }

  lemma UpdateL2Removes(s: State, c: Call, t: State, l: string)
    requires Tidy(s) && c.UpdateL2? && Accepted(s, c) && Next(s, c, t) && l in s.l3s && l !in t.l3s
    ensures l in s.ownedL3 && L2sOf(t, l) == {}
  {
    var moved := WithMovedL2(s, c.id, c.given);
    WithMovedL2Tidy(s, c.id, c.given);
    MovedL2OnlyOwned(s, c.id, c.given, l);
    if c.given.None? && s.l2s[c.id].l3.Some? {
      var l3 :| Resettled(s, c.id, c.freshL3, l3, t);
      ImplicitL3Elsewhere(moved, c.id, l3, l);
    }
  }

  lemma ImplicitL3Elsewhere(s: State, l2: string, l3: string, l: string)
    requires l2 in s.l2s && s.l2s[l2].l3.None?
    ensures l3 in WithImplicitL3(s, l2, l3).l3s
    ensures l != l3 ==> L2sOf(WithImplicitL3(s, l2, l3), l) == L2sOf(s, l)
  {
  }

  lemma MovedL2OnlyOwned(s: State, l2: string, given: Option<string>, l: string)
    requires l2 in s.l2s && l in s.l3s && l !in WithMovedL2(s, l2, given).l3s
    ensures l in s.ownedL3 && L2sOf(WithMovedL2(s, l2, given), l) == {}
  {
    CleanL3OnlyOwned(s.(l2s := s.l2s[l2 := s.l2s[l2].(l3 := given)]), s.l2s[l2].l3, l);
  }

  lemma DeleteGroupOnlyOwned(s: State, g: string, t: State)
    requires Tidy(s) && g in s.groups && t == WithoutGroup(s, g)
    ensures OnlyOwnedGo(s, DeleteGroup(g), t)
  {
    var u := s.(groups := s.groups - {g});
    var l2 := s.groups[g].l2.value;
    forall l | l in s.l2s && l !in t.l2s ensures l in s.ownedL2 && GroupsOf(s, l) == {g} {
      assert l == l2;
      forall h | h in GroupsOf(s, l2) ensures h == g {
        assert h != g ==> h in GroupsOf(u, l2);
      }
      assert g in GroupsOf(s, l2);
    }
    forall l | l in s.l3s && l !in t.l3s ensures l in s.ownedL3 && L2sOf(t, l) == {} {
      CleanL3OnlyOwned(u.(l2s := u.l2s - {l2}, ownedL2 := u.ownedL2 - {l2}), u.l2s[l2].l3, l);
    }
  }

  // ----- Whole runs -----

  /** A run from the empty tables; `trace[i]` is the state before `calls[i]`. */
  ghost predicate Run(calls: seq<Call>, trace: seq<State>) {
    && |trace| == |calls| + 1 && trace[0] == State(map[], map[], map[], {}, {})
    && forall i :: 0 <= i < |calls| ==> Next(trace[i], calls[i], trace[i + 1])
  }

  /** Between calls every group has its L2 policy, every owned policy has a user and every link is live. */
  lemma {:induction false} RunTidy(calls: seq<Call>, trace: seq<State>, i: nat)
    requires Run(calls, trace) && i < |trace|
    ensures Tidy(trace[i])
  {
    if i > 0 {
      RunTidy(calls, trace, i - 1);
      StepKeepsTidy(trace[i - 1], calls[i - 1], trace[i]);
    }
  }

  /** Unless a shared L2 policy is refused its tenant's default, every L2 policy has its L3 policy, too. */
  lemma {:induction false} RunQuiet(calls: seq<Call>, trace: seq<State>, i: nat)
    requires Run(calls, trace) && i < |trace|
    requires forall k :: 0 <= k < i ==> !LosesL3(trace[k], calls[k])
    ensures Quiet(trace[i])
  {
    if i > 0 {
      RunQuiet(calls, trace, i - 1);
      StepKeepsQuiet(trace[i - 1], calls[i - 1], trace[i]);
    }
  }

  /** Unless the call deletes it by name, a policy the driver does not own stays, and stays without an owner. */
  ghost predicate Steady(s: State, c: Call, t: State, id: string) {
    && (id in s.l2s && id !in s.ownedL2 && c != DeleteL2(id) ==> id in t.l2s && id !in t.ownedL2)
    && (id in s.l3s && id !in s.ownedL3 && c != DeleteL3(id) ==> id in t.l3s && id !in t.ownedL3)
  }

  lemma OnlyOwnedGoIsSteady(s: State, c: Call, t: State, id: string)
    requires OnlyOwnedGo(s, c, t)
    ensures Steady(s, c, t, id)
  {
  }

  lemma RunSteady(calls: seq<Call>, trace: seq<State>, k: nat, id: string)
    requires Run(calls, trace) && k < |calls|
    ensures Steady(trace[k], calls[k], trace[k + 1], id)
  {
    RunTidy(calls, trace, k);
    StepOnlyOwnedGo(trace[k], calls[k], trace[k + 1]);
    OnlyOwnedGoIsSteady(trace[k], calls[k], trace[k + 1], id);
  }

  /** From `s` to `t` the policy stays, if none of the calls deletes it. */
  ghost predicate Stays(s: State, calls: seq<Call>, t: State, id: string) {
    && (id in s.l2s && id !in s.ownedL2 && DeleteL2(id) !in calls ==> id in t.l2s && id !in t.ownedL2)
    && (id in s.l3s && id !in s.ownedL3 && DeleteL3(id) !in calls ==> id in t.l3s && id !in t.ownedL3)
  }

  lemma {:induction false} SteadyStays(calls: seq<Call>, trace: seq<State>, i: nat, j: nat, id: string)
    requires |trace| == |calls| + 1 && i <= j < |trace|
    requires forall k :: 0 <= k < |calls| ==> Steady(trace[k], calls[k], trace[k + 1], id)
    ensures Stays(trace[i], calls[i..j], trace[j], id)
    decreases j
  {
    if i < j {
      SteadyStays(calls, trace, i, j - 1, id);
      assert calls[i..j] == calls[i..j - 1] + [calls[j - 1]];
      assert Steady(trace[j - 1], calls[j - 1], trace[j - 1 + 1], id);
    }
  }

  /** A policy the driver does not own goes only when its owner deletes it. */
  lemma UnownedStays(calls: seq<Call>, trace: seq<State>, i: nat, j: nat, id: string)
    requires Run(calls, trace) && i <= j < |trace|
    ensures id in trace[i].l2s && id !in trace[i].ownedL2 && DeleteL2(id) !in calls[i..j] ==>
              id in trace[j].l2s && id !in trace[j].ownedL2
    ensures id in trace[i].l3s && id !in trace[i].ownedL3 && DeleteL3(id) !in calls[i..j] ==>
              id in trace[j].l3s && id !in trace[j].ownedL3
  {
    forall k | 0 <= k < |calls| ensures Steady(trace[k], calls[k], trace[k + 1], id) {
      RunSteady(calls, trace, k, id);
    }
    SteadyStays(calls, trace, i, j, id);
  }

  // ----- Create, then delete -----

  /** Deleting a group that was created with implicit policies restores the tables, whichever L3 policy it got. */
  lemma CreateThenDelete(s: State, g: string, tenant: string, shared: bool, l2: string, l3: string)
    requires Tidy(s) && g !in s.groups && l2 !in s.l2s
    ensures WithoutGroup(WithImplicitGroup(s, g, tenant, shared, l2, l3), g) == s
  {
    var t := WithImplicitGroup(s, g, tenant, shared, l2, l3);
    var u := t.(groups := t.groups - {g});
    assert u.groups == s.groups;
    assert GroupsOf(u, l2) == {} by {
      forall h | h in s.groups ensures s.groups[h].l2 != Some(l2) {
      }
    }
    var v := u.(l2s := u.l2s - {l2}, ownedL2 := u.ownedL2 - {l2});
    assert v.l2s == s.l2s && v.ownedL2 == s.ownedL2;
    assert L2sOf(v, l3) == L2sOf(s, l3);
    if l3 in s.l3s {
      assert v == s;
    } else {
      assert L2sOf(s, l3) == {};
      assert v.l3s - {l3} == s.l3s && v.ownedL3 - {l3} == s.ownedL3;
    }
  }

  // ----- One default L3 policy for each tenant -----

  /** A rename to the default name while the tenant has another default policy. */
  predicate TakesDefaultName(s: State, c: Call) {
    c.UpdateL3? && c.id in s.l3s && c.hasDefaultName && Defaults(s, s.l3s[c.id].tenant) - {c.id} != {}
  }

  lemma ImplicitL3OneDefault(s: State, l2: string, l3: string)
    requires OneDefault(s) && l2 in s.l2s && (l3 in s.l3s || Defaults(s, s.l2s[l2].tenant) == {})
    ensures OneDefault(WithImplicitL3(s, l2, l3))
  {
    var t := WithImplicitL3(s, l2, l3);
    forall l, m | l in t.l3s && m in t.l3s && l in Defaults(t, t.l3s[l].tenant) && m in Defaults(t, t.l3s[l].tenant)
      ensures l == m
    {
      assert l in s.l3s ==> l in Defaults(s, s.l3s[l].tenant);
      assert m in s.l3s ==> m in Defaults(s, s.l3s[m].tenant);
    }
  }

  lemma FewerL3sOneDefault(s: State, t: State)
    requires OneDefault(s) && forall l :: l in t.l3s ==> l in s.l3s && t.l3s[l] == s.l3s[l]
    ensures OneDefault(t)
  {
    forall l, m | l in t.l3s && m in t.l3s && l in Defaults(t, t.l3s[l].tenant) && m in Defaults(t, t.l3s[l].tenant)
      ensures l == m
    {
      assert l in Defaults(s, s.l3s[l].tenant) && m in Defaults(s, s.l3s[l].tenant);
    }
  }

  lemma L3CallsOneDefault(s: State, c: Call, t: State)
    requires OneDefault(s) && (c.CreateL3? || c.UpdateL3?) && Accepted(s, c) && Next(s, c, t) && !TakesDefaultName(s, c)
    ensures OneDefault(t)
  {
    forall l, m | l in t.l3s && m in t.l3s && l in Defaults(t, t.l3s[l].tenant) && m in Defaults(t, t.l3s[l].tenant)
      ensures l == m
    {
      assert l != c.id ==> l in Defaults(s, s.l3s[l].tenant);
      assert m != c.id ==> m in Defaults(s, s.l3s[m].tenant);
      if c.UpdateL3? {
        assert Defaults(s, s.l3s[c.id].tenant) - {c.id} == {} || !c.hasDefaultName;
        assert forall k :: k in Defaults(s, s.l3s[c.id].tenant) && k != c.id ==>
            k in Defaults(s, s.l3s[c.id].tenant) - {c.id};
      }
    }
  }

  lemma NewL2OneDefault(s: State, l2: string, tenant: string, shared: bool, l3: string)
    requires OneDefault(s) && (l3 in s.l3s || Defaults(s, tenant) == {})
    ensures OneDefault(WithNewL2(s, l2, tenant, shared, l3))
  {
    var t := s.(l2s := s.l2s[l2 := L2(tenant, shared, None)]);
    FewerL3sOneDefault(s, t);
    assert Defaults(t, tenant) == Defaults(s, tenant);
    ImplicitL3OneDefault(t, l2, l3);
  }

  lemma ImplicitGroupOneDefault(s: State, g: string, tenant: string, shared: bool, l2: string, l3: string)
    requires OneDefault(s) && (l3 in s.l3s || Defaults(s, tenant) == {})
    ensures OneDefault(WithImplicitGroup(s, g, tenant, shared, l2, l3))
  {
    NewL2OneDefault(s, l2, tenant, shared, l3);
    FewerL3sOneDefault(WithNewL2(s, l2, tenant, shared, l3), WithImplicitGroup(s, g, tenant, shared, l2, l3));
  }

  /** Only that rename breaks the rule the create hook enforces. */
  lemma StepOneDefault(s: State, c: Call, t: State)
    requires Tidy(s) && OneDefault(s) && Next(s, c, t)
    ensures OneDefault(t) <==> !TakesDefaultName(s, c)
  {
    if TakesDefaultName(s, c) {
      var m :| m in Defaults(s, s.l3s[c.id].tenant) - {c.id};
      assert m in Defaults(t, s.l3s[c.id].tenant) && c.id in Defaults(t, s.l3s[c.id].tenant);
      assert t.l3s[m].tenant == t.l3s[c.id].tenant;
    } else if Accepted(s, c) {
      match c {
        case CreateL3(_, _, _, _) => L3CallsOneDefault(s, c, t);
        case UpdateL3(_, _) => L3CallsOneDefault(s, c, t);
        case CreateL2(_, _, _, _, _, _) => CreateL2OneDefault(s, c, t);
        case UpdateL2(_, _, _, _) => UpdateL2OneDefault(s, c, t);
        case CreateGroup(_, _, _, _, _, _) => CreateGroupOneDefault(s, c, t);
        case _ => FewerL3sOneDefault(s, t);
      }
    }
  }

  lemma UpdateL2OneDefault(s: State, c: Call, t: State)
    requires Tidy(s) && OneDefault(s) && c.UpdateL2? && Accepted(s, c) && Next(s, c, t)
    ensures OneDefault(t)
  {
    var moved := WithMovedL2(s, c.id, c.given);
    WithMovedL2Tidy(s, c.id, c.given);
    FewerL3sOneDefault(s, moved);
    if c.given.None? && s.l2s[c.id].l3.Some? {
      var l3 :| Resettled(s, c.id, c.freshL3, l3, t);
      ImplicitL3OneDefault(moved, c.id, l3);
    }
  }

  lemma CreateL2OneDefault(s: State, c: Call, t: State)
    requires Tidy(s) && OneDefault(s) && c.CreateL2? && Accepted(s, c) && Next(s, c, t)
    ensures OneDefault(t)
  {
    if t != s {
      var l3 :| SettlesL2(s, c.tenant, c.given, c.freshL3, l3) && t == WithNewL2(s, c.id, c.tenant, c.shared, l3);
      NewL2OneDefault(s, c.id, c.tenant, c.shared, l3);
    }
  }

  lemma CreateGroupOneDefault(s: State, c: Call, t: State)
    requires Tidy(s) && OneDefault(s) && c.CreateGroup? && Accepted(s, c) && Next(s, c, t)
    ensures OneDefault(t)
  {
    if c.group.l2.Some? {
      FewerL3sOneDefault(s, t);
    } else {
      var l3 :| GroupSettled(s, c.id, c.group, c.proxied, c.isAdmin, c.freshL2, c.freshL3, l3, t);
      ImplicitGroupOneDefault(s, c.id, c.group.tenant, c.group.shared, c.freshL2, l3);
    }
  }

  /** The rename is accepted and leaves the tenant with two default policies. */
  lemma TwoDefaults(shared: bool)
    ensures var s := State(map[], map[], map["a" := L3("t", shared, true), "b" := L3("t", shared, false)], {}, {});
            Quiet(s) && OneDefault(s) && Accepted(s, UpdateL3("b", true)) && !OneDefault(WithName(s, "b", true))
  {
    var s := State(map[], map[], map["a" := L3("t", shared, true), "b" := L3("t", shared, false)], {}, {});
    assert "b" in Defaults(WithName(s, "b", true), "t") && "a" in Defaults(WithName(s, "b", true), "t");
    assert OneDefault(s) by {
      forall l | l in Defaults(s, "t") ensures l == "a" {
      }
    }
  }

  /** Without such renames, every state of a run has at most one default policy for each tenant. */
  lemma {:induction false} RunOneDefault(calls: seq<Call>, trace: seq<State>, i: nat)
    requires Run(calls, trace) && i < |trace|
    requires forall k :: 0 <= k < i ==> !TakesDefaultName(trace[k], calls[k])
    ensures OneDefault(trace[i])
  {
    if i > 0 {
      RunOneDefault(calls, trace, i - 1);
      RunTidy(calls, trace, i - 1);
      StepOneDefault(trace[i - 1], calls[i - 1], trace[i]);
    }
  }
}
