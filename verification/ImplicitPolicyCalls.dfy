/** What the calls of the implicit policy driver store and choose, in terms of the tables alone. */
module ImplicitPolicyCalls {
  import opened Collections
  import opened ImplicitPolicy
  import opened ImplicitPolicyRuns

  /** An L3 policy of the default name for the tenant. */
  predicate IsDefault(s: State, tenant: string, l3: string) {
    l3 in s.l3s && s.l3s[l3].tenant == tenant && s.l3s[l3].hasDefaultName
  }

  /** A resource of the tenant may refer to one: shared ones use shared ones, and without admin rights nobody uses what
      another tenant does not share. */
  predicate MayRefer(tenant: string, shared: bool, isAdmin: bool, refTenant: string, refShared: bool) {
    (shared ==> refShared) && (!isAdmin && !refShared ==> refTenant == tenant)
  }

  // ----- Given policies -----

  /** A new L2 policy with a given L3 policy is stored as requested, exactly if it may refer to that one. */
  lemma GivenL3(s: State, c: Call, t: State)
    requires c.CreateL2? && c.given.Some? && Next(s, c, t)
    ensures t == if c.given.value in s.l3s && var l3 := s.l3s[c.given.value];
                     MayRefer(c.tenant, c.shared, c.isAdmin, l3.tenant, l3.shared)
                 then s.(l2s := s.l2s[c.id := L2(c.tenant, c.shared, c.given)]) else s
  {
    if Accepted(s, c) && t != s {
      assert s.l2s[c.id := L2(c.tenant, c.shared, None)][c.id := L2(c.tenant, c.shared, c.given)] ==
             s.l2s[c.id := L2(c.tenant, c.shared, c.given)];
    }
  }

  /** The same for a new group with a given L2 policy. */
  lemma GivenL2(s: State, c: Call, t: State)
    requires c.CreateGroup? && c.group.l2.Some? && Next(s, c, t)
    ensures t == if c.group.l2.value in s.l2s && var l2 := s.l2s[c.group.l2.value];
                     MayRefer(c.group.tenant, c.group.shared, c.isAdmin, l2.tenant, l2.shared)
                 then s.(groups := s.groups[c.id := c.group]) else s
  {
  }

  /** An L2 policy is moved to a given L3 policy exactly if it may refer to that one; the old one goes exactly if it is
      owned and this was its last user. */
  lemma MovedToGiven(s: State, c: Call, t: State)
    requires Tidy(s) && c.UpdateL2? && c.given.Some? && c.id in s.l2s && Next(s, c, t)
    ensures var may := c.given.value in s.l3s && var l3 := s.l3s[c.given.value];
                       MayRefer(s.l2s[c.id].tenant, s.l2s[c.id].shared, c.isAdmin, l3.tenant, l3.shared);
            && t.groups == s.groups && t.ownedL2 == s.ownedL2
            && t.l2s == (if may then s.l2s[c.id := s.l2s[c.id].(l3 := c.given)] else s.l2s)
            && forall l :: l in s.l3s && l !in t.l3s <==>
                 && may && l in s.ownedL3 && s.l2s[c.id].l3 == Some(l) && c.given != Some(l)
                 && forall m :: m in s.l2s && s.l2s[m].l3 == Some(l) ==> m == c.id
  {
    if Accepted(s, c) {
      MovedFrees(s, c.id, c.given, t);
    }
  }

  lemma MovedFrees(s: State, l2: string, given: Option<string>, t: State)
    requires Tidy(s) && l2 in s.l2s && t == WithMovedL2(s, l2, given)
    ensures t.groups == s.groups && t.ownedL2 == s.ownedL2 && t.l2s == s.l2s[l2 := s.l2s[l2].(l3 := given)]
    ensures forall l :: l in s.l3s && l !in t.l3s <==>
              && l in s.ownedL3 && s.l2s[l2].l3 == Some(l) && given != Some(l)
              && forall m :: m in s.l2s && s.l2s[m].l3 == Some(l) ==> m == l2
  {
    var u := s.(l2s := s.l2s[l2 := s.l2s[l2].(l3 := given)]);
    forall l | given != Some(l)
      ensures L2sOf(u, l) == {} <==> forall m :: m in s.l2s && s.l2s[m].l3 == Some(l) ==> m == l2
    {
      assert forall m :: m in L2sOf(u, l) <==> m in s.l2s && s.l2s[m].l3 == Some(l) && m != l2;
    }
  }

  /** An L3 policy is stored as requested, exactly if it is not a second one of the default name for its tenant; a
      rename changes its name alone. */
  lemma OwnL3(s: State, c: Call, t: State)
    requires Next(s, c, t)
    ensures c.CreateL3? ==>
              t == if c.hasDefaultName && exists l3 :: IsDefault(s, c.tenant, l3) then s
                   else s.(l3s := s.l3s[c.id := L3(c.tenant, c.shared, c.hasDefaultName)])
    ensures c.UpdateL3? && c.id in s.l3s ==>
              var l3 := s.l3s[c.id];
              t == s.(l3s := s.l3s[c.id := L3(l3.tenant, l3.shared, c.hasDefaultName)])
  {
    if c.CreateL3? {
      if l3 :| IsDefault(s, c.tenant, l3) {
        assert l3 in Defaults(s, c.tenant);
      } else {
        NoDefaults(s, c.tenant);
      }
    }
  }

  // ----- Implicit policies -----

  /** The tenant's first L2 policy without a given L3 policy brings a new one, of the default name and owned. */
  lemma FirstDefault(s: State, c: Call, t: State)
    requires c.CreateL2? && c.given.None? && Next(s, c, t)
    requires forall l3 :: !IsDefault(s, c.tenant, l3)
    ensures t.l2s == s.l2s[c.id := L2(c.tenant, c.shared, Some(c.freshL3))] && t.groups == s.groups
    ensures t.l3s == s.l3s[c.freshL3 := L3(c.tenant, c.shared, true)] && t.ownedL3 == s.ownedL3 + {c.freshL3}
  {
    NoDefaults(s, c.tenant);
  }

  lemma NoDefaults(s: State, tenant: string)
    requires forall l3 :: !IsDefault(s, tenant, l3)
    ensures Defaults(s, tenant) == {}
  {
    forall l | l in Defaults(s, tenant) ensures IsDefault(s, tenant, l) {
    }
  }

  /** Where the tenant has one default L3 policy, an L2 policy without a given one gets that, unless it is shared and
      the
      default is not. */
  lemma OnlyDefault(s: State, c: Call, t: State, l3: string)
    requires c.CreateL2? && c.given.None? && Next(s, c, t)
    requires IsDefault(s, c.tenant, l3) && forall l :: IsDefault(s, c.tenant, l) ==> l == l3
    ensures t == if c.shared && !s.l3s[l3].shared then s
                 else s.(l2s := s.l2s[c.id := L2(c.tenant, c.shared, Some(l3))])
  {
    OneOfDefaults(s, c.tenant, l3);
    assert s.l2s[c.id := L2(c.tenant, c.shared, None)][c.id := L2(c.tenant, c.shared, Some(l3))] ==
           s.l2s[c.id := L2(c.tenant, c.shared, Some(l3))];
  }

  lemma OneOfDefaults(s: State, tenant: string, l3: string)
    requires IsDefault(s, tenant, l3) && forall l :: IsDefault(s, tenant, l) ==> l == l3
    ensures Defaults(s, tenant) == {l3}
  {
    forall l ensures l in Defaults(s, tenant) <==> IsDefault(s, tenant, l) {
    }
  }

  /** A group without a given L2 policy gets a new owned one of its tenant and sharing, on the L3 policy of the proxied
      group, or else as OnlyDefault has it for its L2 policy. */
  lemma ImplicitL2(s: State, c: Call, t: State, l3: string)
    requires Tidy(s) && c.CreateGroup? && c.group.l2.None? && Next(s, c, t)
    requires if c.proxied.Some? && s.l2s[s.groups[c.proxied.value].l2.value].l3.Some?
             then s.l2s[s.groups[c.proxied.value].l2.value].l3 == Some(l3)
             else IsDefault(s, c.group.tenant, l3) && forall l :: IsDefault(s, c.group.tenant, l) ==> l == l3
    ensures var admin := c.isAdmin && c.proxied.Some?;
            l3 in s.l3s
            && t == if MayRefer(c.group.tenant, c.group.shared, admin, s.l3s[l3].tenant, s.l3s[l3].shared)
            then s.(groups := s.groups[c.id := Group(c.group.tenant, c.group.shared, Some(c.freshL2))],
                    l2s := s.l2s[c.freshL2 := L2(c.group.tenant, c.group.shared, Some(l3))],
                    ownedL2 := s.ownedL2 + {c.freshL2})
            else s
  {
    var m :| GroupSettled(s, c.id, c.group, c.proxied, c.isAdmin, c.freshL2, c.freshL3, m, t);
    if ProxiedL3(s, c.proxied).None? {
      OneOfDefaults(s, c.group.tenant, l3);
    }
    assert m == l3;
    assert s.l2s[c.freshL2 := L2(c.group.tenant, c.group.shared, None)][c.freshL2 :=
             L2(c.group.tenant, c.group.shared, Some(l3))]
           == s.l2s[c.freshL2 := L2(c.group.tenant, c.group.shared, Some(l3))];
  }

  /** An L2 policy that gives up another L3 policy gets the tenant's default one, unless it is shared and that is not.
      */
  lemma MovedToDefault(s: State, c: Call, t: State, l3: string)
    requires Tidy(s) && c.UpdateL2? && c.given.None? && c.id in s.l2s && Next(s, c, t)
    requires s.l2s[c.id].l3.Some? && s.l2s[c.id].l3 != Some(l3)
    requires IsDefault(s, s.l2s[c.id].tenant, l3) && forall l :: IsDefault(s, s.l2s[c.id].tenant, l) ==> l == l3
    ensures t.groups == s.groups && t.ownedL2 == s.ownedL2
    ensures var settled := if s.l2s[c.id].shared && !s.l3s[l3].shared then None else Some(l3);
            t.l2s == s.l2s[c.id := s.l2s[c.id].(l3 := settled)]
  {
    var moved := WithMovedL2(s, c.id, None);
    MovedFrees(s, c.id, None, moved);
    var m :| Resettled(s, c.id, c.freshL3, m, t);
    assert l3 in moved.l3s;
    MovedKeepsDefaults(s, c.id, s.l2s[c.id].tenant, l3);
    assert m == l3;
    assert s.l2s[c.id := s.l2s[c.id].(l3 := None)][c.id := s.l2s[c.id].(l3 := Some(l3))] ==
           s.l2s[c.id := s.l2s[c.id].(l3 := Some(l3))];
  }

  lemma MovedKeepsDefaults(s: State, l2: string, tenant: string, l3: string)
    requires l2 in s.l2s && l3 in WithMovedL2(s, l2, None).l3s
    requires IsDefault(s, tenant, l3) && forall l :: IsDefault(s, tenant, l) ==> l == l3
    ensures Defaults(WithMovedL2(s, l2, None), tenant) == {l3}
    ensures WithMovedL2(s, l2, None).l3s[l3] == s.l3s[l3]
  {
    forall l ensures l in Defaults(WithMovedL2(s, l2, None), tenant) <==> l == l3 {
      assert l in Defaults(WithMovedL2(s, l2, None), tenant) ==> IsDefault(s, tenant, l);
    }
  }

  // ----- Deletes -----

  /** Deleting by name succeeds exactly if the policy exists and nothing uses it. */
  lemma DeletesExactly(s: State, c: Call, t: State)
    requires Tidy(s) && Next(s, c, t)
    ensures c.DeleteL3? && c.id in s.l3s ==>
              (c.id !in t.l3s <==> forall l2 :: l2 in s.l2s ==> s.l2s[l2].l3 != Some(c.id))
    ensures c.DeleteL2? && c.id in s.l2s ==>
              (c.id !in t.l2s <==> forall g :: g in s.groups ==> s.groups[g].l2 != Some(c.id))
    ensures c.DeleteGroup? ==> t.groups == s.groups - {c.id}
  {
    if c.DeleteL3? {
      assert L2sOf(s, c.id) == {} <==> forall l2 :: l2 in s.l2s ==> s.l2s[l2].l3 != Some(c.id) by {
        assert forall l2 :: l2 in L2sOf(s, c.id) <==> l2 in s.l2s && s.l2s[l2].l3 == Some(c.id);
      }
    }
    if c.DeleteL2? {
      assert GroupsOf(s, c.id) == {} <==> forall g :: g in s.groups ==> s.groups[g].l2 != Some(c.id) by {
        assert forall g :: g in GroupsOf(s, c.id) <==> g in s.groups && s.groups[g].l2 == Some(c.id);
      }
    }
  }

  // ----- One L3 policy for the tenant's whole run -----

  /** No call but a rename changes an L3 policy that stays. */
  lemma L3Kept(s: State, c: Call, t: State, l3: string)
    requires Tidy(s) && Next(s, c, t) && l3 in s.l3s && l3 in t.l3s && !(c.UpdateL3? && c.id == l3)
    ensures t.l3s[l3] == s.l3s[l3]
  {
  }

  lemma {:induction false} DefaultKept(calls: seq<Call>, trace: seq<State>, i: nat, j: nat, tenant: string, l3: string)
    requires Run(calls, trace) && i <= j < |trace| && IsDefault(trace[i], tenant, l3)
    requires forall k :: i <= k <= j ==> l3 in trace[k].l3s
    requires forall k :: i <= k < j ==> !(calls[k].UpdateL3? && calls[k].id == l3)
    ensures IsDefault(trace[j], tenant, l3)
    decreases j
  {
    if i < j {
      DefaultKept(calls, trace, i, j - 1, tenant, l3);
      RunTidy(calls, trace, j - 1);
      assert Next(trace[j - 1], calls[j - 1], trace[j - 1 + 1]);
      L3Kept(trace[j - 1], calls[j - 1], trace[j], l3);
    }
  }

  lemma OneDefaultMeans(s: State, tenant: string, l3: string)
    requires OneDefault(s) && IsDefault(s, tenant, l3)
    ensures forall l :: IsDefault(s, tenant, l) ==> l == l3
  {
    forall l | IsDefault(s, tenant, l) ensures l == l3 {
      assert l in Defaults(s, s.l3s[l].tenant) && l3 in Defaults(s, s.l3s[l].tenant);
    }
  }

  /** As long as a default L3 policy of a tenant is neither deleted nor renamed, and no other one is renamed to the
      default name, every L2 policy of the tenant that is created without an L3 policy gets that one. */
  lemma SameDefaultForAll(calls: seq<Call>, trace: seq<State>, i: nat, j: nat, l3: string)
    requires Run(calls, trace) && i <= j < |calls|
    requires calls[j].CreateL2? && calls[j].given.None? && IsDefault(trace[i], calls[j].tenant, l3)
    requires forall k :: i <= k <= j ==> l3 in trace[k].l3s
    requires forall k :: i <= k < j ==> !(calls[k].UpdateL3? && calls[k].id == l3)
    requires forall k :: 0 <= k < j ==> !TakesDefaultName(trace[k], calls[k])
    ensures var c, s, t := calls[j], trace[j], trace[j + 1];
            t == if c.shared && !s.l3s[l3].shared then s
                 else s.(l2s := s.l2s[c.id := L2(c.tenant, c.shared, Some(l3))])
  {
    DefaultKept(calls, trace, i, j, calls[j].tenant, l3);
    RunOneDefault(calls, trace, j);
    OneDefaultMeans(trace[j], calls[j].tenant, l3);
    OnlyDefault(trace[j], calls[j], trace[j + 1], l3);
  }
}
