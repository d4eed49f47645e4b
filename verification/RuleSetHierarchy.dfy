/** Parents and children of policy rule sets, as group_policy_db.py keeps them in its two linked columns:
    the parent of a rule set and the collection of its children. */
module RuleSetHierarchy {
  import opened Collections

  /** The new collections after `id` gets exactly the children `ids`, taken from wherever they were. */
  function Adopted(children: map<string, set<string>>, id: string, ids: set<string>): map<string, set<string>> {
    map p | p in children.Keys + {id} :: if p == id then ids else children[p] - ids
  }

  /** The rule set can get these children: it has no parent, and each of them exists and is childless. */
  predicate MayAdopt(parent: map<string, string>, children: map<string, set<string>>, id: string, ids: set<string>) {
    ids == {} || (id !in parent && forall c :: c in ids ==> c in children && children[c] == {} && c != id)
  }

  /** Both sides agree, and no rule set has a parent and children. */
  ghost predicate Linked(parent: map<string, string>, children: map<string, set<string>>) {
    && (forall p, c :: p in children && c in children[p] ==> c in parent && parent[c] == p)
    && (forall c :: c in parent ==> c in children && parent[c] in children && c in children[parent[c]])
    && (forall c :: c in parent ==> children[c] == {} && parent[c] !in parent)
  }

  /** Moving one childless rule set below one without parent. */
  ghost predicate Moved(children: map<string, set<string>>, children': map<string, set<string>>, id: string,
      child: string)
    requires id in children
  {
    && children'.Keys == children.Keys
    && children'[id] == children[id] + {child}
    && forall p :: p in children && p != id ==> children'[p] == children[p] - {child}
  }

  lemma MoveKeepsLinked(parent: map<string, string>, children: map<string, set<string>>,
      children': map<string, set<string>>, id: string, child: string)
    requires Linked(parent, children) && id in children && child in children && child != id
    requires id !in parent && children[child] == {} && Moved(children, children', id, child)
    ensures Linked(parent[child := id], children')
  {
    var parent' := parent[child := id];
    forall c | c in parent'
      ensures c in children' && parent'[c] in children' && c in children'[parent'[c]]
      ensures children'[c] == {} && parent'[c] !in parent'
    {
      if c != child {
        assert c in children[parent[c]];
      }
    }
  }

  class RuleSetTable {
    var parent: map<string, string>         // only rule sets that have one
    var children: map<string, set<string>>  // every rule set

    ghost predicate Valid()
      reads this
    {
      Linked(parent, children)
    }

    constructor ()
      ensures Valid() && parent == map[] && children == map[]
    {
      parent, children := map[], map[];
    }

    /** `rule_set.child_policy_rule_sets = []`: every child loses its parent. */
    method ClearChildren(id: string)
      requires Valid() && id in children
      modifies this
      ensures Valid()
      ensures children == old(children)[id := {}] && parent == old(parent) - old(children[id])
    {
      parent := parent - children[id];
      children := children[id := {}];
    }

    /** `rule_set.child_policy_rule_sets.append(child)`: the child leaves its old parent's collection. */
    method AppendChild(id: string, child: string)
      requires Valid() && id in children && child in children && child != id
      requires id !in parent && children[child] == {}
      modifies this
      ensures Valid()
      ensures parent == old(parent)[child := id] && Moved(old(children), children, id, child)
    {
      if child in parent {
        children := children[parent[child] := children[parent[child]] - {child}];
      }
      children := children[id := children[id] + {child}];
      assert forall p :: p in children && child in old(children[p]) ==> child in parent && p == parent[child];
      MoveKeepsLinked(parent, old(children), children, id, child);
      parent := parent[child := id];
    }

    /** _set_children_for_policy_rule_set */
    method SetChildren(id: string, ids: seq<string>) returns (ok: bool)
      requires Valid() && id in children
      modifies this
      ensures Valid()
      ensures ok <==> MayAdopt(old(parent), old(children), id, Names(ids))
      ensures ok ==> children == Adopted(old(children), id, Names(ids))
      ensures ok ==> parent == AdoptedParents(old(parent), id, Names(ids))
      ensures !ok ==> unchanged(this)
    {
      if ids == [] {
        assert Names(ids) == {};
        AdoptNone(children, id);
        ClearChildren(id);
        AdoptedParentsLinked(old(parent), old(children), id, {}, parent);
        return true;
      }
      assert ids[0] in Names(ids);
      if id in parent {
        return false;
      }
      if c :| c in ids && c !in children {
        return false;
      }
      if c :| c in ids && (children[c] != {} || c == id) {
        return false;
      }
      ghost var was := children;
      AdoptNone(was, id);
      ClearChildren(id);
      AppendAll(id, ids, was);
      AdoptedParentsLinked(old(parent), was, id, Names(ids), parent);
      return true;
    }

    /** `for child in policy_rule_sets_in_db: rule_set.child_policy_rule_sets.append(child)` */
    method AppendAll(id: string, ids: seq<string>, ghost was: map<string, set<string>>)
      requires Valid() && id in children && id !in parent
      requires forall c :: c in ids ==> c in children && children[c] == {} && c != id
      requires id in was && children == Adopted(was, id, {})
      modifies this
      ensures Valid() && children == Adopted(was, id, Names(ids))
    {
      assert Names(ids[..0]) == {};
      for i := 0 to |ids|
        invariant Valid() && id in children && id !in parent
        invariant forall c :: c in ids ==> c in children && children[c] == {}
        invariant children == Adopted(was, id, Names(ids[..i]))
      {
        ghost var before := children;
        AppendChild(id, ids[i]);
        assert Names(ids[..i + 1]) == Names(ids[..i]) + {ids[i]};
        AdoptOneMore(was, before, children, id, Names(ids[..i]), ids[i]);
      }
      assert ids[..|ids|] == ids;
    }

    /** create_policy_rule_set: a rejected creation leaves nothing behind. */
    method Create(id: string, ids: seq<string>) returns (ok: bool)
      requires Valid() && id !in children
      modifies this
      ensures Valid()
      ensures ok <==> forall c :: c in ids ==> c in old(children) && old(children[c]) == {}
      ensures ok ==> children == Adopted(old(children), id, Names(ids))
      ensures ok ==> parent == AdoptedParents(old(parent), id, Names(ids))
      ensures !ok ==> unchanged(this)
    {
      var was := children;
      assert forall c :: c in ids ==> c in Names(ids);
      children := children[id := {}];
      ok := SetChildren(id, ids);
      if !ok {
        children := was;
      } else {
        assert Adopted(was[id := {}], id, Names(ids)) == Adopted(was, id, Names(ids));
      }
    }

    /** delete_policy_rule_set, for a rule set no group or external policy uses: its children lose their parent. */
    method Delete(id: string)
      requires Valid() && id in children
      modifies this
      ensures Valid()
      ensures children.Keys == old(children.Keys) - {id}
      ensures forall p :: p in children ==> children[p] == old(children[p]) - {id}
      ensures parent == old(parent) - old(children[id]) - {id}
    {
      ghost var was := children;
      ClearChildren(id);
      ghost var cleared := children;
      if id in parent {
        children := children[parent[id] := children[parent[id]] - {id}];
      }
      children := children - {id};
      assert forall p :: p in cleared && id in cleared[p] ==> id in parent && p == parent[id];
      RemoveKeepsLinked(parent, cleared, children, id);
      parent := parent - {id};
    }
  }

  /** A rule set may get children exactly if there are none, or it has no parent and each of them is another childless
      rule set. */
  lemma MayAdoptExactly(parent: map<string, string>, children: map<string, set<string>>, id: string, ids: set<string>)
    ensures MayAdopt(parent, children, id, ids) <==>
            forall c :: c in ids ==> id !in parent && c in children && children[c] == {} && c != id
  {
    if ids != {} {
      var c :| c in ids;
    }
  }

  /** The columns after `id` got its children, rule set by rule set. */
  lemma AdoptedExactly(parent: map<string, string>, children: map<string, set<string>>, id: string, ids: set<string>,
      parent': map<string, string>, children': map<string, set<string>>)
    ensures children' == Adopted(children, id, ids) <==>
            && children'.Keys == children.Keys + {id} && children'[id] == ids
            && forall p :: p in children && p != id ==> children'[p] == children[p] - ids
    ensures parent' == AdoptedParents(parent, id, ids) <==>
            forall c :: if c in ids then c in parent' && parent'[c] == id
                        else if c in parent && parent[c] != id then c in parent' && parent'[c] == parent[c]
                        else c !in parent'
  {
    CollectionsExactly(children, id, ids, children');
    ParentsExactly(parent, id, ids, parent');
  }

  lemma CollectionsExactly(children: map<string, set<string>>, id: string, ids: set<string>,
      children': map<string, set<string>>)
    ensures children' == Adopted(children, id, ids) <==>
            && children'.Keys == children.Keys + {id} && children'[id] == ids
            && forall p :: p in children && p != id ==> children'[p] == children[p] - ids
  {
  }

  lemma ParentsExactly(parent: map<string, string>, id: string, ids: set<string>, parent': map<string, string>)
    ensures parent' == AdoptedParents(parent, id, ids) <==>
            forall c :: if c in ids then c in parent' && parent'[c] == id
                        else if c in parent && parent[c] != id then c in parent' && parent'[c] == parent[c]
                        else c !in parent'
  {
  }

  lemma AdoptOneMore(was: map<string, set<string>>, before: map<string, set<string>>, now: map<string, set<string>>,
      id: string, ids: set<string>, child: string)
    requires id in was && before == Adopted(was, id, ids) && Moved(before, now, id, child)
    ensures now == Adopted(was, id, ids + {child})
  {
    forall p | p in was ensures now[p] == Adopted(was, id, ids + {child})[p] {
      assert was[p] - ids - {child} == was[p] - (ids + {child});
    }
  }

  lemma AdoptNone(was: map<string, set<string>>, id: string)
    requires id in was
    ensures Adopted(was, id, {}) == was[id := {}]
  {
    forall p | p in was ensures Adopted(was, id, {})[p] == was[id := {}][p] {
      assert was[p] - {} == was[p];
    }
  }

  /** Removing a rule set that has no children any more. */
  lemma RemoveKeepsLinked(parent: map<string, string>, children: map<string, set<string>>,
      children': map<string, set<string>>, id: string)
    requires Linked(parent, children) && id in children && children[id] == {}
    requires children'.Keys == children.Keys - {id} && forall p :: p in children' ==> children'[p] == children[p] - {id}
    ensures Linked(parent - {id}, children')
  {
    forall c | c in parent && c != id ensures parent[c] != id {
      assert c in children[parent[c]];
    }
  }

  /** The parent column is determined by the collections: whoever is in a collection has that parent, nobody else. */
  lemma ParentsFollowChildren(parent: map<string, string>, children: map<string, set<string>>, c: string)
    requires Linked(parent, children)
    ensures c in parent <==> exists p :: p in children && c in children[p]
    ensures forall p :: p in children && c in children[p] ==> c in parent && parent[c] == p
  {
  }

  /** Either column determines the other, so what a call does to the collections says what it does to the parents. */
  lemma EitherColumn(parent: map<string, string>, children: map<string, set<string>>,
      parent': map<string, string>, children': map<string, set<string>>)
    requires Linked(parent, children) && Linked(parent', children') && children.Keys == children'.Keys
    ensures parent == parent' <==> children == children'
  {
    if children == children' {
      forall c ensures c in parent <==> c in parent' {
        ParentsFollowChildren(parent, children, c);
        ParentsFollowChildren(parent', children', c);
      }
      forall c | c in parent ensures parent[c] == parent'[c] {
        assert c in children'[parent[c]];
      }
    }
    if parent == parent' {
      forall p | p in children ensures children[p] == children'[p] {
        forall c ensures c in children[p] <==> c in children'[p] {
          assert c in children[p] <==> c in parent && parent[c] == p;
        }
      }
    }
  }

  /** The parent column after `id` gets exactly the children `ids`. */
  function AdoptedParents(parent: map<string, string>, id: string, ids: set<string>): map<string, string> {
    map c | c in parent.Keys + ids && (c in ids || parent[c] != id) :: if c in ids then id else parent[c]
  }

  /** Setting children gives the new ones this parent, takes it from the dropped ones and leaves all others alone. */
  lemma AdoptedParentsLinked(parent: map<string, string>, children: map<string, set<string>>, id: string,
      ids: set<string>, parent': map<string, string>)
    requires Linked(parent, children) && id in children && MayAdopt(parent, children, id, ids)
    ensures Linked(parent', Adopted(children, id, ids)) <==> parent' == AdoptedParents(parent, id, ids)
  {
    AdoptedLinked(parent, children, id, ids);
    if Linked(parent', Adopted(children, id, ids)) {
      EitherColumn(parent', Adopted(children, id, ids), AdoptedParents(parent, id, ids), Adopted(children, id, ids));
    }
  }

  lemma AdoptedLinked(parent: map<string, string>, children: map<string, set<string>>, id: string, ids: set<string>)
    requires Linked(parent, children) && id in children && MayAdopt(parent, children, id, ids)
    ensures Linked(AdoptedParents(parent, id, ids), Adopted(children, id, ids))
  {
    forall c | c in AdoptedParents(parent, id, ids) {
      AdoptedParentLinked(parent, children, id, ids, c);
    }
  }

  /** What the parent column says about one rule set, the collections say as well. */
  lemma AdoptedParentLinked(parent: map<string, string>, children: map<string, set<string>>, id: string,
      ids: set<string>, c: string)
    requires Linked(parent, children) && id in children && MayAdopt(parent, children, id, ids)
    requires c in AdoptedParents(parent, id, ids)
    ensures var p, now := AdoptedParents(parent, id, ids)[c], Adopted(children, id, ids);
            c in now && now[c] == {} && p in now && c in now[p] && p !in AdoptedParents(parent, id, ids)
  {
    if c !in ids {
      assert c in children[parent[c]];
    }
  }

  /** The rule set reached by following the parent column `n` times. */
  function Ancestor(parent: map<string, string>, c: string, n: nat): Option<string>
    decreases n
  {
    if n == 0 then Some(c)
    else if c in parent then Ancestor(parent, parent[c], n - 1)
    else None
  }

  /** No chain of parents has two links, so the hierarchy is a forest of depth at most one, without cycles. */
  lemma Acyclic(parent: map<string, string>, children: map<string, set<string>>, c: string, n: nat)
    requires Linked(parent, children)
    ensures n >= 2 ==> Ancestor(parent, c, n) == None
    ensures n >= 1 ==> Ancestor(parent, c, n) != Some(c)
  {
    if n >= 1 && c in parent {
      assert Ancestor(parent, c, n) == Ancestor(parent, parent[c], n - 1);
      assert c in children[parent[c]] && children[c] == {};
    }
  }
}
