/** The rule set hierarchy of the resource store, seen through the two linked columns of the database. */
module RuleSetColumns {
  import opened Collections
  import opened Resources
  import opened ResourceRuns
  import opened RuleSetHierarchy

  /** The parent column: the rule sets that have a parent. */
  ghost function ParentColumn(s: Store): map<string, string> {
    map i | i in s && Links(s[i], ParentId) != {} :: ParentOf(s[i])
  }

  ghost function ParentOf(r: Resource): (p: string)
    requires Links(r, ParentId) != {}
    ensures p in Links(r, ParentId)
  {
    var p :| p in Links(r, ParentId);
    p
  }

  /** The collection of children of every rule set. */
  function ChildrenColumn(s: Store): map<string, set<string>> {
    map i | i in s && s[i].kind == PolicyRuleSet :: Children(s, i)
  }

  /** In every reachable store the two columns are linked as the database keeps them. */
  lemma ReachableLinked(steps: seq<Step>)
    ensures Linked(ParentColumn(Run(map[], steps)), ChildrenColumn(Run(map[], steps)))
  {
    ReachableInv(steps);
    ColumnsLinked(Run(map[], steps));
  }

  lemma ColumnsLinked(s: Store)
    requires Inv(s)
    ensures Linked(ParentColumn(s), ChildrenColumn(s))
  {
    var parent, children := ParentColumn(s), ChildrenColumn(s);
    forall c | c in parent
      ensures c in children && parent[c] in children && c in children[parent[c]] && children[c] == {}
    {
      ParentInStore(s, c);
    }
    forall c | c in parent ensures parent[c] !in parent {
      ParentInStore(s, c);
    }
  }

  lemma ParentInStore(s: Store, c: string)
    requires Inv(s) && c in s && Links(s[c], ParentId) != {}
    ensures var p := ParentOf(s[c]);
            && s[c].kind == PolicyRuleSet && p in s && s[p].kind == PolicyRuleSet && Links(s[p], ParentId) == {}
            && Children(s, c) == {}
  {
    forall x | x in s ensures c !in Links(s[x], ParentId) {
    }
  }

  /** What the store accepts as children is what the columns accept, if the caller can see them. */
  lemma SameChildrenAccepted(s: Store, c: Context, id: string, ids: set<string>)
    requires Inv(s) && id in s && s[id].kind == PolicyRuleSet
    ensures ChildrenAccepted(s, c, id, ids) <==>
            MayAdopt(ParentColumn(s), ChildrenColumn(s), id, ids)
            && (ids == {} || forall i :: i in ids && i in s ==> Visible(c, s[i]))
  {
  }

  /** Setting children in the store is what the database's two assignments do to the columns. */
  lemma SetChildrenInColumns(s: Store, c: Context, id: string, ids: set<string>)
    requires Inv(s) && id in s && s[id].kind == PolicyRuleSet && ChildrenAccepted(s, c, id, ids)
    ensures ChildrenColumn(SetChildren(s, id, ids)) == Adopted(ChildrenColumn(s), id, ids)
  {
    SetChildrenParents(s, id, ids);
    AdoptedInColumns(s, id, ids, SetChildren(s, id, ids));
  }

  lemma AdoptedInColumns(s: Store, id: string, ids: set<string>, t: Store)
    requires Inv(s) && id in s && s[id].kind == PolicyRuleSet && ids <= s.Keys && SameButParents(s, t)
    requires forall i :: i in s ==> Links(t[i], ParentId) == ParentAfter(s, id, ids, i)
    ensures ChildrenColumn(t) == Adopted(ChildrenColumn(s), id, ids)
  {
    forall p | p in s && s[p].kind == PolicyRuleSet
      ensures Children(t, p) == if p == id then ids else Children(s, p) - ids
    {
      ChildrenAfter(s, id, ids, t, p);
    }
    ColumnOf(s, id, ids, t);
  }

  lemma ColumnOf(s: Store, id: string, ids: set<string>, t: Store)
    requires id in s && s[id].kind == PolicyRuleSet && t.Keys == s.Keys && forall i :: i in s ==> t[i].kind == s[i].kind
    requires forall p :: p in s && s[p].kind == PolicyRuleSet ==>
            Children(t, p) == if p == id then ids else Children(s, p) - ids
    ensures ChildrenColumn(t) == Adopted(ChildrenColumn(s), id, ids)
  {
  }

  lemma ChildrenAfter(s: Store, id: string, ids: set<string>, t: Store, p: string)
    requires Inv(s) && id in s && p in s && ids <= s.Keys && SameButParents(s, t)
    requires forall i :: i in s ==> Links(t[i], ParentId) == ParentAfter(s, id, ids, i)
    ensures Children(t, p) == if p == id then ids else Children(s, p) - ids
  {
    forall i | i in s ensures i in Children(t, p) <==> if p == id then i in ids else i in Children(s, p) - ids {
      ChildAfter(s, id, ids, t, p, i);
    }
  }

  lemma ChildAfter(s: Store, id: string, ids: set<string>, t: Store, p: string, i: string)
    requires Inv(s) && id in s && i in s && p in s && SameButParents(s, t)
    requires Links(t[i], ParentId) == ParentAfter(s, id, ids, i)
    ensures i in Children(t, p) <==> if p == id then i in ids else i in Children(s, p) - ids
  {
  }
}
