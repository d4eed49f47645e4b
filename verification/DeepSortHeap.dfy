/** deep_sort and is_equal on the caller's own list and dict objects. */
module DeepSortHeap {
  import opened Collections
  import opened Sorting
  import opened Json
  import opened CanonicalForm
  import opened NestedEquality

  // ----- Python objects -----

  class PyList {
    var items: seq<Obj>

    constructor (items: seq<Obj>)
      ensures this.items == items
    {
      this.items := items;
    }
  }

  /** An insertion-ordered dict: `vals[i]` is stored under `keys[i]`. */
  class PyDict {
    var keys: seq<string>
    var vals: seq<Obj>

    constructor (keys: seq<string>, vals: seq<Obj>)
      ensures this.keys == keys && this.vals == vals
    {
      this.keys, this.vals := keys, vals;
    }
  }

  datatype Obj = Scalar(v: Value) | ListRef(l: PyList) | DictRef(d: PyDict)

  // ----- The value an object stands for -----

  /** The objects below an argument, as a tree, each node with all the objects of its subtree. */
  datatype Tree =
    | Leaf(v: Value)
    | ListAt(l: PyList, kids: seq<Tree>, objs: set<object>)
    | DictAt(d: PyDict, keys: seq<string>, kids: seq<Tree>, objs: set<object>)

  ghost function Objects(t: Tree): set<object> {
    if t.Leaf? then {} else t.objs
  }

  ghost predicate Apart(kids: seq<Tree>) {
    forall i, j :: 0 <= i < j < |kids| ==> Objects(kids[i]) !! Objects(kids[j])
  }

  /** `root` and the subtrees make up `objs` and share no object: no cycles and no aliasing. */
  ghost predicate Separated(root: object, kids: seq<Tree>, objs: set<object>) {
    && root in objs
    && Apart(kids)
    && forall i :: 0 <= i < |kids| ==> Objects(kids[i]) <= objs - {root}
  }

  /** In the current heap, `o` is the root of the tree `t`. */
  ghost predicate Holds(o: Obj, t: Tree)
    reads Objects(t)
    decreases t, 1
  {
    match t
    case Leaf(v) => o == Scalar(v) && !v.List? && !v.Dict?
    case ListAt(l, kids, objs) =>
      && o == ListRef(l)
      && Separated(l, kids, objs)
      && AllHold(l.items, kids, objs)
    case DictAt(d, keys, kids, objs) =>
      && o == DictRef(d)
      && Separated(d, kids, objs)
      && d.keys == keys && |keys| == |kids|
      && AllHold(d.vals, kids, objs)
  }

  ghost predicate AllHold(items: seq<Obj>, kids: seq<Tree>, objs: set<object>)
    reads objs
    decreases kids, 0
  {
    |items| == |kids| && forall i :: 0 <= i < |kids| ==> Objects(kids[i]) <= objs && Holds(items[i], kids[i])
  }

  ghost function ValueOf(t: Tree): Value
    decreases t, 1
  {
    match t
    case Leaf(v) => v
    case ListAt(_, kids, _) => List(ValuesOf(kids))
    case DictAt(_, keys, kids, _) => if |keys| == |kids| then Dict(EntriesOf(keys, kids)) else Null
  }

  ghost function ValuesOf(kids: seq<Tree>): (r: seq<Value>)
    ensures |r| == |kids|
    ensures forall i :: 0 <= i < |r| ==> r[i] == ValueOf(kids[i])
    decreases kids, 0
  {
    if kids == [] then [] else [ValueOf(kids[0])] + ValuesOf(kids[1..])
  }

  ghost function EntriesOf(keys: seq<string>, kids: seq<Tree>): (r: seq<Entry>)
    requires |keys| == |kids|
    ensures |r| == |kids|
    ensures forall i :: 0 <= i < |r| ==> r[i] == Entry(keys[i], ValueOf(kids[i]))
    decreases kids, 0
  {
    if kids == [] then [] else [Entry(keys[0], ValueOf(kids[0]))] + EntriesOf(keys[1..], kids[1..])
  }

  /** The nested value read off the heap, as json.dumps and `==` see it. */
  method Read(o: Obj, ghost t: Tree) returns (v: Value)
    requires Holds(o, t)
    ensures v == ValueOf(t)
    decreases t, 1
  {
    match o {
      case Scalar(w) =>
        v := w;
      case ListRef(l) =>
        var items := ReadAll(l.items, t.kids, t.objs);
        v := List(items);
      case DictRef(d) =>
        var keys := d.keys;
        var vals := ReadAll(d.vals, t.kids, t.objs);
        v := Dict(seq(|vals|, i requires 0 <= i < |vals| => Entry(keys[i], vals[i])));
        assert v.entries == EntriesOf(t.keys, t.kids);
    }
  }

  method ReadAll(items: seq<Obj>, ghost kids: seq<Tree>, ghost objs: set<object>) returns (r: seq<Value>)
    requires AllHold(items, kids, objs)
    ensures r == ValuesOf(kids)
    decreases kids, 0
  {
    r := [];
    for i := 0 to |items|
      invariant AllHold(items, kids, objs)
      invariant |r| == i && forall j :: 0 <= j < i ==> r[j] == ValueOf(kids[j])
    {
      var x := Read(items[i], kids[i]);
      r := r + [x];
    }
    assert r == ValuesOf(kids);
  }

  // ----- deep_sort -----

  /** Returns the sorted copy and says what the argument's own objects hold afterwards. */
  method DeepSort(o: Obj, ghost t: Tree) returns (r: Obj, ghost sorted: Tree, ghost after: Tree)
    requires Holds(o, t)
    modifies Objects(t)
    ensures Holds(r, sorted) && fresh(Objects(sorted)) && ValueOf(sorted) == Canon(ValueOf(t))
    ensures Holds(o, after) && fresh(Objects(after) - Objects(t)) && ValueOf(after) == InPlace(ValueOf(t))
    decreases t, 4
  {
    match o {
      case Scalar(_) => r, sorted, after := o, t, t;
      case ListRef(l) => r, sorted, after := DeepSortList(l, t);
      case DictRef(d) => r, sorted, after := DeepSortDict(d, t);
    }
  }

  method DeepSortList(l: PyList, ghost t: Tree) returns (r: Obj, ghost sorted: Tree, ghost after: Tree)
    requires t.ListAt? && Holds(ListRef(l), t)
    modifies Objects(t)
    ensures Holds(r, sorted) && fresh(Objects(sorted)) && ValueOf(sorted) == Canon(ValueOf(t))
    ensures Holds(ListRef(l), after) && fresh(Objects(after) - Objects(t)) && ValueOf(after) == InPlace(ValueOf(t))
    decreases t, 1
  {
    ghost var kids, objs := SortItems(l, t.kids, t.objs);
    after := ListAt(l, kids, objs + {l});
    ListHolds(l, kids, objs);
    assert Objects(after) - Objects(t) <= objs;
    r, sorted := SortedList(l, kids, objs);
    ghost var copied := Objects(sorted) - objs;
    assert fresh(objs + copied) && Objects(sorted) <= objs + copied;
    SortedListValues(t, kids, sorted, after);
  }

  lemma SortedListValues(t: Tree, kids: seq<Tree>, sorted: Tree, after: Tree)
    requires t.ListAt? && ValuesOf(kids) == CanonItems(ValuesOf(t.kids))
    requires ValueOf(sorted) == List(SortBy(Dumps, ValuesOf(kids)))
    requires after.ListAt? && after.kids == kids
    ensures ValueOf(sorted) == Canon(ValueOf(t)) && ValueOf(after) == InPlace(ValueOf(t))
  {
  }

  lemma ListHolds(l: PyList, kids: seq<Tree>, objs: set<object>)
    requires l !in objs && Apart(kids) && AllHold(l.items, kids, objs)
    ensures Holds(ListRef(l), ListAt(l, kids, objs + {l}))
  {
  }

  /** `for i, v in enumerate(obj): obj[i] = deep_sort(v)`, in the caller's list. */
  method SortItems(l: PyList, ghost kids: seq<Tree>, ghost objs: set<object>)
    returns (ghost done: seq<Tree>, ghost newObjs: set<object>)
    requires Separated(l, kids, objs) && AllHold(l.items, kids, objs)
    modifies objs
    ensures Apart(done) && AllHold(l.items, done, newObjs) && fresh(newObjs)
    ensures ValuesOf(done) == CanonItems(ValuesOf(kids))
    decreases kids, 2
  {
    done, newObjs := [], {};
    var i := 0;
    while i < |l.items|
      invariant i <= |l.items| && fresh(newObjs) && newObjs !! objs
      invariant Half(l.items, i, kids, done, objs, newObjs)
    {
      done, newObjs := SortItem(l, i, kids, objs, done, newObjs);
      i := i + 1;
    }
    assert l.items[..i] == l.items;
  }

  /** The first `i` objects are sorted copies, built from `newObjs`; the others are as they were. */
  ghost predicate Half(items: seq<Obj>, i: nat, kids: seq<Tree>, done: seq<Tree>, objs: set<object>,
      newObjs: set<object>)
    requires i <= |items|
    reads objs, newObjs
  {
    && |items| == |kids|
    && SortedUpTo(items, i, kids, done, newObjs)
    && UntouchedFrom(items, i, kids, objs)
  }

  ghost predicate SortedUpTo(items: seq<Obj>, i: nat, kids: seq<Tree>, done: seq<Tree>, newObjs: set<object>)
    requires i <= |items| == |kids|
    reads newObjs
  {
    && |done| == i && Apart(done) && AllHold(items[..i], done, newObjs)
    && forall j :: 0 <= j < i ==> ValueOf(done[j]) == Canon(ValueOf(kids[j]))
  }

  ghost predicate UntouchedFrom(items: seq<Obj>, i: nat, kids: seq<Tree>, objs: set<object>)
    requires i <= |items| == |kids|
    reads objs
  {
    forall j :: i <= j < |kids| ==> Objects(kids[j]) <= objs && Holds(items[j], kids[j])
  }

  method SortItem(l: PyList, i: nat, ghost kids: seq<Tree>, ghost objs: set<object>, ghost done: seq<Tree>,
      ghost oldObjs: set<object>)
    returns (ghost done': seq<Tree>, ghost newObjs: set<object>)
    requires i < |l.items| && Separated(l, kids, objs) && oldObjs !! objs
    requires Half(l.items, i, kids, done, objs, oldObjs)
    modifies objs
    ensures |l.items| == old(|l.items|) && fresh(newObjs - oldObjs) && newObjs !! objs
    ensures Half(l.items, i + 1, kids, done', objs, newObjs)
    decreases kids, 1
  {
    ghost var items := l.items;
    ghost var x := ReplaceItem(l, i, kids[i]);
    assert SortedUpTo(items, i, kids, done, oldObjs);
    assert UntouchedFrom(items, i + 1, kids, objs);
    done', newObjs := done + [x], oldObjs + Objects(x);
    SortedOneMore(items, l.items, i, kids, done, oldObjs, x, newObjs);
  }

  /** `obj[i] = deep_sort(v)` when v is a container */
  method ReplaceItem(l: PyList, i: nat, ghost kid: Tree) returns (ghost x: Tree)
    requires i < |l.items| && Holds(l.items[i], kid) && l !in Objects(kid)
    modifies l, Objects(kid)
    ensures |l.items| == old(|l.items|) && l.items == old(l.items)[i := l.items[i]]
    ensures Holds(l.items[i], x) && fresh(Objects(x)) && ValueOf(x) == Canon(ValueOf(kid))
    decreases kid, 5
  {
    x := kid;
    if !l.items[i].Scalar? {
      var r;
      ghost var after;
      r, x, after := DeepSort(l.items[i], kid);
      assert l !in Objects(x);
      l.items := l.items[i := r];
    }
  }

  lemma SortedOneMore(was: seq<Obj>, items: seq<Obj>, i: nat, kids: seq<Tree>, done: seq<Tree>, objs: set<object>,
      x: Tree, all: set<object>)
    requires i < |was| == |items| == |kids| && items == was[i := items[i]]
    requires SortedUpTo(was, i, kids, done, objs)
    requires Holds(items[i], x) && Objects(x) !! objs && ValueOf(x) == Canon(ValueOf(kids[i]))
    requires objs + Objects(x) <= all
    ensures SortedUpTo(items, i + 1, kids, done + [x], all)
  {
    assert was[..i] == items[..i] && items[..i + 1] == items[..i] + [items[i]];
    AppendHold(items[..i], done, objs, items[i], x, all);
  }

  lemma AppendHold(items: seq<Obj>, kids: seq<Tree>, objs: set<object>, o: Obj, x: Tree, all: set<object>)
    requires Apart(kids) && AllHold(items, kids, objs)
    requires Holds(o, x) && Objects(x) !! objs
    requires objs + Objects(x) <= all
    ensures Apart(kids + [x]) && AllHold(items + [o], kids + [x], all)
  {
  }

  /** The positions of the items in the order of their JSON texts. */
  method OrderOfTexts(items: seq<Obj>, ghost kids: seq<Tree>, ghost objs: set<object>) returns (order: seq<nat>)
    requires AllHold(items, kids, objs)
    ensures IsPermutation(order, |kids|) && Pick(ValuesOf(kids), order) == SortBy(Dumps, ValuesOf(kids))
  {
    var values := ReadAll(items, kids, objs);
    var texts := seq(|values|, i requires 0 <= i < |values| => Dumps(values[i]));
    order := SortOrder(texts);
    SortOrderSorts(Dumps, values, texts);
  }

  /** `sorted(obj, key=dumps)`, on a list that stays as it is */
  method SortedList(l: PyList, ghost kids: seq<Tree>, ghost objs: set<object>) returns (r: Obj, ghost sorted: Tree)
    requires Apart(kids) && AllHold(l.items, kids, objs)
    ensures Holds(r, sorted) && fresh(Objects(sorted) - objs)
    ensures ValueOf(sorted) == List(SortBy(Dumps, ValuesOf(kids)))
  {
    var order := OrderOfTexts(l.items, kids, objs);
    PickHold(l.items, kids, objs, order);
    var s := new PyList(Pick(l.items, order));
    ListHolds(s, Pick(kids, order), objs);
    r, sorted := ListRef(s), ListAt(s, Pick(kids, order), objs + {s});
  }

  /** Reordering the objects and their trees together. */
  lemma PickHold(items: seq<Obj>, kids: seq<Tree>, objs: set<object>, p: seq<nat>)
    requires Apart(kids) && AllHold(items, kids, objs) && IsPermutation(p, |kids|)
    ensures Apart(Pick(kids, p)) && AllHold(Pick(items, p), Pick(kids, p), objs)
    ensures ValuesOf(Pick(kids, p)) == Pick(ValuesOf(kids), p)
  {
    var ks := Pick(kids, p);
    forall i, j | 0 <= i < j < |ks| ensures Objects(ks[i]) !! Objects(ks[j]) {
      assert p[i] < p[j] || p[j] < p[i];
    }
  }

  // ----- Dicts -----

  /** `obj = OrderedDict(sorted(obj.items()))`, then `obj[k] = deep_sort(v)` for each item, in sorted order. */
  method DeepSortDict(d: PyDict, ghost t: Tree) returns (r: Obj, ghost sorted: Tree, ghost after: Tree)
    requires t.DictAt? && Holds(DictRef(d), t)
    modifies Objects(t)
    ensures Holds(r, sorted) && fresh(Objects(sorted)) && ValueOf(sorted) == Canon(ValueOf(t))
    ensures Holds(DictRef(d), after) && fresh(Objects(after) - Objects(t)) && ValueOf(after) == InPlace(ValueOf(t))
    decreases t, 3
  {
    var order := SortOrder(d.keys);
    var s := new PyDict(Pick(d.keys, order), Pick(d.vals, order));
    ghost var left, done, newObjs := SortVals(d, s, t, order);
    ghost var copy := newObjs + {s};
    assert fresh(copy);
    r, sorted := DictRef(s), DictAt(s, s.keys, done, copy);
    after := DictAt(d, t.keys, left, t.objs + newObjs);
    SortedDict(d, s, t, order, left, done, newObjs, sorted, after);
  }

  /** The first `k` values of the copy `s` are sorted; the others are still those of the caller's dict. */
  ghost predicate CopyUpTo(d: PyDict, s: PyDict, k: nat, t: Tree, order: seq<nat>, done: seq<Tree>,
      newObjs: set<object>)
    reads d, s, newObjs
  {
    && t.DictAt? && |t.keys| == |t.kids| && |d.vals| == |t.kids| && IsPermutation(order, |t.kids|) && k <= |order|
    && s.keys == Pick(t.keys, order) && |s.vals| == |order|
    && s !in newObjs
    && SortedUpTo(s.vals, k, Pick(t.kids, order), done, newObjs)
    && forall j :: k <= j < |order| ==> s.vals[j] == d.vals[order[j]]
  }

  /** What the caller's dict holds after the values of the first `k` items, in sorted order, were sorted. */
  ghost predicate LeftUpTo(d: PyDict, k: nat, t: Tree, order: seq<nat>, left: seq<Tree>, newObjs: set<object>)
    reads d, if t.DictAt? then t.objs else {}, newObjs
  {
    LeftShape(d, k, t, order, left, newObjs) && AllHold(d.vals, left, t.objs + newObjs - {d})
  }

  ghost predicate LeftShape(d: PyDict, k: nat, t: Tree, order: seq<nat>, left: seq<Tree>, newObjs: set<object>)
    reads d
  {
    && t.DictAt? && |t.keys| == |t.kids| == |left| == |d.vals| && IsPermutation(order, |t.kids|) && k <= |order|
    && d.keys == t.keys && d in t.objs && d !in newObjs && newObjs !! t.objs
    && Apart(left) && (forall j :: 0 <= j < |left| ==> Objects(left[j]) <= t.objs + newObjs - {d})
    && (forall j :: 0 <= j < k ==> ValueOf(left[order[j]]) == InPlace(ValueOf(t.kids[order[j]])))
    && (forall j :: k <= j < |order| ==> left[order[j]] == t.kids[order[j]] && Objects(left[order[j]]) <= t.objs - {d})
  }

  method SortVals(d: PyDict, s: PyDict, ghost t: Tree, ghost order: seq<nat>)
    returns (ghost left: seq<Tree>, ghost done: seq<Tree>, ghost newObjs: set<object>)
    requires t.DictAt? && Holds(DictRef(d), t) && s !in t.objs
    requires IsPermutation(order, |t.kids|) && |t.keys| == |d.vals| == |t.kids|
    requires s.keys == Pick(t.keys, order) && s.vals == Pick(d.vals, order)
    modifies t.objs, s
    ensures fresh(newObjs) && d.keys == t.keys
    ensures CopyUpTo(d, s, |order|, t, order, done, newObjs) && LeftUpTo(d, |order|, t, order, left, newObjs)
    decreases t, 2
  {
    left, done, newObjs := t.kids, [], {};
    var k := 0;
    while k < |s.vals|
      invariant k <= |s.vals| == |order| && fresh(newObjs)
      invariant CopyUpTo(d, s, k, t, order, done, newObjs)
      invariant LeftUpTo(d, k, t, order, left, newObjs)
    {
      left, done, newObjs := SortVal(d, s, k, t, order, left, done, newObjs);
      k := k + 1;
    }
  }

  /** `obj[k] = deep_sort(v)`, where `s` is the new OrderedDict and `d` the caller's dict. */
  method SortVal(d: PyDict, s: PyDict, k: nat, ghost t: Tree, ghost order: seq<nat>, ghost left: seq<Tree>,
      ghost done: seq<Tree>, ghost oldObjs: set<object>)
    returns (ghost left': seq<Tree>, ghost done': seq<Tree>, ghost newObjs: set<object>)
    requires k < |order| && CopyUpTo(d, s, k, t, order, done, oldObjs) && LeftUpTo(d, k, t, order, left, oldObjs)
    requires s !in t.objs
    modifies t.objs, s
    ensures |s.vals| == old(|s.vals|) && fresh(newObjs - oldObjs)
    ensures CopyUpTo(d, s, k + 1, t, order, done', newObjs) && LeftUpTo(d, k + 1, t, order, left', newObjs)
    decreases t, 1
  {
    ghost var kid, vals := t.kids[order[k]], s.vals;
    ghost var x, a := ReplaceValIn(d, s, k, kid, left, order[k]);
    left', done' := left[order[k] := a], done + [x];
    ghost var more := Objects(x) + (Objects(a) - t.objs);
    assert Objects(kid) <= t.objs && fresh(more);
    newObjs := oldObjs + more;
    assert SortedUpTo(vals, k, Pick(t.kids, order), done, oldObjs);
    CopyOneMore(d, s, vals, k, t, order, done, oldObjs, x, newObjs);
    LeftOneMore(d, k, t, order, left, oldObjs, a, newObjs);
  }

  lemma CopyOneMore(d: PyDict, s: PyDict, vals: seq<Obj>, k: nat, t: Tree, order: seq<nat>, done: seq<Tree>,
      objs: set<object>, x: Tree, all: set<object>)
    requires t.DictAt? && |t.keys| == |t.kids| == |d.vals| && IsPermutation(order, |t.kids|) && k < |order|
    requires s.keys == Pick(t.keys, order) && |s.vals| == |vals| == |order| && s.vals == vals[k := s.vals[k]]
    requires SortedUpTo(vals, k, Pick(t.kids, order), done, objs)
    requires forall j :: k <= j < |order| ==> vals[j] == d.vals[order[j]]
    requires Holds(s.vals[k], x) && Objects(x) !! objs && ValueOf(x) == Canon(ValueOf(t.kids[order[k]]))
    requires objs + Objects(x) <= all && s !in all
    ensures CopyUpTo(d, s, k + 1, t, order, done + [x], all)
  {
    SortedOneMore(vals, s.vals, k, Pick(t.kids, order), done, objs, x, all);
  }

  lemma LeftOneMore(d: PyDict, k: nat, t: Tree, order: seq<nat>, left: seq<Tree>, objs: set<object>, a: Tree,
      all: set<object>)
    requires LeftShape(d, k, t, order, left, objs) && k < |order|
    requires forall j :: 0 <= j < |left| && j != order[k] ==> Holds(d.vals[j], left[j])
    requires Holds(d.vals[order[k]], a) && ValueOf(a) == InPlace(ValueOf(t.kids[order[k]]))
    requires Objects(a) - t.objs <= all && objs <= all && d !in all && all !! t.objs
    requires Objects(a) <= Objects(left[order[k]]) + all && (Objects(a) - t.objs) !! objs
    ensures LeftUpTo(d, k + 1, t, order, left[order[k] := a], all)
  {
    LeftWithin(d, k, t, order, left, objs, a, all);
    LeftApart(d, k, t, order, left, objs, a, all);
    LeftValues(d, k, t, order, left, objs, a);
    var now := left[order[k] := a];
    forall j | 0 <= j < |now| ensures Holds(d.vals[j], now[j]) {
    }
  }

  /** The objects of all subtrees afterwards. */
  lemma LeftWithin(d: PyDict, k: nat, t: Tree, order: seq<nat>, left: seq<Tree>, objs: set<object>, a: Tree,
      all: set<object>)
    requires LeftShape(d, k, t, order, left, objs) && k < |order|
    requires objs <= all && d !in all && Objects(a) <= Objects(left[order[k]]) + all
    ensures var now := left[order[k] := a];
            forall j :: 0 <= j < |now| ==> Objects(now[j]) <= t.objs + all - {d}
  {
    var now := left[order[k] := a];
    forall j | 0 <= j < |left| ensures Objects(now[j]) <= t.objs + all - {d} {
      assert Objects(left[j]) <= t.objs + objs - {d};
    }
  }

  lemma LeftApart(d: PyDict, k: nat, t: Tree, order: seq<nat>, left: seq<Tree>, objs: set<object>, a: Tree,
      all: set<object>)
    requires LeftShape(d, k, t, order, left, objs) && k < |order|
    requires all !! t.objs && Objects(a) <= Objects(left[order[k]]) + all && (Objects(a) - t.objs) !! objs
    ensures Apart(left[order[k] := a])
  {
    var now := left[order[k] := a];
    forall j | 0 <= j < |left| && j != order[k] ensures Objects(left[j]) !! Objects(a) {
      assert Objects(left[j]) !! Objects(left[order[k]]);
      assert Objects(left[j]) <= t.objs + objs - {d};
    }
  }

  lemma LeftValues(d: PyDict, k: nat, t: Tree, order: seq<nat>, left: seq<Tree>, objs: set<object>, a: Tree)
    requires LeftShape(d, k, t, order, left, objs) && k < |order|
    requires ValueOf(a) == InPlace(ValueOf(t.kids[order[k]]))
    ensures forall j :: 0 <= j < |order| && j != k ==> order[j] != order[k]
    ensures var now := left[order[k] := a];
            forall j :: 0 <= j < k + 1 ==> ValueOf(now[order[j]]) == InPlace(ValueOf(t.kids[order[j]]))
  {
  }

  /** Only the objects below the replaced value change, so the caller's other values hold what they did. */
  method ReplaceValIn(d: PyDict, s: PyDict, k: nat, ghost kid: Tree, ghost left: seq<Tree>, ghost hole: nat)
    returns (ghost x: Tree, ghost after: Tree)
    requires k < |s.vals| && Holds(s.vals[k], kid) && s !in Objects(kid) && d != s && d !in Objects(kid)
    requires |left| == |d.vals| && hole < |left| && left[hole] == kid && Apart(left)
    requires forall j :: 0 <= j < |left| ==> Holds(d.vals[j], left[j]) && s !in Objects(left[j])
    modifies s`vals, Objects(kid)
    ensures |s.vals| == old(|s.vals|) && s.vals == old(s.vals)[k := s.vals[k]]
    ensures Holds(s.vals[k], x) && fresh(Objects(x)) && ValueOf(x) == Canon(ValueOf(kid))
    ensures Holds(old(s.vals[k]), after) && fresh(Objects(after) - Objects(kid))
    ensures ValueOf(after) == InPlace(ValueOf(kid))
    ensures d.vals == old(d.vals) && d.keys == old(d.keys)
    ensures forall j :: 0 <= j < |left| && j != hole ==> Holds(d.vals[j], left[j])
    decreases kid, 6
  {
    ghost var vals := d.vals;
    ghost var others := set j, o | 0 <= j < |left| && j != hole && o in Objects(left[j]) :: o;
    forall j | 0 <= j < |left| && j != hole ensures Objects(left[j]) !! Objects(kid) {
      assert Objects(left[j]) !! Objects(left[hole]);
    }
    assert AllBut(vals, left, hole, others);
    x, after := ReplaceVal(s, k, kid);
    assert AllBut(vals, left, hole, others);
  }

  /** All values but the one in the hole hold what their trees say, on objects of `objs`. */
  ghost predicate AllBut(vals: seq<Obj>, left: seq<Tree>, hole: nat, objs: set<object>)
    reads objs
  {
    |vals| == |left| && forall j :: 0 <= j < |left| && j != hole ==> Objects(left[j]) <= objs && Holds(vals[j], left[j])
  }

  method ReplaceVal(s: PyDict, k: nat, ghost kid: Tree) returns (ghost x: Tree, ghost after: Tree)
    requires k < |s.vals| && Holds(s.vals[k], kid) && s !in Objects(kid)
    modifies s`vals, Objects(kid)
    ensures |s.vals| == old(|s.vals|) && s.vals == old(s.vals)[k := s.vals[k]]
    ensures Holds(s.vals[k], x) && fresh(Objects(x)) && ValueOf(x) == Canon(ValueOf(kid))
    ensures Holds(old(s.vals[k]), after) && fresh(Objects(after) - Objects(kid))
            && ValueOf(after) == InPlace(ValueOf(kid))
    decreases kid, 5
  {
    x, after := kid, kid;
    if !s.vals[k].Scalar? {
      var r;
      r, x, after := DeepSort(s.vals[k], kid);
      PutVal(s, k, r, x, s.vals[k], after);
    }
  }

  /** `obj[k] = r`; what other trees hold is untouched. */
  method PutVal(s: PyDict, k: nat, r: Obj, ghost x: Tree, ghost was: Obj, ghost after: Tree)
    requires k < |s.vals| && Holds(r, x) && Holds(was, after) && s !in Objects(x) && s !in Objects(after)
    modifies s`vals
    ensures s.vals == old(s.vals)[k := r] && Holds(r, x) && Holds(was, after)
  {
    s.vals := s.vals[k := r];
  }

  lemma SortedDict(d: PyDict, s: PyDict, t: Tree, order: seq<nat>, left: seq<Tree>, done: seq<Tree>,
      newObjs: set<object>, sorted: Tree, after: Tree)
    requires CopyUpTo(d, s, |order|, t, order, done, newObjs) && LeftUpTo(d, |order|, t, order, left, newObjs)
    requires order == SortOrder(t.keys)
    requires sorted == DictAt(s, s.keys, done, newObjs + {s}) && after == DictAt(d, t.keys, left, t.objs + newObjs)
    ensures Holds(DictRef(s), sorted) && ValueOf(sorted) == Canon(ValueOf(t))
    ensures Holds(DictRef(d), after) && ValueOf(after) == InPlace(ValueOf(t))
  {
    SortedDictHolds(d, s, t, order, left, done, newObjs);
    SortedDictValues(t, order, done, s.keys);
    LeftDictValues(t, order, left, after);
  }

  lemma LeftDictValues(t: Tree, order: seq<nat>, left: seq<Tree>, after: Tree)
    requires t.DictAt? && |t.keys| == |t.kids| == |left| && order == SortOrder(t.keys)
    requires forall j :: 0 <= j < |order| ==> ValueOf(left[order[j]]) == InPlace(ValueOf(t.kids[order[j]]))
    requires after.DictAt? && after.keys == t.keys && after.kids == left
    ensures ValueOf(after) == InPlace(ValueOf(t))
  {
    LeftEntries(t.keys, t.kids, order, left);
  }

  lemma SortedDictValues(t: Tree, order: seq<nat>, done: seq<Tree>, keys: seq<string>)
    requires t.DictAt? && |t.keys| == |t.kids| == |done| && order == SortOrder(t.keys) && keys == Pick(t.keys, order)
    requires forall j :: 0 <= j < |order| ==> ValueOf(done[j]) == Canon(ValueOf(t.kids[order[j]]))
    ensures Dict(EntriesOf(keys, done)) == Canon(ValueOf(t))
  {
    SortedEntriesInOrder(t.keys, CanonEntries(EntriesOf(t.keys, t.kids)), order, done);
  }

  lemma SortedDictHolds(d: PyDict, s: PyDict, t: Tree, order: seq<nat>, left: seq<Tree>, done: seq<Tree>,
      newObjs: set<object>)
    requires CopyUpTo(d, s, |order|, t, order, done, newObjs) && LeftUpTo(d, |order|, t, order, left, newObjs)
    ensures Holds(DictRef(s), DictAt(s, s.keys, done, newObjs + {s}))
    ensures Holds(DictRef(d), DictAt(d, t.keys, left, t.objs + newObjs))
  {
    assert s.vals[..|order|] == s.vals;
  }

  /** `es` sorted by key, when `done` holds its values in that order. */
  lemma SortedEntriesInOrder(keys: seq<string>, es: seq<Entry>, order: seq<nat>, done: seq<Tree>)
    requires |keys| == |es| == |done| && order == SortOrder(keys)
    requires forall i :: 0 <= i < |es| ==> keys[i] == es[i].key
    requires forall j :: 0 <= j < |order| ==> ValueOf(done[j]) == es[order[j]].val
    ensures EntriesOf(Pick(keys, order), done) == SortBy(KeyOf, es)
  {
    SortOrderSorts(KeyOf, es, keys);
    assert EntriesOf(Pick(keys, order), done) == Pick(es, order);
  }

  lemma LeftEntries(keys: seq<string>, kids: seq<Tree>, order: seq<nat>, left: seq<Tree>)
    requires |keys| == |kids| == |left| && Within(order, |kids|) && forall i :: 0 <= i < |kids| ==> i in order
    requires forall j :: 0 <= j < |order| ==> ValueOf(left[order[j]]) == InPlace(ValueOf(kids[order[j]]))
    ensures EntriesOf(keys, left) == InPlaceEntries(EntriesOf(keys, kids))
  {
    forall i | 0 <= i < |left| ensures ValueOf(left[i]) == InPlace(ValueOf(kids[i])) {
      assert i in order;
    }
  }

  // ----- is_equal -----

  /** Compares two unconnected arguments; both are partly sorted in place on the way. */
  method Compare(a: Obj, b: Obj, ghost ta: Tree, ghost tb: Tree)
    returns (equal: bool, ghost afterA: Tree, ghost afterB: Tree, ghost newObjs: set<object>)
    requires Holds(a, ta) && Holds(b, tb) && Objects(ta) !! Objects(tb)
    modifies Objects(ta) + Objects(tb)
    ensures equal == IsEqual(ValueOf(ta), ValueOf(tb))
    ensures Holds(a, afterA) && ValueOf(afterA) == InPlace(ValueOf(ta))
    ensures Holds(b, afterB) && ValueOf(afterB) == InPlace(ValueOf(tb))
    ensures Objects(afterA) !! Objects(afterB) && fresh(newObjs)
    ensures Objects(afterA) <= Objects(ta) + newObjs && Objects(afterB) <= Objects(tb) + newObjs
  {
    var x, y;
    x, y, afterA, afterB, newObjs := SortedValues(a, b, ta, tb);
    equal := PyEq(x, y);
  }

  /** The two sorted results, one after the other. */
  method SortedValues(a: Obj, b: Obj, ghost ta: Tree, ghost tb: Tree)
    returns (x: Value, y: Value, ghost afterA: Tree, ghost afterB: Tree, ghost newObjs: set<object>)
    requires Holds(a, ta) && Holds(b, tb) && Objects(ta) !! Objects(tb)
    modifies Objects(ta) + Objects(tb)
    ensures x == Canon(ValueOf(ta)) && y == Canon(ValueOf(tb))
    ensures Holds(a, afterA) && ValueOf(afterA) == InPlace(ValueOf(ta))
    ensures Holds(b, afterB) && ValueOf(afterB) == InPlace(ValueOf(tb))
    ensures Objects(afterA) !! Objects(afterB) && fresh(newObjs)
    ensures Objects(afterA) <= Objects(ta) + newObjs && Objects(afterB) <= Objects(tb) + newObjs
  {
    ghost var newA, newB;
    x, afterA, newA := SortedValue(a, ta, b, tb);
    y, afterB, newB := SortedValue(b, tb, a, afterA);
    newObjs := newA + newB;
  }

  /** The value of deep_sort's result; an unconnected object stays as it is. */
  method SortedValue(o: Obj, ghost t: Tree, ghost other: Obj, ghost u: Tree)
    returns (v: Value, ghost after: Tree, ghost newObjs: set<object>)
    requires Holds(o, t) && Holds(other, u) && Objects(t) !! Objects(u)
    modifies Objects(t)
    ensures v == Canon(ValueOf(t))
    ensures Holds(o, after) && ValueOf(after) == InPlace(ValueOf(t))
    ensures fresh(newObjs) && Objects(after) <= Objects(t) + newObjs
    ensures Holds(other, u) && Objects(after) !! Objects(u)
  {
    assert allocated(Objects(u));
    var r;
    ghost var sorted;
    r, sorted, after, newObjs := DeepSortNew(o, t);
    v := Read(r, sorted);
  }

  /** DeepSort, with the objects that are new in the argument. */
  method DeepSortNew(o: Obj, ghost t: Tree)
    returns (r: Obj, ghost sorted: Tree, ghost after: Tree, ghost newObjs: set<object>)
    requires Holds(o, t)
    modifies Objects(t)
    ensures Holds(r, sorted) && ValueOf(sorted) == Canon(ValueOf(t))
    ensures Holds(o, after) && ValueOf(after) == InPlace(ValueOf(t))
    ensures fresh(newObjs) && Objects(after) <= Objects(t) + newObjs
  {
    r, sorted, after := DeepSort(o, t);
    newObjs := Objects(after) - Objects(t);
  }

  /** Asking twice about the same objects gives the same answer, though the first call changed them. */
  method CompareTwice(a: Obj, b: Obj, ghost ta: Tree, ghost tb: Tree) returns (first: bool, second: bool)
    requires Holds(a, ta) && Holds(b, tb) && Objects(ta) !! Objects(tb)
    modifies Objects(ta) + Objects(tb)
    ensures first == second == IsEqual(ValueOf(ta), ValueOf(tb))
  {
    ghost var ta', tb', ta'', tb'', newObjs;
    first, ta', tb', newObjs := Compare(a, b, ta, tb);
    second, ta'', tb'', newObjs := Compare(a, b, ta', tb');
    IsEqualStable(ValueOf(ta), ValueOf(tb));
  }
}
