/** The dependency worklist of extend_resources in gbpservice/neutron/extensions/patch.py. */
module ExtendResources {
  import opened Collections

  /** Attribute definitions, by resource and attribute name. */
  type AttrMap = map<string, map<string, string>>

  datatype Extension = Extension(required: set<string>, optional: set<string>, resources: AttrMap)

  type Registry = map<string, Extension>

  /** `order` is an iteration order of the dictionary `exts`. */
  predicate Orders(order: seq<string>, exts: Registry) {
    NoDuplicates(order) && Names(order) == exts.Keys
  }

  // ----- The reference notion: the least closed set -----

  function Needs(e: Extension, withOptionals: bool): set<string> {
    e.required + if withOptionals then e.optional else {}
  }

  /** Every extension whose needs are in `s` is itself in `s`. */
  ghost predicate Closed(exts: Registry, withOptionals: bool, s: set<string>) {
    forall n :: n in exts && Needs(exts[n], withOptionals) <= s ==> n in s
  }

  ghost predicate IsLeastClosed(exts: Registry, withOptionals: bool, s: set<string>) {
    && Closed(exts, withOptionals, s)
    && forall u: set<string> :: Closed(exts, withOptionals, u) ==> s <= u
  }

  /** Each extension comes strictly after everything it needs. */
  ghost predicate InOrder(exts: Registry, withOptionals: bool, xs: seq<string>) {
    forall i :: 0 <= i < |xs| ==> xs[i] in exts && Needs(exts[xs[i]], withOptionals) <= Names(xs[..i])
  }

  lemma {:induction false} InOrderIsBelowClosed(exts: Registry, withOptionals: bool, xs: seq<string>, u: set<string>)
    requires InOrder(exts, withOptionals, xs) && Closed(exts, withOptionals, u)
    ensures Names(xs) <= u
  {
    if xs != [] {
      var k := |xs| - 1;
      forall i | 0 <= i < k
        ensures xs[..k][i] in exts && Needs(exts[xs[..k][i]], withOptionals) <= Names(xs[..k][..i])
      {
        assert xs[..k][..i] == xs[..i];
      }
      InOrderIsBelowClosed(exts, withOptionals, xs[..k], u);
      assert xs == xs[..k] + [xs[k]];
    }
  }

  // ----- Merging the attribute definitions -----

  /** `attr_map.setdefault(res, {}).update(resource_attrs)` for every resource of an extension. */
  function Merge(attrs: AttrMap, resources: AttrMap): (r: AttrMap) {
    map res | res in attrs.Keys + resources.Keys ::
      (if res in attrs then attrs[res] else map[]) + (if res in resources then resources[res] else map[])
  }

  function MergeAll(attrs: AttrMap, exts: Registry, xs: seq<string>): AttrMap
    requires forall x :: x in xs ==> x in exts
  {
    if xs == [] then attrs
    else Merge(MergeAll(attrs, exts, xs[..|xs| - 1]), exts[xs[|xs| - 1]].resources)
  }

  // ----- The worklist -----

  method ExtendResources(exts: Registry, order: seq<string>, attrMap: AttrMap)
    returns (processed: seq<string>, unprocessed: seq<string>, attrs: AttrMap, ghost first: nat)
    requires Orders(order, exts)
    // The processed extensions are the least set closed under required dependencies.
    ensures IsLeastClosed(exts, false, Names(processed))
    ensures InOrder(exts, false, processed)
    // Processed and unprocessed split the input.
    ensures NoDuplicates(processed + unprocessed) && Names(processed + unprocessed) == exts.Keys
    // The first phase honours the optional dependencies as well.
    ensures first <= |processed|
    ensures IsLeastClosed(exts, true, Names(processed[..first]))
    ensures InOrder(exts, true, processed[..first])
    ensures attrs == MergeAll(attrMap, exts, processed)
  {
    processed, attrs, first := [], attrMap, 0;
    var todo := order;
    var checkOptionals := true;
    while todo != []
      invariant Split(exts, processed, todo) && InOrder(exts, false, processed)
      invariant attrs == MergeAll(attrMap, exts, processed)
      invariant checkOptionals ==> InOrder(exts, true, processed)
      invariant !checkOptionals ==> FirstPhase(exts, processed, first)
      decreases |todo|, checkOptionals
    {
      var progress;
      ghost var was := processed;
      processed, todo, attrs, progress := Pass(exts, checkOptionals, processed, todo, attrs, attrMap);
      if !progress {
        if checkOptionals {
          checkOptionals, first := false, |processed|;
          FirstPhaseEnds(exts, processed, todo);
          continue;
        }
        break;
      }
      if !checkOptionals {
        FirstPhaseStays(exts, was, processed, first);
      }
    }
    unprocessed := todo;
    if checkOptionals {
      first := |processed|;
      FirstPhaseEnds(exts, processed, todo);
    }
    StuckIsClosed(exts, false, processed, todo);
  }

  ghost predicate Split(exts: Registry, processed: seq<string>, todo: seq<string>) {
    NoDuplicates(processed + todo) && Names(processed + todo) == exts.Keys
  }

  ghost predicate FirstPhase(exts: Registry, processed: seq<string>, first: nat) {
    && first <= |processed|
    && IsLeastClosed(exts, true, Names(processed[..first]))
    && InOrder(exts, true, processed[..first])
  }

  lemma FirstPhaseEnds(exts: Registry, processed: seq<string>, todo: seq<string>)
    requires Split(exts, processed, todo) && InOrder(exts, false, processed) && InOrder(exts, true, processed)
    requires forall n :: n in todo ==> n in exts && !Ready(exts, true, processed, n)
    ensures FirstPhase(exts, processed, |processed|)
  {
    assert processed[..|processed|] == processed;
    StuckIsClosed(exts, true, processed, todo);
  }

  lemma FirstPhaseStays(exts: Registry, was: seq<string>, processed: seq<string>, first: nat)
    requires FirstPhase(exts, was, first) && was <= processed
    ensures FirstPhase(exts, processed, first)
  {
    assert processed[..first] == was[..first];
  }

  predicate Ready(exts: Registry, checkOptionals: bool, processed: seq<string>, name: string)
    requires name in exts
  {
    Needs(exts[name], checkOptionals) <= Names(processed)
  }

  /** One pass over a snapshot of the extensions still to process. */
  method Pass(exts: Registry, checkOptionals: bool, was: seq<string>, snapshot: seq<string>, wasAttrs: AttrMap,
      ghost attrMap: AttrMap)
    returns (processed: seq<string>, todo: seq<string>, attrs: AttrMap, progress: bool)
    requires Split(exts, was, snapshot) && InOrder(exts, false, was)
    requires checkOptionals ==> InOrder(exts, true, was)
    requires wasAttrs == MergeAll(attrMap, exts, was)
    ensures Split(exts, processed, todo) && InOrder(exts, false, processed)
    ensures checkOptionals ==> InOrder(exts, true, processed)
    ensures attrs == MergeAll(attrMap, exts, processed)
    ensures was <= processed && |processed| + |todo| == |was| + |snapshot|
    ensures progress <==> |was| < |processed|
    // Without progress nothing has changed and no extension was ready.
    ensures !progress ==> processed == was && todo == snapshot
    ensures !progress ==> forall n :: n in todo ==> !Ready(exts, checkOptionals, processed, n)
  {
    processed, todo, attrs := was, snapshot, wasAttrs;
    var i := 0;
    ghost var skipped, seen, rest := [], [], snapshot;
    while i < |snapshot|
      invariant i == |seen| <= |snapshot| && snapshot == seen + rest && todo == skipped + rest
      invariant Passing(exts, checkOptionals, was, seen, processed, skipped)
      invariant Split(exts, processed, todo)
      invariant attrs == MergeAll(attrMap, exts, processed)
    {
      var name := snapshot[i];
      NextIsKnown(exts, processed, skipped, rest);
      assert name == rest[0];
      StepOver(seen, skipped, rest);
      seen, rest := seen + [name], rest[1..];
      if !(exts[name].required <= Names(processed)) {
        skipped := skipped + [name];
      } else if checkOptionals && !(exts[name].optional <= Names(processed)) {
        skipped := skipped + [name];
      } else {
        TakeOne(exts, processed, todo, skipped, name, rest);
        PassingTake(exts, checkOptionals, was, seen[..i], processed, skipped, name);
        MergeOne(attrMap, exts, processed, name);
        attrs := Merge(attrs, exts[name].resources);
        processed := processed + [name];
        todo := Delete(todo, name);
      }
      i := i + 1;
    }
    progress := |processed| != |was|;
    assert !progress ==> processed == was;
  }

  lemma StepOver(seen: seq<string>, skipped: seq<string>, rest: seq<string>)
    requires rest != []
    ensures seen + rest == seen + [rest[0]] + rest[1..] && skipped + rest == skipped + [rest[0]] + rest[1..]
    ensures (seen + [rest[0]])[..|seen|] == seen
  {
  }

  lemma MergeOne(attrMap: AttrMap, exts: Registry, xs: seq<string>, name: string)
    requires name in exts && forall x :: x in xs ==> x in exts
    ensures MergeAll(attrMap, exts, xs + [name]) == Merge(MergeAll(attrMap, exts, xs), exts[name].resources)
  {
    assert (xs + [name])[..|xs|] == xs;
  }

  /** The state of a pass after the extensions in `seen`. */
  ghost predicate Passing(exts: Registry, checkOptionals: bool, was: seq<string>, seen: seq<string>,
      processed: seq<string>, skipped: seq<string>)
  {
    && was <= processed && |processed| + |skipped| == |was| + |seen|
    && InOrder(exts, false, processed)
    && (checkOptionals ==> InOrder(exts, true, processed))
    && (processed == was ==> skipped == seen && forall n :: n in skipped ==>
        n in exts && !Ready(exts, checkOptionals, processed, n))
  }

  lemma NextIsKnown(exts: Registry, processed: seq<string>, skipped: seq<string>, rest: seq<string>)
    requires rest != [] && Split(exts, processed, skipped + rest)
    ensures rest[0] in exts && forall x :: x in processed ==> x in exts
  {
    assert (processed + (skipped + rest))[|processed| + |skipped|] == rest[0];
    assert rest[0] in Names(processed + (skipped + rest));
    forall x | x in processed ensures x in exts {
      assert x in Names(processed + (skipped + rest));
    }
  }

  lemma PassingTake(exts: Registry, checkOptionals: bool, was: seq<string>, seen: seq<string>, processed: seq<string>,
      skipped: seq<string>, name: string)
    requires Passing(exts, checkOptionals, was, seen, processed, skipped)
    requires name in exts && Ready(exts, checkOptionals, processed, name)
    ensures Passing(exts, checkOptionals, was, seen + [name], processed + [name], skipped)
  {
    AppendInOrder(exts, checkOptionals, processed, name);
    AppendInOrder(exts, false, processed, name);
  }

  /** `del exts_to_process[name]` */
  function Delete(xs: seq<string>, name: string): seq<string> {
    if xs == [] then [] else if xs[0] == name then xs[1..] else [xs[0]] + Delete(xs[1..], name)
  }

  lemma {:induction false} DeleteMiddle(pre: seq<string>, name: string, post: seq<string>)
    requires name !in pre
    ensures Delete(pre + [name] + post, name) == pre + post
  {
    var xs := pre + [name] + post;
    if pre != [] {
      assert xs[1..] == pre[1..] + [name] + post;
      DeleteMiddle(pre[1..], name, post);
      assert pre + post == [pre[0]] + (pre[1..] + post);
    } else {
      assert xs[1..] == post && pre + post == post;
    }
  }

  lemma TakeOne(exts: Registry, processed: seq<string>, todo: seq<string>, skipped: seq<string>, name: string,
      rest: seq<string>)
    requires todo == skipped + [name] + rest && Split(exts, processed, todo)
    ensures Delete(todo, name) == skipped + rest
    ensures Split(exts, processed + [name], skipped + rest)
  {
    MoveForward(processed, skipped, name, rest);
    DeleteMiddle(skipped, name, rest);
    SameNames(processed, skipped, name, rest);
  }

  lemma MoveForward(p: seq<string>, s: seq<string>, name: string, rest: seq<string>)
    requires NoDuplicates(p + (s + [name] + rest))
    ensures NoDuplicates(p + [name] + (s + rest)) && name !in s
  {
    var xs, ys := p + (s + [name] + rest), p + [name] + (s + rest);
    var k, m := |p|, |p| + |s|;
    assert xs[m] == name && forall i :: 0 <= i < |s| ==> xs[k + i] == s[i];
    forall i | 0 <= i < |ys| ensures ys[i] == xs[Origin(i, k, m)] {
      FromOrigin(p, s, name, rest, i);
    }
    forall i, j | 0 <= i < j < |ys| ensures ys[i] != ys[j] {
      assert Origin(i, k, m) != Origin(j, k, m);
    }
  }

  lemma FromOrigin(p: seq<string>, s: seq<string>, name: string, rest: seq<string>, i: nat)
    requires i < |p| + 1 + |s| + |rest|
    ensures (p + [name] + (s + rest))[i] == (p + (s + [name] + rest))[Origin(i, |p|, |p| + |s|)]
  {
  }

  function Origin(i: nat, k: nat, m: nat): nat
    requires k <= m
  {
    if i == k then m else if k < i <= m then i - 1 else i
  }

  lemma SameNames(p: seq<string>, s: seq<string>, name: string, rest: seq<string>)
    ensures Names(p + [name] + (s + rest)) == Names(p + (s + [name] + rest))
  {
  }

  lemma AppendInOrder(exts: Registry, withOptionals: bool, xs: seq<string>, name: string)
    requires InOrder(exts, withOptionals, xs) && name in exts
    requires Needs(exts[name], withOptionals) <= Names(xs)
    ensures InOrder(exts, withOptionals, xs + [name])
  {
    var ys := xs + [name];
    forall i | 0 <= i < |ys| ensures ys[i] in exts && Needs(exts[ys[i]], withOptionals) <= Names(ys[..i]) {
      assert ys[..i] == xs[..i];
    }
  }

  /** When no remaining extension is ready, the processed ones are the least closed set. */
  lemma StuckIsClosed(exts: Registry, withOptionals: bool, processed: seq<string>, todo: seq<string>)
    requires Split(exts, processed, todo) && InOrder(exts, withOptionals, processed)
    requires forall n :: n in todo ==> !Ready(exts, withOptionals, processed, n)
    ensures IsLeastClosed(exts, withOptionals, Names(processed))
  {
    forall n | n in exts && Needs(exts[n], withOptionals) <= Names(processed) ensures n in Names(processed) {
      assert n in Names(processed + todo);
    }
    forall u: set<string> | Closed(exts, withOptionals, u) ensures Names(processed) <= u {
      InOrderIsBelowClosed(exts, withOptionals, processed, u);
    }
  }

  // ----- What the caller can rely on, whatever the dictionary order -----

  ghost predicate SameRequirements(exts: Registry, exts': Registry) {
    exts.Keys == exts'.Keys && forall n :: n in exts ==> exts[n].required == exts'[n].required
  }

  /** The processed set depends on the required dependencies alone, not on iteration order or optionals. */
  lemma ProcessedSetDetermined(exts: Registry, exts': Registry, s: set<string>, s': set<string>)
    requires SameRequirements(exts, exts')
    requires IsLeastClosed(exts, false, s) && IsLeastClosed(exts', false, s')
    ensures s == s'
  {
    assert Closed(exts, false, s');
    assert Closed(exts', false, s);
  }

  /** A requirement of every member is missing from the registry or again a member: a cycle or a gap. */
  ghost predicate Blocked(exts: Registry, c: set<string>) {
    forall n :: n in c && n in exts ==> exists r :: r in exts[n].required && (r !in exts || r in c)
  }

  /** What stays unprocessed is exactly what a missing extension or a requirement cycle blocks. */
  lemma UnprocessedIffBlocked(exts: Registry, s: set<string>, n: string)
    requires IsLeastClosed(exts, false, s) && n in exts
    ensures n !in s <==> exists c: set<string> :: Blocked(exts, c) && n in c
  {
    AreNames(exts, s);
    if n !in s {
      var c := exts.Keys - s;
      forall m | m in c && m in exts ensures exists r :: r in exts[m].required && (r !in exts || r in c) {
        assert !(Needs(exts[m], false) <= s);
      }
      assert Blocked(exts, c) && n in c;
    }
    if c: set<string> :| Blocked(exts, c) && n in c {
      forall m | m in c && m in exts ensures !(Needs(exts[m], false) <= s - c) {
        var r :| r in exts[m].required && (r !in exts || r in c);
        assert r in Needs(exts[m], false);
      }
      assert Closed(exts, false, s - c);
    }
  }

  /** Each member has a required or optional dependency that is missing from the registry or again a member. */
  ghost predicate Held(exts: Registry, c: set<string>) {
    forall n :: n in c && n in exts ==> exists d :: d in exts[n].required + exts[n].optional && (d !in exts || d in c)
  }

  /** What the first phase leaves out is exactly what a gap or a cycle of dependencies of either sort holds back. */
  lemma LeftOutIffHeld(exts: Registry, s: set<string>, n: string)
    requires IsLeastClosed(exts, true, s) && n in exts
    ensures n !in s <==> exists c: set<string> :: Held(exts, c) && n in c
  {
    assert Closed(exts, true, exts.Keys);
    if n !in s {
      var c := exts.Keys - s;
      forall m | m in c && m in exts
        ensures exists d :: d in exts[m].required + exts[m].optional && (d !in exts || d in c)
      {
        assert !(Needs(exts[m], true) <= s);
      }
      assert Held(exts, c) && n in c;
    }
    if c: set<string> :| Held(exts, c) && n in c {
      forall m | m in c && m in exts ensures !(Needs(exts[m], true) <= s - c) {
        var d :| d in exts[m].required + exts[m].optional && (d !in exts || d in c);
        assert d in Needs(exts[m], true);
      }
      assert Closed(exts, true, s - c);
    }
  }

  /** In order means that every required dependency of an extension stands before it, and every optional one if these
      are honoured. */
  lemma InOrderExactly(exts: Registry, withOptionals: bool, xs: seq<string>)
    ensures InOrder(exts, withOptionals, xs) <==>
            forall i :: 0 <= i < |xs| ==>
              && xs[i] in exts
              && (forall d :: d in exts[xs[i]].required ==> exists j :: 0 <= j < i && xs[j] == d)
              && (withOptionals ==> forall d :: d in exts[xs[i]].optional ==> exists j :: 0 <= j < i && xs[j] == d)
  {
    forall i, d | 0 <= i < |xs| ensures d in Names(xs[..i]) <==> exists j :: 0 <= j < i && xs[j] == d {
      StandsBefore(xs, i, d);
    }
  }

  lemma StandsBefore(xs: seq<string>, i: nat, d: string)
    requires i < |xs|
    ensures d in Names(xs[..i]) <==> exists j :: 0 <= j < i && xs[j] == d
  {
    if j :| 0 <= j < i && xs[j] == d {
      assert xs[..i][j] == d;
    }
  }

  lemma AreNames(exts: Registry, s: set<string>)
    requires IsLeastClosed(exts, false, s)
    ensures s <= exts.Keys
  {
    assert Closed(exts, false, exts.Keys);
  }

  /** If the first phase reaches every extension, no optional dependency is out of order. */
  lemma AllOptionalsInOrder(exts: Registry, processed: seq<string>, first: nat)
    requires first <= |processed| && NoDuplicates(processed) && Names(processed) == exts.Keys
    requires InOrder(exts, true, processed[..first])
    requires IsLeastClosed(exts, true, Names(processed[..first]))
    requires forall u: set<string> :: Closed(exts, true, u) ==> exts.Keys <= u
    ensures InOrder(exts, true, processed)
  {
    NoneBeyond(processed, first);
    assert processed[..first] == processed;
  }

  lemma NoneBeyond(xs: seq<string>, k: nat)
    requires k <= |xs| && NoDuplicates(xs) && Names(xs) <= Names(xs[..k])
    ensures k == |xs|
  {
    if k < |xs| {
      BelowCut(xs, k, k);
    }
  }

  lemma BelowCut(xs: seq<string>, k: nat, i: nat)
    requires i < |xs| && k <= |xs| && NoDuplicates(xs) && Names(xs) <= Names(xs[..k])
    ensures i < k
  {
    assert xs[i] in Names(xs);
    var j :| 0 <= j < k && xs[..k][j] == xs[i];
  }

  predicate Defines(m: AttrMap, res: string, attr: string) {
    res in m && attr in m[res]
  }

  /** The definition in force is the one of the last processed extension that gives one. */
  lemma {:induction false} LastWriterWins(attrMap: AttrMap, exts: Registry, xs: seq<string>, k: nat, res: string,
      attr: string)
    requires k < |xs| && forall x :: x in xs ==> x in exts
    requires Defines(exts[xs[k]].resources, res, attr)
    requires forall j :: k < j < |xs| ==> !Defines(exts[xs[j]].resources, res, attr)
    ensures Defines(MergeAll(attrMap, exts, xs), res, attr)
    ensures MergeAll(attrMap, exts, xs)[res][attr] == exts[xs[k]].resources[res][attr]
  {
    var ys := xs[..|xs| - 1];
    if k < |ys| {
      LastWriterWins(attrMap, exts, ys, k, res, attr);
    }
  }

  /** A resource is in the map exactly if it was, or some processed extension names it. */
  lemma {:induction false} ResourcesMerged(attrMap: AttrMap, exts: Registry, xs: seq<string>, res: string)
    requires forall x :: x in xs ==> x in exts
    ensures res in MergeAll(attrMap, exts, xs) <==> res in attrMap || exists x :: x in xs && res in exts[x].resources
  {
    if xs != [] {
      var ys := xs[..|xs| - 1];
      ResourcesMerged(attrMap, exts, ys, res);
      assert xs == ys + [xs[|xs| - 1]];
    }
  }

  /** Where nothing is contributed, the original definition stays. */
  lemma {:induction false} UntouchedDefinition(attrMap: AttrMap, exts: Registry, xs: seq<string>, res: string,
      attr: string)
    requires forall x :: x in xs ==> x in exts && !Defines(exts[x].resources, res, attr)
    ensures Defines(MergeAll(attrMap, exts, xs), res, attr) <==> Defines(attrMap, res, attr)
    ensures Defines(attrMap, res, attr) ==> MergeAll(attrMap, exts, xs)[res][attr] == attrMap[res][attr]
  {
    if xs != [] {
      UntouchedDefinition(attrMap, exts, xs[..|xs| - 1], res, attr);
    }
  }

  /** An extension that requires all the other contributors of a definition overrides them, in every order. */
  lemma DependentOverrides(attrMap: AttrMap, exts: Registry, xs: seq<string>, n: string, res: string, attr: string)
    requires InOrder(exts, false, xs) && NoDuplicates(xs) && n in xs
    requires forall x :: x in xs ==> x in exts
    requires Defines(exts[n].resources, res, attr)
    requires forall m :: m in xs && m != n && Defines(exts[m].resources, res, attr) ==> m in exts[n].required
    ensures Defines(MergeAll(attrMap, exts, xs), res, attr)
    ensures MergeAll(attrMap, exts, xs)[res][attr] == exts[n].resources[res][attr]
  {
    var k :| 0 <= k < |xs| && xs[k] == n;
    forall j | k < j < |xs| ensures !Defines(exts[xs[j]].resources, res, attr) {
      assert xs[j] !in Names(xs[..k]);
      assert xs[j] !in exts[n].required;
    }
    LastWriterWins(attrMap, exts, xs, k, res, attr);
  }
}