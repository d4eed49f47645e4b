/** deep_sort and is_equal of gbpservice/common/utils.py on values, and what is_equal decides. */
module CanonicalForm {
  import opened Collections
  import opened Text
  import opened Sorting
  import opened Json

  // ----- The canonical form deep_sort returns -----

  function KeyOf(e: Entry): string {
    e.key
  }

  function Canon(v: Value): Value
    decreases v, 1
  {
    match v
    case List(items) => List(SortBy(Dumps, CanonItems(items)))
    case Dict(entries) => Dict(SortBy(KeyOf, CanonEntries(entries)))
    case _ => v
  }

  function CanonItems(items: seq<Value>): (r: seq<Value>)
    ensures |r| == |items|
    ensures forall i :: 0 <= i < |r| ==> r[i] == Canon(items[i])
    decreases items, 0
  {
    if items == [] then [] else [Canon(items[0])] + CanonItems(items[1..])
  }

  function CanonEntries(entries: seq<Entry>): (r: seq<Entry>)
    ensures |r| == |entries|
    ensures forall i :: 0 <= i < |r| ==> r[i] == Entry(entries[i].key, Canon(entries[i].val))
    decreases entries, 0
  {
    if entries == [] then []
    else [Entry(entries[0].key, Canon(entries[0].val))] + CanonEntries(entries[1..])
  }

  // ----- The reference notion: equal up to permuting lists, at every depth -----

  function Keys(entries: seq<Entry>): set<string> {
    set e | e in entries :: e.key
  }

  ghost predicate PermEq(a: Value, b: Value)
    decreases a, 1
  {
    match (a, b)
    case (List(xs), List(ys)) => exists p: seq<nat> :: IsPermutation(p, |xs|) && ItemsMatch(p, xs, ys)
    case (Dict(es), Dict(fs)) => Keys(es) == Keys(fs) && EntriesMatch(es, fs)
    case _ => a == b
  }

  /** `p` pairs every item of `xs` with an equivalent item of `ys`, one to one. */
  ghost predicate ItemsMatch(p: seq<nat>, xs: seq<Value>, ys: seq<Value>)
    decreases xs, 0
  {
    && |xs| == |ys|
    && IsPermutation(p, |xs|)
    && forall i :: 0 <= i < |xs| ==> PermEq(xs[i], ys[p[i]])
  }

  /** Values under a common key are equivalent. */
  ghost predicate EntriesMatch(es: seq<Entry>, fs: seq<Entry>)
    decreases es, 0
  {
    forall i, j :: 0 <= i < |es| && 0 <= j < |fs| && es[i].key == fs[j].key ==> PermEq(es[i].val, fs[j].val)
  }

  // ----- PermEq is equality of canonical forms -----

  lemma DumpsTellsApart(xs: seq<Value>)
    ensures KeyInjective(Dumps, xs)
  {
    forall x, y | x in xs && y in xs && Dumps(x) == Dumps(y) ensures x == y {
      DumpsInjective(x, y);
    }
  }

  lemma SortedItemsEqual(xs: seq<Value>, ys: seq<Value>)
    ensures SortBy(Dumps, xs) == SortBy(Dumps, ys) <==> multiset(xs) == multiset(ys)
  {
    var s, t := SortBy(Dumps, xs), SortBy(Dumps, ys);
    if multiset(xs) == multiset(ys) {
      SortBySorted(Dumps, xs);
      SortBySorted(Dumps, ys);
      DumpsTellsApart(s);
      SortedUnique(Dumps, s, t);
    }
  }

  lemma SortedEntriesEqual(es: seq<Entry>, fs: seq<Entry>)
    requires DistinctKeys(es)
    ensures SortBy(KeyOf, es) == SortBy(KeyOf, fs) <==> multiset(es) == multiset(fs)
  {
    var s, t := SortBy(KeyOf, es), SortBy(KeyOf, fs);
    if multiset(es) == multiset(fs) {
      SortBySorted(KeyOf, es);
      SortBySorted(KeyOf, fs);
      forall x, y | x in s && y in s && KeyOf(x) == KeyOf(y) ensures x == y {
        SameElement(s, es, x);
        SameElement(s, es, y);
      }
      SortedUnique(KeyOf, s, t);
    }
  }

  /** Values under a common key have the same canonical form. */
  predicate SameCanon(es: seq<Entry>, fs: seq<Entry>) {
    forall i, j :: 0 <= i < |es| && 0 <= j < |fs| && es[i].key == fs[j].key ==> Canon(es[i].val) == Canon(fs[j].val)
  }

  /** Dicts with the same keys and, key by key, the same canonical values: the same canonical entries. */
  lemma CanonEntriesEqual(es: seq<Entry>, fs: seq<Entry>)
    requires DistinctKeys(es) && DistinctKeys(fs)
    ensures multiset(CanonEntries(es)) == multiset(CanonEntries(fs)) <==> Keys(es) == Keys(fs) && SameCanon(es, fs)
  {
    if multiset(CanonEntries(es)) == multiset(CanonEntries(fs)) {
      KeysIncluded(es, fs);
      KeysIncluded(fs, es);
    }
    if Keys(es) == Keys(fs) && SameCanon(es, fs) {
      EntriesIncluded(es, fs);
      EntriesIncluded(fs, es);
      SameSetSameMultiset(CanonEntries(es), CanonEntries(fs));
    }
  }

  lemma KeysIncluded(es: seq<Entry>, fs: seq<Entry>)
    requires DistinctKeys(fs)
    requires multiset(CanonEntries(es)) == multiset(CanonEntries(fs))
    ensures Keys(es) <= Keys(fs)
    ensures SameCanon(es, fs)
  {
    var us, vs := CanonEntries(es), CanonEntries(fs);
    forall i | 0 <= i < |es|
      ensures es[i].key in Keys(fs)
      ensures forall j :: 0 <= j < |fs| && es[i].key == fs[j].key ==> Canon(es[i].val) == Canon(fs[j].val)
    {
      SameElement(us, vs, us[i]);
      var k :| 0 <= k < |vs| && vs[k] == us[i];
      assert fs[k] in fs;
    }
  }

  lemma EntriesIncluded(es: seq<Entry>, fs: seq<Entry>)
    requires Keys(es) <= Keys(fs)
    requires SameCanon(es, fs)
    ensures forall x :: x in CanonEntries(es) ==> x in CanonEntries(fs)
  {
    forall x | x in CanonEntries(es) ensures x in CanonEntries(fs) {
      var i :| 0 <= i < |es| && CanonEntries(es)[i] == x;
      assert es[i] in es && es[i].key in Keys(fs);
      var j :| 0 <= j < |fs| && fs[j].key == es[i].key;
      assert CanonEntries(fs)[j] == x;
    }
  }

  /** Soundness and completeness of the canonical form, for all values. */
  lemma {:induction false} CanonDecidesPermEq(a: Value, b: Value)
    requires WellFormed(a) && WellFormed(b)
    ensures PermEq(a, b) <==> Canon(a) == Canon(b)
    decreases a, 2
  {
    if a.List? && b.List? {
      ListsDecided(a, b);
    } else if a.Dict? && b.Dict? {
      DictsDecided(a, b);
    } else {
      UnlikeFormsDecided(a, b);
    }
  }

  lemma UnlikeFormsDecided(a: Value, b: Value)
    requires !(a.List? && b.List?) && !(a.Dict? && b.Dict?)
    ensures PermEq(a, b) <==> Canon(a) == Canon(b)
  {
  }

  lemma {:induction false} DictsDecided(a: Value, b: Value)
    requires a.Dict? && b.Dict? && WellFormed(a) && WellFormed(b)
    ensures PermEq(a, b) <==> Canon(a) == Canon(b)
    decreases a, 1
  {
    var es, fs := a.entries, b.entries;
    EntriesDecided(es, fs);
    CanonEntriesEqual(es, fs);
    SortedEntriesEqual(CanonEntries(es), CanonEntries(fs));
  }

  lemma {:induction false} EntriesDecided(es: seq<Entry>, fs: seq<Entry>)
    requires WellFormed(Dict(es)) && WellFormed(Dict(fs))
    ensures EntriesMatch(es, fs) <==> SameCanon(es, fs)
    decreases es, 0
  {
    forall i, j | 0 <= i < |es| && 0 <= j < |fs|
      ensures PermEq(es[i].val, fs[j].val) <==> Canon(es[i].val) == Canon(fs[j].val)
    {
      assert es[i] in es && fs[j] in fs;
      CanonDecidesPermEq(es[i].val, fs[j].val);
    }
  }

  lemma {:induction false} ListsDecided(a: Value, b: Value)
    requires a.List? && b.List? && WellFormed(a) && WellFormed(b)
    ensures PermEq(a, b) <==> Canon(a) == Canon(b)
    decreases a, 1
  {
    var xs, ys := a.items, b.items;
    SortedItemsEqual(CanonItems(xs), CanonItems(ys));
    if PermEq(a, b) {
      var p: seq<nat> :| IsPermutation(p, |xs|) && ItemsMatch(p, xs, ys);
      MatchDecided(p, xs, ys);
    }
    if multiset(CanonItems(xs)) == multiset(CanonItems(ys)) {
      var p := MatchOfMultiset(CanonItems(xs), CanonItems(ys));
      MatchDecided(p, xs, ys);
    }
  }

  lemma {:induction false} MatchDecided(p: seq<nat>, xs: seq<Value>, ys: seq<Value>)
    requires WellFormed(List(xs)) && WellFormed(List(ys))
    ensures ItemsMatch(p, xs, ys) <==> Matches(p, CanonItems(xs), CanonItems(ys))
    ensures ItemsMatch(p, xs, ys) ==> multiset(CanonItems(xs)) == multiset(CanonItems(ys))
    decreases xs, 0
  {
    if |xs| == |ys| && IsPermutation(p, |xs|) {
      forall i | 0 <= i < |xs| ensures PermEq(xs[i], ys[p[i]]) <==> Canon(xs[i]) == Canon(ys[p[i]]) {
        CanonDecidesPermEq(xs[i], ys[p[i]]);
      }
      if ItemsMatch(p, xs, ys) {
        MultisetOfMatch(p, CanonItems(xs), CanonItems(ys));
      }
    }
  }

  // ----- The canonical form in plain terms -----

  ghost predicate ItemsPermuted(p: seq<nat>, items: seq<Value>, r: seq<Value>) {
    |r| == |items| && IsPermutation(p, |items|) && forall i :: 0 <= i < |r| ==> r[i] == Canon(items[p[i]])
  }

  ghost predicate EntriesPermuted(p: seq<nat>, entries: seq<Entry>, r: seq<Entry>) {
    && |r| == |entries| && IsPermutation(p, |entries|)
    && forall i :: 0 <= i < |r| ==> r[i] == Entry(entries[p[i]].key, Canon(entries[p[i]].val))
  }

  lemma ItemsPermutedExactly(items: seq<Value>, r: seq<Value>)
    ensures multiset(r) == multiset(CanonItems(items)) <==> exists p: seq<nat> :: ItemsPermuted(p, items, r)
  {
    MatchExactly(r, CanonItems(items));
    assert forall p: seq<nat> :: ItemsPermuted(p, items, r) <==> Matches(p, r, CanonItems(items));
  }

  lemma CanonListSorted(items: seq<Value>, r: seq<Value>)
    ensures Canon(List(items)) == List(r) <==> (exists p: seq<nat> :: ItemsPermuted(p, items, r)) && SortedBy(Dumps, r)
  {
    DumpsTellsApart(CanonItems(items));
    SortedExactly(Dumps, CanonItems(items), r);
    ItemsPermutedExactly(items, r);
  }

  lemma EntriesPermutedExactly(entries: seq<Entry>, r: seq<Entry>)
    ensures multiset(r) == multiset(CanonEntries(entries)) <==> exists p: seq<nat> :: EntriesPermuted(p, entries, r)
  {
    MatchExactly(r, CanonEntries(entries));
    assert forall p: seq<nat> :: EntriesPermuted(p, entries, r) <==> Matches(p, r, CanonEntries(entries));
  }

  lemma CanonDictSorted(entries: seq<Entry>, r: seq<Entry>)
    requires DistinctKeys(entries)
    ensures Canon(Dict(entries)) == Dict(r) <==>
            (exists p: seq<nat> :: EntriesPermuted(p, entries, r)) && SortedBy(KeyOf, r)
  {
    DistinctKeysTellApart(CanonEntries(entries));
    SortedExactly(KeyOf, CanonEntries(entries), r);
    EntriesPermutedExactly(entries, r);
  }

  lemma DistinctKeysTellApart(es: seq<Entry>)
    requires DistinctKeys(es)
    ensures KeyInjective(KeyOf, es)
  {
  }

  lemma TextsAscend(r: seq<Value>)
    ensures SortedBy(Dumps, r) <==>
            forall i, j :: 0 <= i < j < |r| ==>
              var a, b := Dumps(r[i]), Dumps(r[j]);
              a <= b || exists k: nat :: k < |a| && k < |b| && a[..k] == b[..k] && a[k] < b[k]
  {
    forall i, j | 0 <= i < j < |r|
      ensures LexLeq(Dumps(r[i]), Dumps(r[j])) <==>
              var a, b := Dumps(r[i]), Dumps(r[j]);
              a <= b || exists k: nat :: k < |a| && k < |b| && a[..k] == b[..k] && a[k] < b[k]
    {
      LexLeqMeans(Dumps(r[i]), Dumps(r[j]));
    }
  }

  lemma KeysAscend(r: seq<Entry>)
    ensures SortedBy(KeyOf, r) <==>
            forall i, j :: 0 <= i < j < |r| ==>
              var a, b := r[i].key, r[j].key;
              a <= b || exists k: nat :: k < |a| && k < |b| && a[..k] == b[..k] && a[k] < b[k]
  {
    forall i, j | 0 <= i < j < |r|
      ensures LexLeq(KeyOf(r[i]), KeyOf(r[j])) <==>
              var a, b := r[i].key, r[j].key;
              a <= b || exists k: nat :: k < |a| && k < |b| && a[..k] == b[..k] && a[k] < b[k]
    {
      LexLeqMeans(r[i].key, r[j].key);
    }
  }

  /** A canonical list holds the canonical items, each once, and their texts ascend: a prefix comes first, otherwise
      the first different character decides. */
  lemma CanonOfList(items: seq<Value>, r: seq<Value>)
    ensures Canon(List(items)) == List(r) <==>
            && (exists p: seq<nat> :: ItemsPermuted(p, items, r))
            && forall i, j :: 0 <= i < j < |r| ==>
                 var a, b := Dumps(r[i]), Dumps(r[j]);
                 a <= b || exists k: nat :: k < |a| && k < |b| && a[..k] == b[..k] && a[k] < b[k]
  {
    CanonListSorted(items, r);
    TextsAscend(r);
  }

  /** A canonical dict holds the entries with canonical values, each once, and its keys ascend in the same order. */
  lemma CanonOfDict(entries: seq<Entry>, r: seq<Entry>)
    requires DistinctKeys(entries)
    ensures Canon(Dict(entries)) == Dict(r) <==>
            && (exists p: seq<nat> :: EntriesPermuted(p, entries, r))
            && forall i, j :: 0 <= i < j < |r| ==>
                 var a, b := r[i].key, r[j].key;
                 a <= b || exists k: nat :: k < |a| && k < |b| && a[..k] == b[..k] && a[k] < b[k]
  {
    CanonDictSorted(entries, r);
    KeysAscend(r);
  }

  // ----- Sorting twice -----

  lemma CanonOfCanonicalItems(s: seq<Value>)
    requires forall i :: 0 <= i < |s| ==> Canon(s[i]) == s[i]
    requires SortedBy(Dumps, s)
    ensures Canon(List(s)) == List(s)
  {
    assert CanonItems(s) == s;
    SortBySortedIsIdentity(Dumps, s);
  }

  lemma CanonOfCanonicalEntries(s: seq<Entry>)
    requires forall i :: 0 <= i < |s| ==> Canon(s[i].val) == s[i].val
    requires SortedBy(KeyOf, s)
    ensures Canon(Dict(s)) == Dict(s)
  {
    assert CanonEntries(s) == s;
    SortBySortedIsIdentity(KeyOf, s);
  }

  lemma {:induction false} CanonIdempotent(v: Value)
    ensures Canon(Canon(v)) == Canon(v)
    decreases v, 1
  {
    match v
    case List(items) => SortedItemsCanonical(items);
    case Dict(entries) => SortedEntriesCanonical(entries);
    case _ =>
  }

  lemma {:induction false} SortedItemsCanonical(items: seq<Value>)
    ensures var s := SortBy(Dumps, CanonItems(items)); Canon(List(s)) == List(s)
    decreases items, 0
  {
    var s := SortBy(Dumps, CanonItems(items));
    forall i | 0 <= i < |s| ensures Canon(s[i]) == s[i] {
      SameElement(s, CanonItems(items), s[i]);
      var k :| 0 <= k < |items| && CanonItems(items)[k] == s[i];
      CanonIdempotent(items[k]);
    }
    SortBySorted(Dumps, CanonItems(items));
    CanonOfCanonicalItems(s);
  }

  lemma {:induction false} SortedEntriesCanonical(entries: seq<Entry>)
    ensures var s := SortBy(KeyOf, CanonEntries(entries)); Canon(Dict(s)) == Dict(s)
    decreases entries, 0
  {
    var s := SortBy(KeyOf, CanonEntries(entries));
    forall i | 0 <= i < |s| ensures Canon(s[i].val) == s[i].val {
      SameElement(s, CanonEntries(entries), s[i]);
      var k :| 0 <= k < |entries| && CanonEntries(entries)[k] == s[i];
      CanonIdempotent(entries[k].val);
    }
    SortBySorted(KeyOf, CanonEntries(entries));
    CanonOfCanonicalEntries(s);
  }

  lemma TwiceCounted<T>(s: seq<T>, i: nat, j: nat)
    requires i < j < |s| && s[i] == s[j]
    ensures multiset(s)[s[i]] >= 2
  {
    assert s == s[..i] + [s[i]] + s[i + 1..j] + [s[j]] + s[j + 1..];
  }

  lemma DistinctKeysSorted(es: seq<Entry>, s: seq<Entry>)
    requires DistinctKeys(es) && multiset(s) == multiset(es)
    ensures DistinctKeys(s)
  {
    forall i, j | 0 <= i < j < |s| ensures s[i].key != s[j].key {
      SameElement(s, es, s[i]);
      SameElement(s, es, s[j]);
      if s[i] == s[j] {
        TwiceCounted(s, i, j);
        CountNoDuplicates(es, s[i]);
      }
    }
  }

  lemma {:induction false} CanonWellFormed(v: Value)
    requires WellFormed(v)
    ensures WellFormed(Canon(v))
    decreases v, 1
  {
    match v
    case List(items) => SortedItemsWellFormed(items, SortBy(Dumps, CanonItems(items)));
    case Dict(entries) => SortedEntriesWellFormed(entries, SortBy(KeyOf, CanonEntries(entries)));
    case _ =>
  }

  lemma {:induction false} SortedItemsWellFormed(items: seq<Value>, s: seq<Value>)
    requires multiset(s) == multiset(CanonItems(items)) && WellFormed(List(items))
    ensures WellFormed(List(s))
    decreases items, 0
  {
    forall x | x in s ensures WellFormed(x) {
      SameElement(s, CanonItems(items), x);
      var k :| 0 <= k < |items| && CanonItems(items)[k] == x;
      CanonWellFormed(items[k]);
    }
  }

  lemma {:induction false} SortedEntriesWellFormed(entries: seq<Entry>, s: seq<Entry>)
    requires multiset(s) == multiset(CanonEntries(entries)) && WellFormed(Dict(entries))
    ensures WellFormed(Dict(s))
    decreases entries, 0
  {
    DistinctKeysSorted(CanonEntries(entries), s);
    forall x | x in s ensures WellFormed(x.val) {
      SameElement(s, CanonEntries(entries), x);
      var k :| 0 <= k < |entries| && CanonEntries(entries)[k] == x;
      assert entries[k] in entries;
      CanonWellFormed(entries[k].val);
    }
  }

  // ----- What deep_sort leaves in the caller's own object -----

  /** A list keeps its order but has its containers replaced by their canonical forms;
      a dict keeps its entries, with the lists below it changed in the same way. */
  function InPlace(v: Value): Value
    decreases v, 1
  {
    match v
    case List(items) => List(CanonItems(items))
    case Dict(entries) => Dict(InPlaceEntries(entries))
    case _ => v
  }

  function InPlaceEntries(entries: seq<Entry>): (r: seq<Entry>)
    ensures |r| == |entries|
    ensures forall i :: 0 <= i < |r| ==> r[i] == Entry(entries[i].key, InPlace(entries[i].val))
    decreases entries, 0
  {
    if entries == [] then []
    else [Entry(entries[0].key, InPlace(entries[0].val))] + InPlaceEntries(entries[1..])
  }

  /** A list keeps its length and its order, a dict its keys, and everything else is left alone. */
  lemma InPlaceMeans(v: Value, items: seq<Value>, entries: seq<Entry>)
    ensures InPlace(v) == List(items) <==>
            v.List? && |items| == |v.items| && forall i :: 0 <= i < |items| ==> items[i] == Canon(v.items[i])
    ensures InPlace(v) == Dict(entries) <==>
            && v.Dict? && |entries| == |v.entries|
            && forall i :: 0 <= i < |entries| ==>
                 entries[i].key == v.entries[i].key && entries[i].val == InPlace(v.entries[i].val)
    ensures !v.List? && !v.Dict? ==> InPlace(v) == v == Canon(v)
  {
    assert v.List? ==> (items == CanonItems(v.items) <==>
                        |items| == |v.items| && forall i :: 0 <= i < |items| ==> items[i] == Canon(v.items[i]));
    assert v.Dict? ==> (entries == InPlaceEntries(v.entries) <==>
                        |entries| == |v.entries| && forall i :: 0 <= i < |entries| ==>
                            entries[i] == Entry(v.entries[i].key, InPlace(v.entries[i].val)));
  }

  lemma {:induction false} CanonOfInPlace(v: Value)
    ensures Canon(InPlace(v)) == Canon(v)
  {
    match v
    case List(items) =>
      forall i | 0 <= i < |items| ensures Canon(Canon(items[i])) == Canon(items[i]) {
        CanonIdempotent(items[i]);
      }
      assert CanonItems(CanonItems(items)) == CanonItems(items);
    case Dict(entries) =>
      forall i | 0 <= i < |entries| ensures Canon(InPlace(entries[i].val)) == Canon(entries[i].val) {
        CanonOfInPlace(entries[i].val);
      }
      assert CanonEntries(InPlaceEntries(entries)) == CanonEntries(entries);
    case _ =>
  }

  lemma {:induction false} InPlaceWellFormed(v: Value)
    requires WellFormed(v)
    ensures WellFormed(InPlace(v))
  {
    match v
    case List(items) =>
      forall x | x in CanonItems(items) ensures WellFormed(x) {
        var k :| 0 <= k < |items| && Canon(items[k]) == x;
        CanonWellFormed(items[k]);
      }
    case Dict(entries) =>
      forall x | x in InPlaceEntries(entries) ensures WellFormed(x.val) {
        var k :| 0 <= k < |entries| && InPlaceEntries(entries)[k] == x;
        assert entries[k] in entries;
        InPlaceWellFormed(entries[k].val);
      }
    case _ =>
  }

  /** The side effect of deep_sort on its argument stays within the argument's own equivalence class. */
  lemma InPlaceIsPermEq(v: Value)
    requires WellFormed(v)
    ensures PermEq(v, InPlace(v)) && PermEq(v, Canon(v))
  {
    InPlaceWellFormed(v);
    CanonOfInPlace(v);
    CanonDecidesPermEq(v, InPlace(v));
    CanonWellFormed(v);
    CanonIdempotent(v);
    CanonDecidesPermEq(v, Canon(v));
  }
}
