/** What is_equal of gbpservice/common/utils.py answers, with Python's own `==` at the leaves. */
module NestedEquality {
  import opened Collections
  import opened Text
  import opened Sorting
  import opened Json
  import opened CanonicalForm

  // ----- Python equality of sorted results -----

  /** `==` in Python: True equals 1 and False equals 0; sorted dicts are OrderedDicts, whose order counts. */
  predicate PyEq(a: Value, b: Value) {
    match (a, b)
    case (Bool(x), Int(n)) => n == BitOf(x)
    case (Int(n), Bool(x)) => n == BitOf(x)
    case (List(xs), List(ys)) =>
      |xs| == |ys| && forall i :: 0 <= i < |xs| ==> PyEq(xs[i], ys[i])
    case (Dict(es), Dict(fs)) =>
      |es| == |fs| && forall i :: 0 <= i < |es| ==> es[i].key == fs[i].key && PyEq(es[i].val, fs[i].val)
    case _ => a == b
  }

  function BitOf(b: bool): int {
    if b then 1 else 0
  }

  predicate IsEqual(a: Value, b: Value) {
    PyEq(Canon(a), Canon(b))
  }

  // ----- Where True == 1 cannot matter -----

  /** Every value in `v` that is neither a list nor a dict is in the alphabet `ok`. */
  ghost predicate LeavesIn(v: Value, ok: Value -> bool) {
    match v
    case List(items) => forall i :: 0 <= i < |items| ==> LeavesIn(items[i], ok)
    case Dict(entries) => forall i :: 0 <= i < |entries| ==> LeavesIn(entries[i].val, ok)
    case _ => ok(v)
  }

  /** The alphabet holds a boolean together with the integer it equals. */
  ghost predicate Mixes(ok: Value -> bool) {
    (ok(Bool(true)) && ok(Int(1))) || (ok(Bool(false)) && ok(Int(0)))
  }

  lemma {:induction false} PyEqIsEquality(a: Value, b: Value, ok: Value -> bool)
    requires LeavesIn(a, ok) && LeavesIn(b, ok) && !Mixes(ok)
    ensures PyEq(a, b) <==> a == b
  {
    match (a, b)
    case (List(xs), List(ys)) =>
      forall i | 0 <= i < |xs| && |xs| == |ys| ensures PyEq(xs[i], ys[i]) <==> xs[i] == ys[i] {
        PyEqIsEquality(xs[i], ys[i], ok);
      }
    case (Dict(es), Dict(fs)) =>
      forall i | 0 <= i < |es| && |es| == |fs| ensures PyEq(es[i].val, fs[i].val) <==> es[i].val == fs[i].val {
        PyEqIsEquality(es[i].val, fs[i].val, ok);
      }
    case _ =>
  }

  lemma {:induction false} PyEqReflexive(a: Value)
    ensures PyEq(a, a)
  {
    match a
    case List(xs) => forall i | 0 <= i < |xs| ensures PyEq(xs[i], xs[i]) { PyEqReflexive(xs[i]); }
    case Dict(es) => forall i | 0 <= i < |es| ensures PyEq(es[i].val, es[i].val) { PyEqReflexive(es[i].val); }
    case _ =>
  }

  lemma {:induction false} CanonKeepsLeaves(v: Value, ok: Value -> bool)
    requires LeavesIn(v, ok)
    ensures LeavesIn(Canon(v), ok)
    decreases v, 1
  {
    match v
    case List(items) => SortedItemsKeepLeaves(items, SortBy(Dumps, CanonItems(items)), ok);
    case Dict(entries) => SortedEntriesKeepLeaves(entries, SortBy(KeyOf, CanonEntries(entries)), ok);
    case _ =>
  }

  lemma {:induction false} SortedItemsKeepLeaves(items: seq<Value>, s: seq<Value>, ok: Value -> bool)
    requires multiset(s) == multiset(CanonItems(items)) && LeavesIn(List(items), ok)
    ensures LeavesIn(List(s), ok)
    decreases items, 0
  {
    forall i | 0 <= i < |s| ensures LeavesIn(s[i], ok) {
      SameElement(s, CanonItems(items), s[i]);
      var k :| 0 <= k < |items| && CanonItems(items)[k] == s[i];
      CanonKeepsLeaves(items[k], ok);
    }
  }

  lemma {:induction false} SortedEntriesKeepLeaves(entries: seq<Entry>, s: seq<Entry>, ok: Value -> bool)
    requires multiset(s) == multiset(CanonEntries(entries)) && LeavesIn(Dict(entries), ok)
    ensures LeavesIn(Dict(s), ok)
    decreases entries, 0
  {
    forall i | 0 <= i < |s| ensures LeavesIn(s[i].val, ok) {
      SameElement(s, CanonEntries(entries), s[i]);
      var k :| 0 <= k < |entries| && CanonEntries(entries)[k] == s[i];
      CanonKeepsLeaves(entries[k].val, ok);
    }
  }

  // ----- Main results -----

  /** is_equal never tells apart values that are equal up to permuting lists. */
  lemma IsEqualComplete(a: Value, b: Value)
    requires WellFormed(a) && WellFormed(b) && PermEq(a, b)
    ensures IsEqual(a, b)
  {
    CanonDecidesPermEq(a, b);
    PyEqReflexive(Canon(a));
  }

  /** Where the leaves do not mix, is_equal decides equality up to permuting lists at every depth. */
  lemma IsEqualDecidesPermEq(a: Value, b: Value, ok: Value -> bool)
    requires WellFormed(a) && WellFormed(b) && LeavesIn(a, ok) && LeavesIn(b, ok) && !Mixes(ok)
    ensures IsEqual(a, b) <==> PermEq(a, b)
  {
    CanonKeepsLeaves(a, ok);
    CanonKeepsLeaves(b, ok);
    PyEqIsEquality(Canon(a), Canon(b), ok);
    CanonDecidesPermEq(a, b);
  }

  /** is_equal is right on all values over the alphabet `ok`. */
  ghost predicate DecidesOver(ok: Value -> bool) {
    forall a, b :: WellFormed(a) && WellFormed(b) && LeavesIn(a, ok) && LeavesIn(b, ok) ==>
      (IsEqual(a, b) <==> PermEq(a, b))
  }

  /** The exact condition: is_equal decides equality up to permuting lists over precisely the alphabets that do not hold
      True with 1, or False with 0. */
  lemma IsEqualExact(ok: Value -> bool)
    ensures DecidesOver(ok) <==> !Mixes(ok)
  {
    if Mixes(ok) {
      var x := ok(Bool(true)) && ok(Int(1));
      BitTakenForBool(x);
      assert LeavesIn(Bool(x), ok) && LeavesIn(Int(BitOf(x)), ok);
    } else {
      forall a, b | WellFormed(a) && WellFormed(b) && LeavesIn(a, ok) && LeavesIn(b, ok)
        ensures IsEqual(a, b) <==> PermEq(a, b)
      {
        IsEqualDecidesPermEq(a, b, ok);
      }
    }
  }

  lemma BitTakenForBool(x: bool)
    ensures WellFormed(Bool(x)) && WellFormed(Int(BitOf(x)))
    ensures IsEqual(Bool(x), Int(BitOf(x))) && !PermEq(Bool(x), Int(BitOf(x)))
  {
  }

  /** Asking again about the same objects, after they were partly sorted in place, gives the same answer. */
  lemma IsEqualStable(a: Value, b: Value)
    ensures IsEqual(InPlace(a), InPlace(b)) <==> IsEqual(a, b)
    ensures IsEqual(Canon(a), Canon(b)) <==> IsEqual(a, b)
  {
    CanonOfInPlace(a);
    CanonOfInPlace(b);
    CanonIdempotent(a);
    CanonIdempotent(b);
  }

  // ----- Mixed booleans and integers -----

  /** The value with every boolean read as the integer it equals. */
  function AsInts(v: Value): Value
    decreases v, 1
  {
    match v
    case Bool(b) => Int(BitOf(b))
    case List(items) => List(AsIntsItems(items))
    case Dict(entries) => Dict(AsIntsEntries(entries))
    case _ => v
  }

  function AsIntsItems(items: seq<Value>): (r: seq<Value>)
    ensures |r| == |items|
    ensures forall i :: 0 <= i < |r| ==> r[i] == AsInts(items[i])
    decreases items, 0
  {
    if items == [] then [] else [AsInts(items[0])] + AsIntsItems(items[1..])
  }

  function AsIntsEntries(entries: seq<Entry>): (r: seq<Entry>)
    ensures |r| == |entries|
    ensures forall i :: 0 <= i < |r| ==> r[i] == Entry(entries[i].key, AsInts(entries[i].val))
    decreases entries, 0
  {
    if entries == [] then []
    else [Entry(entries[0].key, AsInts(entries[0].val))] + AsIntsEntries(entries[1..])
  }

  lemma {:induction false} PyEqIsAsIntsEquality(a: Value, b: Value)
    ensures PyEq(a, b) <==> AsInts(a) == AsInts(b)
  {
    match (a, b)
    case (List(xs), List(ys)) =>
      forall i | 0 <= i < |xs| && |xs| == |ys|
        ensures PyEq(xs[i], ys[i]) <==> AsIntsItems(xs)[i] == AsIntsItems(ys)[i]
      {
        PyEqIsAsIntsEquality(xs[i], ys[i]);
      }
    case (Dict(es), Dict(fs)) =>
      forall i | 0 <= i < |es| && |es| == |fs|
        ensures es[i].key == fs[i].key && PyEq(es[i].val, fs[i].val) <==> AsIntsEntries(es)[i] == AsIntsEntries(fs)[i]
      {
        PyEqIsAsIntsEquality(es[i].val, fs[i].val);
      }
    case _ =>
  }

  lemma {:induction false} AsIntsWellFormed(v: Value)
    requires WellFormed(v)
    ensures WellFormed(AsInts(v))
  {
    match v
    case List(items) =>
      forall x | x in AsIntsItems(items) ensures WellFormed(x) {
        var k :| 0 <= k < |items| && AsInts(items[k]) == x;
        AsIntsWellFormed(items[k]);
      }
    case Dict(entries) =>
      forall x | x in AsIntsEntries(entries) ensures WellFormed(x.val) {
        var k :| 0 <= k < |entries| && AsIntsEntries(entries)[k] == x;
        assert entries[k] in entries;
        AsIntsWellFormed(entries[k].val);
      }
    case _ =>
  }

  lemma {:induction false} AsIntsPermEq(a: Value, b: Value)
    requires PermEq(a, b)
    ensures PermEq(AsInts(a), AsInts(b))
  {
    match (a, b)
    case (List(xs), List(ys)) =>
      var p: seq<nat> :| IsPermutation(p, |xs|) && ItemsMatch(p, xs, ys);
      forall i | 0 <= i < |xs| ensures PermEq(AsIntsItems(xs)[i], AsIntsItems(ys)[p[i]]) {
        AsIntsPermEq(xs[i], ys[p[i]]);
      }
      assert ItemsMatch(p, AsIntsItems(xs), AsIntsItems(ys));
    case (Dict(es), Dict(fs)) =>
      AsIntsKeys(es);
      AsIntsKeys(fs);
      forall i, j | 0 <= i < |es| && 0 <= j < |fs| && es[i].key == fs[j].key
        ensures PermEq(AsIntsEntries(es)[i].val, AsIntsEntries(fs)[j].val)
      {
        AsIntsPermEq(es[i].val, fs[j].val);
      }
      assert EntriesMatch(AsIntsEntries(es), AsIntsEntries(fs));
    case _ =>
  }

  lemma AsIntsKeys(es: seq<Entry>)
    ensures Keys(AsIntsEntries(es)) == Keys(es)
  {
    forall k ensures k in Keys(AsIntsEntries(es)) <==> k in Keys(es) {
      if i :| 0 <= i < |es| && es[i].key == k {
        assert AsIntsEntries(es)[i] in AsIntsEntries(es) && es[i] in es;
      }
    }
  }

  /** On every input, is_equal identifies nothing beyond list order and True with 1, False with 0. */
  lemma IsEqualSound(a: Value, b: Value)
    requires WellFormed(a) && WellFormed(b) && IsEqual(a, b)
    ensures PermEq(AsInts(a), AsInts(b))
  {
    var x, y := AsInts(a), AsInts(b);
    InPlaceIsPermEq(a);
    InPlaceIsPermEq(b);
    AsIntsPermEq(a, Canon(a));
    AsIntsPermEq(b, Canon(b));
    PyEqIsAsIntsEquality(Canon(a), Canon(b));
    CanonWellFormed(a);
    AsIntsWellFormed(a);
    AsIntsWellFormed(b);
    AsIntsWellFormed(Canon(a));
    CanonDecidesPermEq(x, AsInts(Canon(a)));
    CanonWellFormed(b);
    AsIntsWellFormed(Canon(b));
    CanonDecidesPermEq(y, AsInts(Canon(b)));
    CanonDecidesPermEq(x, y);
  }

  /** With booleans and integers mixed neither direction survives: is_equal([True], [1]) holds, ... */
  lemma MixedLeavesUnsound()
    ensures IsEqual(List([Bool(true)]), List([Int(1)])) && !PermEq(List([Bool(true)]), List([Int(1)]))
  {
    CanonOne(Bool(true));
    CanonOne(Int(1));
    TrueIsOne();
    CanonDecidesPermEq(List([Bool(true)]), List([Int(1)]));
  }

  lemma TrueIsOne()
    ensures WellFormed(List([Bool(true)])) && WellFormed(List([Int(1)]))
    ensures PyEq(List([Bool(true)]), List([Int(1)])) && List([Bool(true)]) != List([Int(1)])
  {
    var a, b := List([Bool(true)]), List([Int(1)]);
    assert a.items[0] != b.items[0];
  }

  /** ... yet is_equal([True, 2], [1, 2]) does not, as "true" and "1" sort differently against "2". */
  lemma MixedLeavesIncomplete()
    ensures PyEq(List([Bool(true), Int(2)]), List([Int(1), Int(2)]))
    ensures !IsEqual(List([Bool(true), Int(2)]), List([Int(1), Int(2)]))
  {
    TrueAfterTwo();
    OneBeforeTwo();
    TwoIsNotOne();
  }

  lemma TwoIsNotOne()
    ensures PyEq(List([Bool(true), Int(2)]), List([Int(1), Int(2)]))
    ensures !PyEq(List([Int(2), Bool(true)]), List([Int(1), Int(2)]))
  {
    var a, b := List([Int(2), Bool(true)]), List([Int(1), Int(2)]);
    assert !PyEq(a.items[0], b.items[0]);
  }

  lemma TrueAfterTwo()
    ensures Canon(List([Bool(true), Int(2)])) == List([Int(2), Bool(true)])
  {
    OneTwoText();
    SwapTwo(Dumps, Bool(true), Int(2));
    CanonOfNumbers([Bool(true), Int(2)]);
  }

  lemma OneBeforeTwo()
    ensures Canon(List([Int(1), Int(2)])) == List([Int(1), Int(2)])
  {
    OneTwoText();
    KeepTwo(Dumps, Int(1), Int(2));
    CanonOfNumbers([Int(1), Int(2)]);
  }

  /** Numbers are sorted as texts, where a prefix comes first. */
  lemma OneBeforeTen()
    ensures Canon(List([Int(10), Int(1)])) == List([Int(1), Int(10)])
  {
    OneTenText();
    SwapTwo(Dumps, Int(10), Int(1));
    CanonOfNumbers([Int(10), Int(1)]);
  }

  lemma OneTenText()
    ensures !LexLeq(Dumps(Int(10)), Dumps(Int(1)))
  {
    assert Dumps(Int(1)) == [Digit(1)] && Dumps(Int(10)) == [Digit(1)] + [Digit(0)];
    assert Dumps(Int(10))[1..] != "" && Dumps(Int(1))[1..] == "";
  }

  lemma OneTwoText()
    ensures !LexLeq(Dumps(Bool(true)), Dumps(Int(2)))
    ensures LexLeq(Dumps(Int(1)), Dumps(Int(2)))
  {
    assert Dumps(Int(1)) == Decimal(1) == [Digit(1)] && Dumps(Int(2)) == Decimal(2) == [Digit(2)];
  }

  predicate IsNumber(x: Value) {
    x.Int? || x.Bool?
  }

  lemma CanonOfNumber(x: Value)
    requires IsNumber(x)
    ensures Canon(x) == x
  {
  }

  lemma CanonOfNumbers(xs: seq<Value>)
    requires forall i :: 0 <= i < |xs| ==> IsNumber(xs[i])
    ensures Canon(List(xs)) == List(SortBy(Dumps, xs))
  {
    var items := CanonItems(xs);
    forall i | 0 <= i < |xs| ensures items[i] == xs[i] {
      CanonOfNumber(xs[i]);
    }
    assert items == xs;
  }

  lemma CanonOne(x: Value)
    requires IsNumber(x)
    ensures Canon(List([x])) == List([x])
  {
    CanonOfNumbers([x]);
    SortBySortedIsIdentity(Dumps, [x]);
  }

  lemma KeepTwo<T>(key: T -> string, x: T, y: T)
    requires LexLeq(key(x), key(y))
    ensures SortBy(key, [x, y]) == [x, y]
  {
    SortBySortedIsIdentity(key, [x, y]);
  }

  lemma SwapTwo<T>(key: T -> string, x: T, y: T)
    requires !LexLeq(key(x), key(y))
    ensures SortBy(key, [x, y]) == [y, x]
  {
    assert [x, y][1..] == [y] && [y][1..] == [];
    SortBySortedIsIdentity(key, [y]);
    assert SortBy(key, [x, y]) == InsertBy(key, x, [y]);
    assert InsertBy(key, x, []) == [x];
  }
}
