/** Python's `sorted` with a string key, and permutations of sequences. */
module Sorting {
  import opened Collections
  import opened Text

  predicate SortedBy<T>(key: T -> string, xs: seq<T>) {
    forall i, j :: 0 <= i < j < |xs| ==> LexLeq(key(xs[i]), key(xs[j]))
  }

  /** The place of `x` is before the first element with a key at least as large, so equal keys keep their order. */
  function InsertBy<T>(key: T -> string, x: T, xs: seq<T>): (r: seq<T>)
    ensures multiset(r) == multiset([x] + xs)
  {
    if xs == [] || LexLeq(key(x), key(xs[0])) then [x] + xs
    else
      assert xs == [xs[0]] + xs[1..];
      [xs[0]] + InsertBy(key, x, xs[1..])
  }

  function SortBy<T>(key: T -> string, xs: seq<T>): (r: seq<T>)
    ensures multiset(r) == multiset(xs)
  {
    if xs == [] then []
    else
      assert xs == [xs[0]] + xs[1..];
      InsertBy(key, xs[0], SortBy(key, xs[1..]))
  }

  lemma SameElement<T>(xs: seq<T>, ys: seq<T>, x: T)
    requires multiset(xs) == multiset(ys)
    ensures |xs| == |ys|
    ensures x in xs <==> x in ys
  {
    assert |multiset(xs)| == |multiset(ys)|;
    assert x in multiset(xs) <==> x in multiset(ys);
  }

  lemma {:induction false} InsertBySorted<T>(key: T -> string, x: T, xs: seq<T>)
    requires SortedBy(key, xs)
    ensures SortedBy(key, InsertBy(key, x, xs))
  {
    if xs == [] {
    } else if LexLeq(key(x), key(xs[0])) {
      forall j | 0 <= j < |xs| ensures LexLeq(key(x), key(xs[j])) {
        if j > 0 {
          LexTransitive(key(x), key(xs[0]), key(xs[j]));
        }
      }
    } else {
      LexTotal(key(x), key(xs[0]));
      var r, w := InsertBy(key, x, xs[1..]), [x] + xs[1..];
      InsertBySorted(key, x, xs[1..]);
      forall j | 0 <= j < |r| ensures LexLeq(key(xs[0]), key(r[j])) {
        SameElement(r, w, r[j]);
      }
    }
  }

  lemma {:induction false} SortBySorted<T>(key: T -> string, xs: seq<T>)
    ensures SortedBy(key, SortBy(key, xs))
  {
    if xs != [] {
      SortBySorted(key, xs[1..]);
      InsertBySorted(key, xs[0], SortBy(key, xs[1..]));
    }
  }

  lemma {:induction false} SortBySortedIsIdentity<T>(key: T -> string, xs: seq<T>)
    requires SortedBy(key, xs)
    ensures SortBy(key, xs) == xs
  {
    if xs != [] {
      SortBySortedIsIdentity(key, xs[1..]);
      assert xs == [xs[0]] + xs[1..];
    }
  }

  predicate KeyInjective<T(==)>(key: T -> string, xs: seq<T>) {
    forall x, y :: x in xs && y in xs && key(x) == key(y) ==> x == y
  }

  lemma TailMultiset<T>(xs: seq<T>)
    requires xs != []
    ensures multiset(xs[1..]) == multiset(xs) - multiset{xs[0]}
  {
    assert xs == [xs[0]] + xs[1..];
  }

  lemma HeadIsLeast<T>(key: T -> string, xs: seq<T>, x: T)
    requires SortedBy(key, xs) && x in xs
    ensures LexLeq(key(xs[0]), key(x))
  {
    LexReflexive(key(x));
  }

  lemma SameLength<T>(xs: seq<T>, ys: seq<T>)
    requires multiset(xs) == multiset(ys)
    ensures |xs| == |ys|
  {
    assert |multiset(xs)| == |xs| && |multiset(ys)| == |ys|;
  }

  lemma HeadsEqual<T>(key: T -> string, xs: seq<T>, ys: seq<T>)
    requires SortedBy(key, xs) && SortedBy(key, ys) && xs != []
    requires multiset(xs) == multiset(ys) && KeyInjective(key, xs)
    ensures ys != [] && xs[0] == ys[0]
  {
    SameElement(xs, ys, xs[0]);
    SameElement(xs, ys, ys[0]);
    HeadIsLeast(key, xs, ys[0]);
    HeadIsLeast(key, ys, xs[0]);
    LexAntisymmetric(key(xs[0]), key(ys[0]));
  }

  lemma TailsAgree<T>(key: T -> string, xs: seq<T>, ys: seq<T>)
    requires SortedBy(key, xs) && SortedBy(key, ys) && KeyInjective(key, xs)
    requires xs != [] && ys != [] && xs[0] == ys[0] && multiset(xs) == multiset(ys)
    ensures SortedBy(key, xs[1..]) && SortedBy(key, ys[1..]) && KeyInjective(key, xs[1..])
    ensures multiset(xs[1..]) == multiset(ys[1..])
  {
    TailMultiset(xs);
    TailMultiset(ys);
  }

  lemma SameHeadAndTail<T>(xs: seq<T>, ys: seq<T>)
    requires xs != [] && ys != [] && xs[0] == ys[0] && xs[1..] == ys[1..]
    ensures xs == ys
  {
    assert xs == [xs[0]] + xs[1..] && ys == [ys[0]] + ys[1..];
  }

  /** When the key tells the elements apart there is only one sorted order, whatever the sorting algorithm. */
  lemma {:induction false} SortedUnique<T>(key: T -> string, xs: seq<T>, ys: seq<T>)
    requires SortedBy(key, xs) && SortedBy(key, ys)
    requires multiset(xs) == multiset(ys)
    requires KeyInjective(key, xs)
    ensures xs == ys
  {
    SameLength(xs, ys);
    if xs != [] {
      HeadsEqual(key, xs, ys);
      TailsAgree(key, xs, ys);
      SortedUnique(key, xs[1..], ys[1..]);
      SameHeadAndTail(xs, ys);
    }
  }

  /** A sorted permutation is what sorting gives. */
  lemma SortedExactly<T>(key: T -> string, xs: seq<T>, r: seq<T>)
    requires KeyInjective(key, xs)
    ensures SortBy(key, xs) == r <==> multiset(r) == multiset(xs) && SortedBy(key, r)
  {
    SortBySorted(key, xs);
    if multiset(r) == multiset(xs) && SortedBy(key, r) {
      forall x | x in r ensures x in xs {
        SameElement(r, xs, x);
      }
      SortedUnique(key, r, SortBy(key, xs));
    }
  }

  lemma {:induction false} LexReflexive(a: string)
    ensures LexLeq(a, a)
  {
    if a != "" {
      LexReflexive(a[1..]);
    }
  }

  // ----- Permutations as maps of positions -----

  predicate IsPermutation(p: seq<nat>, n: nat) {
    && |p| == n
    && (forall i :: 0 <= i < n ==> p[i] < n)
    && (forall i, j :: 0 <= i < j < n ==> p[i] != p[j])
  }

  ghost predicate Matches<T>(p: seq<nat>, xs: seq<T>, ys: seq<T>) {
    && |xs| == |ys|
    && IsPermutation(p, |xs|)
    && forall i :: 0 <= i < |xs| ==> xs[i] == ys[p[i]]
  }

  function Without<T>(xs: seq<T>, k: nat): (r: seq<T>)
    requires k < |xs|
    ensures |r| == |xs| - 1
    ensures forall i :: 0 <= i < |r| ==> r[i] == if i < k then xs[i] else xs[i + 1]
    ensures multiset(r) == multiset(xs) - multiset{xs[k]}
  {
    assert xs == xs[..k] + [xs[k]] + xs[k + 1..];
    xs[..k] + xs[k + 1..]
  }

  /** The permutation that sends 0 to `k` and the rest as `q` does, around `k`. */
  function Extend(k: nat, q: seq<nat>): (p: seq<nat>)
    ensures |p| == |q| + 1 && p[0] == k
    ensures forall i :: 0 <= i < |q| ==> p[i + 1] == if q[i] < k then q[i] else q[i] + 1
  {
    [k] + seq(|q|, i requires 0 <= i < |q| => if q[i] < k then q[i] else q[i] + 1)
  }

  lemma ExtendIsPermutation(k: nat, q: seq<nat>)
    requires IsPermutation(q, |q|) && k <= |q|
    ensures IsPermutation(Extend(k, q), |q| + 1)
  {
    var p := Extend(k, q);
    forall i, j | 0 <= i < j < |p| ensures p[i] != p[j] {
      if i > 0 {
        assert q[i - 1] != q[j - 1];
      }
    }
  }

  lemma ExtendKeepsItem<T>(k: nat, q: seq<nat>, xs: seq<T>, ys: seq<T>, i: nat)
    requires xs != [] && k < |ys| && Matches(q, xs[1..], Without(ys, k)) && i < |q|
    ensures Extend(k, q)[i + 1] < |ys| && xs[i + 1] == ys[Extend(k, q)[i + 1]]
  {
    assert xs[1..][i] == Without(ys, k)[q[i]];
  }

  lemma ExtendMatches<T>(k: nat, q: seq<nat>, xs: seq<T>, ys: seq<T>)
    requires xs != [] && k < |ys| && ys[k] == xs[0]
    requires Matches(q, xs[1..], Without(ys, k))
    ensures Matches(Extend(k, q), xs, ys)
  {
    ExtendIsPermutation(k, q);
    var p := Extend(k, q);
    forall i | 0 <= i < |xs| ensures xs[i] == ys[p[i]] {
      if i > 0 {
        ExtendKeepsItem(k, q, xs, ys, i - 1);
      }
    }
  }

  lemma {:induction false} MatchOfMultiset<T>(xs: seq<T>, ys: seq<T>) returns (p: seq<nat>)
    requires multiset(xs) == multiset(ys)
    ensures Matches(p, xs, ys)
  {
    assert |multiset(xs)| == |multiset(ys)|;
    if xs == [] {
      p := [];
    } else {
      SameElement(xs, ys, xs[0]);
      var k :| 0 <= k < |ys| && ys[k] == xs[0];
      TailMultiset(xs);
      var q := MatchOfMultiset(xs[1..], Without(ys, k));
      ExtendMatches(k, q, xs, ys);
      p := Extend(k, q);
    }
  }

  lemma MatchExactly<T>(xs: seq<T>, ys: seq<T>)
    ensures multiset(xs) == multiset(ys) <==> exists p: seq<nat> :: Matches(p, xs, ys)
  {
    if multiset(xs) == multiset(ys) {
      var p := MatchOfMultiset(xs, ys);
    }
    if p: seq<nat> :| Matches(p, xs, ys) {
      MultisetOfMatch(p, xs, ys);
    }
  }

  function Restrict(p: seq<nat>): (q: seq<nat>)
    requires p != [] && IsPermutation(p, |p|)
    ensures IsPermutation(q, |p| - 1)
    ensures forall i :: 0 <= i < |q| ==> q[i] == if p[i + 1] < p[0] then p[i + 1] else p[i + 1] - 1
  {
    seq(|p| - 1, i requires 0 <= i < |p| - 1 => if p[i + 1] < p[0] then p[i + 1] else p[i + 1] - 1)
  }

  lemma {:induction false} MultisetOfMatch<T>(p: seq<nat>, xs: seq<T>, ys: seq<T>)
    requires Matches(p, xs, ys)
    ensures multiset(xs) == multiset(ys)
    decreases |xs|
  {
    if xs != [] {
      MultisetOfMatch(Restrict(p), xs[1..], Without(ys, p[0]));
      TailMultiset(xs);
      var y := ys[p[0]];
      assert y in ys;
      assert multiset(xs) == multiset(xs[1..]) + multiset{y};
      assert multiset(ys) == multiset(Without(ys, p[0])) + multiset{y};
    }
  }

  // ----- Sequences without repetition -----

  lemma {:induction false} CountNoDuplicates<T>(xs: seq<T>, x: T)
    requires NoDuplicates(xs)
    ensures multiset(xs)[x] == if x in xs then 1 else 0
  {
    if xs != [] {
      assert xs == [xs[0]] + xs[1..];
      CountNoDuplicates(xs[1..], x);
    }
  }

  lemma SameSetSameMultiset<T>(xs: seq<T>, ys: seq<T>)
    requires NoDuplicates(xs) && NoDuplicates(ys)
    requires forall x :: x in xs <==> x in ys
    ensures multiset(xs) == multiset(ys)
  {
    forall x ensures multiset(xs)[x] == multiset(ys)[x] {
      CountNoDuplicates(xs, x);
      CountNoDuplicates(ys, x);
    }
  }

  // ----- Sorting by precomputed keys -----

  function TextAt(texts: seq<string>): nat -> string {
    (i: nat) => if i < |texts| then texts[i] else ""
  }

  function Range(n: nat): (r: seq<nat>)
    ensures |r| == n && forall i :: 0 <= i < n ==> r[i] == i
  {
    seq(n, i => i)
  }

  /** The positions of `texts` in sorted order. */
  function SortOrder(texts: seq<string>): (p: seq<nat>)
    ensures IsPermutation(p, |texts|)
    ensures forall i :: 0 <= i < |texts| ==> i in p
  {
    var p := SortBy<nat>(TextAt(texts), Range(|texts|));
    SortedRange(p, |texts|);
    p
  }

  lemma SortedRange(p: seq<nat>, n: nat)
    requires multiset(p) == multiset(Range(n))
    ensures IsPermutation(p, n)
    ensures forall i :: 0 <= i < n ==> i in p
  {
    var q := MatchOfMultiset(p, Range(n));
    assert p == q;
    forall i | 0 <= i < n ensures i in p {
      assert Range(n)[i] == i;
      SameElement(p, Range(n), i);
    }
  }

  predicate Within(p: seq<nat>, n: nat) {
    forall i :: 0 <= i < |p| ==> p[i] < n
  }

  function Pick<T>(xs: seq<T>, p: seq<nat>): (r: seq<T>)
    requires Within(p, |xs|)
    ensures |r| == |p| && forall i :: 0 <= i < |r| ==> r[i] == xs[p[i]]
  {
    seq(|p|, i requires 0 <= i < |p| => xs[p[i]])
  }

  predicate TextsOf<T>(key: T -> string, xs: seq<T>, texts: seq<string>) {
    |texts| == |xs| && forall i :: 0 <= i < |xs| ==> texts[i] == key(xs[i])
  }

  lemma WithinSorted(p: seq<nat>, q: seq<nat>, n: nat)
    requires multiset(p) == multiset(q) && Within(q, n)
    ensures Within(p, n)
  {
    forall i | 0 <= i < |p| ensures p[i] < n {
      SameElement(p, q, p[i]);
    }
  }

  lemma PickCons<T>(xs: seq<T>, k: nat, q: seq<nat>)
    requires k < |xs| && Within(q, |xs|)
    ensures Within([k] + q, |xs|) && Pick(xs, [k] + q) == [xs[k]] + Pick(xs, q)
  {
  }

  lemma PickTail<T>(xs: seq<T>, q: seq<nat>)
    requires q != [] && Within(q, |xs|)
    ensures Within(q[1..], |xs|) && Pick(xs, q[1..]) == Pick(xs, q)[1..]
  {
  }

  lemma {:induction false} PickInsertBy<T>(key: T -> string, xs: seq<T>, texts: seq<string>, k: nat, q: seq<nat>)
    requires TextsOf(key, xs, texts)
    requires k < |xs| && Within(q, |xs|)
    ensures Within(InsertBy<nat>(TextAt(texts), k, q), |xs|)
    ensures Pick(xs, InsertBy<nat>(TextAt(texts), k, q)) == InsertBy(key, xs[k], Pick(xs, q))
  {
    if q == [] || LexLeq(texts[k], texts[q[0]]) {
      PickCons(xs, k, q);
    } else {
      PickTail(xs, q);
      PickInsertBy(key, xs, texts, k, q[1..]);
      PickCons(xs, q[0], InsertBy<nat>(TextAt(texts), k, q[1..]));
    }
  }

  lemma {:induction false} PickSortBy<T>(key: T -> string, xs: seq<T>, texts: seq<string>, q: seq<nat>)
    requires TextsOf(key, xs, texts)
    requires Within(q, |xs|)
    ensures Within(SortBy<nat>(TextAt(texts), q), |xs|)
    ensures Pick(xs, SortBy<nat>(TextAt(texts), q)) == SortBy(key, Pick(xs, q))
  {
    WithinSorted(SortBy<nat>(TextAt(texts), q), q, |xs|);
    if q != [] {
      PickSortBy(key, xs, texts, q[1..]);
      PickTail(xs, q);
      PickInsertBy(key, xs, texts, q[0], SortBy<nat>(TextAt(texts), q[1..]));
    }
  }

  /** Sorting the positions by key and then taking the elements there is sorting the elements. */
  lemma SortOrderSorts<T>(key: T -> string, xs: seq<T>, texts: seq<string>)
    requires TextsOf(key, xs, texts)
    ensures Within(SortOrder(texts), |xs|)
    ensures Pick(xs, SortOrder(texts)) == SortBy(key, xs)
  {
    PickSortBy(key, xs, texts, Range(|texts|));
    assert Pick(xs, Range(|texts|)) == xs;
  }
}
