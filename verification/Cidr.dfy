/** IP prefixes and the addresses they cover (section 3.1 of RFC 4632), for both address families. */
module Cidr {

  function Pow2(n: nat): (r: nat)
    ensures r > 0
  {
    if n == 0 then 1 else 2 * Pow2(n - 1)
  }

  datatype Address = Address(v6: bool, value: nat)

  function Width(v6: bool): nat {
    if v6 then 128 else 32
  }

  datatype Network = Network(v6: bool, address: nat, length: nat)

  /** A prefix as written: an address of the family, host bits included, and a length. */
  type Prefix = p: Network | p.length <= Width(p.v6) && p.address < Pow2(Width(p.v6))
    witness Network(false, 0, 0)

  /** How many addresses the prefix covers. */
  function Size(p: Prefix): (r: nat)
    ensures r > 0
  {
    Pow2(Width(p.v6) - p.length)
  }

  /** The address agrees with the prefix on the leading `length` bits. */
  predicate Covers(p: Prefix, a: Address) {
    a.v6 == p.v6 && a.value / Size(p) == p.address / Size(p)
  }

  function Floor(x: nat, m: nat): (r: nat)
    requires m > 0
    ensures r <= x
  {
    DivRange(x, m);
    (x / m) * m
  }

  function FirstAddress(p: Prefix): (r: nat)
    ensures r <= p.address
  {
    Floor(p.address, Size(p))
  }

  /** The `cidr` of a network: the same prefix with its host bits cleared. */
  function Normal(p: Prefix): Prefix {
    Network(p.v6, FirstAddress(p), p.length)
  }

  /** Whether two prefixes share an address, as netaddr decides it: the shorter one covers the longer one. */
  predicate Overlap(p: Prefix, q: Prefix) {
    if p.length <= q.length then Covers(p, Address(q.v6, q.address)) else Covers(q, Address(p.v6, p.address))
  }

  ghost predicate InSome(ps: set<Prefix>, a: Address) {
    exists p :: p in ps && Covers(p, a)
  }

  /** The two address sets have nothing in common. */
  ghost predicate Disjoint(ps: set<Prefix>, qs: set<Prefix>) {
    forall a :: !(InSome(ps, a) && InSome(qs, a))
  }

  // ----- Powers of two and division -----

  lemma {:induction false} Pow2Sum(m: nat, n: nat)
    ensures Pow2(m + n) == Pow2(m) * Pow2(n)
  {
    if m > 0 {
      Pow2Sum(m - 1, n);
      assert Pow2(m) * Pow2(n) == 2 * (Pow2(m - 1) * Pow2(n)) by {
        assert Pow2(m) == 2 * Pow2(m - 1);
      }
    }
  }

  lemma {:induction false} Pow2Grows(m: nat, n: nat)
    requires m < n
    ensures Pow2(m) < Pow2(n)
  {
    if m < n - 1 {
      Pow2Grows(m, n - 1);
    }
  }

  lemma MulMono(m: nat, a: nat, b: nat)
    requires a <= b
    ensures a * m <= b * m
  {
  }

  lemma DivRange(x: nat, m: nat)
    requires m > 0
    ensures (x / m) * m <= x < (x / m) * m + m
  {
  }

  lemma DivUnique(x: nat, m: nat, q: nat)
    requires m > 0 && q * m <= x < q * m + m
    ensures x / m == q
  {
    var d := x / m;
    DivRange(x, m);
    SameQuotient(x, m, q, d);
  }

  lemma SameQuotient(x: nat, m: nat, q: nat, d: nat)
    requires q * m <= x < q * m + m && d * m <= x < d * m + m
    ensures q == d
  {
    if q < d {
      MulMono(m, q + 1, d);
    } else if d < q {
      MulMono(m, d + 1, q);
    }
  }

  lemma TwoSteps(x: nat, m: nat, k: nat, y: nat, q: nat)
    requires y * m <= x < y * m + m && q * k <= y < q * k + k
    ensures q * (k * m) <= x < q * (k * m) + k * m
  {
    MulMono(m, q * k, y);
    MulMono(m, y + 1, q * k + k);
    assert (q * k) * m == q * (k * m);
    assert (q * k + k) * m == (q * k) * m + k * m;
  }

  /** Dividing twice is dividing by the product. */
  lemma DivDiv(x: nat, m: nat, k: nat)
    requires m > 0 && k > 0
    ensures k * m > 0 && x / (k * m) == (x / m) / k
  {
    var y := x / m;
    MulMono(m, 1, k);
    DivRange(x, m);
    DivRange(y, k);
    TwoSteps(x, m, k, y, y / k);
    DivUnique(x, k * m, y / k);
  }

  // ----- What a prefix covers -----

  /** Each further bit doubles the number, and an address has 32 or 128 bits. */
  lemma Bits(n: nat, p: Prefix)
    ensures Pow2(0) == 1 && Pow2(n + 1) == Pow2(n) + Pow2(n)
    ensures Size(p) * Pow2(p.length) == Pow2(if p.v6 then 128 else 32)
  {
    Pow2Sum(Width(p.v6) - p.length, p.length);
  }

  /** The block starts at a multiple of its size, at most that far below the address in the prefix. */
  lemma BlockStart(p: Prefix)
    ensures exists k: nat :: FirstAddress(p) == k * Size(p)
    ensures FirstAddress(p) <= p.address < FirstAddress(p) + Size(p)
  {
    DivRange(p.address, Size(p));
    assert FirstAddress(p) == (p.address / Size(p)) * Size(p);
  }

  /** A prefix covers a block of consecutive addresses. */
  lemma CoversBlock(p: Prefix, a: Address)
    ensures Covers(p, a) <==> a.v6 == p.v6 && FirstAddress(p) <= a.value < FirstAddress(p) + Size(p)
  {
    var m := Size(p);
    DivRange(a.value, m);
    if FirstAddress(p) <= a.value < FirstAddress(p) + m {
      DivUnique(a.value, m, p.address / m);
    }
  }

  /** All covered addresses are addresses of the family. */
  lemma CoversInFamily(p: Prefix, a: Address)
    requires Covers(p, a)
    ensures a.value < Pow2(Width(p.v6))
  {
    BlockInFamily(Width(p.v6), p.length, p.address, a.value);
  }

  lemma BlockInFamily(width: nat, length: nat, x: nat, y: nat)
    requires length <= width && x < Pow2(width)
    requires x / Pow2(width - length) == y / Pow2(width - length)
    ensures y < Pow2(width)
  {
    Pow2Sum(length, width - length);
    BlockTop(x, Pow2(width - length), Pow2(length), y);
  }

  lemma BlockTop(x: nat, m: nat, n: nat, y: nat)
    requires m > 0 && x < n * m && x / m == y / m
    ensures y < n * m
  {
    DivRange(x, m);
    DivRange(y, m);
    BelowProduct(x / m, m, n, x, y);
  }

  lemma BelowProduct(q: nat, m: nat, n: nat, x: nat, y: nat)
    requires q * m <= x < n * m && q * m <= y < q * m + m
    ensures y < n * m
  {
    if n <= q {
      MulMono(m, n, q);
    } else {
      MulMono(m, q + 1, n);
    }
  }

  /** Prefixes are nested or disjoint, so comparing the leading bits once decides whether they share an address. */
  lemma OverlapIsCommonAddress(p: Prefix, q: Prefix)
    ensures Overlap(p, q) <==> exists a :: Covers(p, a) && Covers(q, a)
  {
    if p.length <= q.length {
      CoveredByShorter(p, q);
      assert Covers(q, Address(q.v6, q.address));
    } else {
      CoveredByShorter(q, p);
      assert Covers(p, Address(p.v6, p.address));
    }
  }

  lemma CoveredByShorter(p: Prefix, q: Prefix)
    requires p.length <= q.length
    ensures forall a :: Covers(p, a) && Covers(q, a) ==> Covers(p, Address(q.v6, q.address))
  {
    forall a | Covers(p, a) && Covers(q, a) ensures Covers(p, Address(q.v6, q.address)) {
      var k := Pow2(q.length - p.length);
      Pow2Sum(q.length - p.length, Width(q.v6) - q.length);
      assert Size(p) == k * Size(q);
      DivDiv(a.value, Size(q), k);
      DivDiv(q.address, Size(q), k);
    }
  }

  /** Two prefixes normalise alike exactly when they cover the same addresses. */
  lemma NormalIsAddressSet(p: Prefix, q: Prefix)
    ensures Normal(p) == Normal(q) <==> forall a :: Covers(p, a) <==> Covers(q, a)
  {
    if Normal(p) == Normal(q) {
      forall a ensures Covers(p, a) <==> Covers(q, a) {
        CoversBlock(p, a);
        CoversBlock(q, a);
      }
    } else if forall a :: Covers(p, a) <==> Covers(q, a) {
      SameBlock(p, q);
    }
  }

  lemma SameBlock(p: Prefix, q: Prefix)
    requires forall a :: Covers(p, a) <==> Covers(q, a)
    ensures Normal(p) == Normal(q)
  {
    var firstP, lastP := Address(p.v6, FirstAddress(p)), Address(p.v6, FirstAddress(p) + Size(p) - 1);
    var firstQ, lastQ := Address(q.v6, FirstAddress(q)), Address(q.v6, FirstAddress(q) + Size(q) - 1);
    CoversBlock(p, firstP);
    CoversBlock(q, firstP);
    CoversBlock(p, lastP);
    CoversBlock(q, lastP);
    CoversBlock(p, firstQ);
    CoversBlock(q, firstQ);
    CoversBlock(p, lastQ);
    CoversBlock(q, lastQ);
    assert Size(p) == Size(q);
    if p.length < q.length {
      Pow2Grows(Width(q.v6) - q.length, Width(p.v6) - p.length);
    } else if q.length < p.length {
      Pow2Grows(Width(p.v6) - p.length, Width(q.v6) - q.length);
    }
  }

  /** No address in common: no prefix of the one side overlaps one of the other. */
  lemma DisjointIsNoOverlap(ps: set<Prefix>, qs: set<Prefix>)
    ensures Disjoint(ps, qs) <==> forall p, q :: p in ps && q in qs ==> !Overlap(p, q)
  {
    if Disjoint(ps, qs) {
      forall p, q | p in ps && q in qs ensures !Overlap(p, q) {
        OverlapIsCommonAddress(p, q);
        assert forall a :: Covers(p, a) && Covers(q, a) ==> InSome(ps, a) && InSome(qs, a);
      }
    } else {
      var a :| InSome(ps, a) && InSome(qs, a);
      var p :| p in ps && Covers(p, a);
      var q :| q in qs && Covers(q, a);
      OverlapIsCommonAddress(p, q);
    }
  }
}
