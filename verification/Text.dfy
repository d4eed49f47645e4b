/** Python strings as sequences of Unicode scalar values: their order and their decimal numerals. */
module Text {

  // ----- Order of strings -----

  /** Python's `<=` on `str`: lexicographic by code point, a proper prefix coming first. */
  predicate LexLeq(a: string, b: string) {
    a == "" || (b != "" && (a[0] < b[0] || (a[0] == b[0] && LexLeq(a[1..], b[1..]))))
  }

  lemma {:induction false} LexTotal(a: string, b: string)
    ensures LexLeq(a, b) || LexLeq(b, a)
  {
    if a != "" && b != "" && a[0] == b[0] {
      LexTotal(a[1..], b[1..]);
    }
  }

  lemma {:induction false} LexAntisymmetric(a: string, b: string)
    requires LexLeq(a, b) && LexLeq(b, a)
    ensures a == b
  {
    if a != "" && b != "" {
      LexAntisymmetric(a[1..], b[1..]);
      assert a == [a[0]] + a[1..] && b == [b[0]] + b[1..];
    }
  }

  lemma {:induction false} LexTransitive(a: string, b: string, c: string)
    requires LexLeq(a, b) && LexLeq(b, c)
    ensures LexLeq(a, c)
  {
    if a != "" && a[0] == b[0] == c[0] {
      LexTransitive(a[1..], b[1..], c[1..]);
    }
  }

  /** The order, written out: a prefix comes first, otherwise the first different character decides. */
  lemma {:induction false} LexLeqMeans(a: string, b: string)
    ensures LexLeq(a, b) <==> a <= b || exists k: nat :: k < |a| && k < |b| && a[..k] == b[..k] && a[k] < b[k]
  {
    if a != "" && b != "" {
      LexLeqMeans(a[1..], b[1..]);
      if a[0] == b[0] {
        TailsDiffer(a, b);
        assert a == [a[0]] + a[1..] && b == [b[0]] + b[1..];
      } else if a[0] < b[0] {
        assert a[..0] == b[..0];
      } else {
        forall k: nat | k < |a| && k < |b| && a[..k] == b[..k] ensures !(a[k] < b[k]) {
          SamePrefix(a, b, k);
        }
      }
    }
  }

  lemma SamePrefix(a: string, b: string, k: nat)
    requires k < |a| && k < |b| && a[..k] == b[..k]
    ensures k > 0 ==> a[0] == b[0]
  {
    if k > 0 {
      assert a[..k][0] == a[0] && b[..k][0] == b[0];
    }
  }

  lemma TailsDiffer(a: string, b: string)
    requires a != "" && b != "" && a[0] == b[0]
    ensures (exists k: nat :: k < |a| && k < |b| && a[..k] == b[..k] && a[k] < b[k]) <==>
            exists k: nat ::
              k < |a[1..]| && k < |b[1..]| && a[1..][..k] == b[1..][..k] && a[1..][k] < b[1..][k]
  {
    if k: nat :| k < |a| && k < |b| && a[..k] == b[..k] && a[k] < b[k] {
      assert a[1..][..k - 1] == a[..k][1..] && b[1..][..k - 1] == b[..k][1..];
      assert a[1..][k - 1] == a[k] && b[1..][k - 1] == b[k];
    }
    if k: nat :| k < |a[1..]| && k < |b[1..]| && a[1..][..k] == b[1..][..k] && a[1..][k] < b[1..][k] {
      assert a[..k + 1] == [a[0]] + a[1..][..k] && b[..k + 1] == [b[0]] + b[1..][..k];
      assert a[1..][k] == a[k + 1] && b[1..][k] == b[k + 1];
    }
  }

  // ----- Joining -----

  /** Python's `sep.join(parts)` */
  function JoinBy(sep: string, parts: seq<string>): string {
    if parts == [] then "" else if |parts| == 1 then parts[0] else parts[0] + sep + JoinBy(sep, parts[1..])
  }

  // ----- Decimal numerals -----

  predicate IsDigit(c: char) {
    '0' <= c <= '9'
  }

  function Digit(d: nat): (c: char)
    requires d < 10
    ensures IsDigit(c)
  {
    ('0' as int + d) as char
  }

  predicate AllDigits(s: string) {
    forall i :: 0 <= i < |s| ==> IsDigit(s[i])
  }

  /** Python's `str(n)` for a non-negative integer. */
  function Decimal(n: nat): (s: string)
    ensures s != "" && AllDigits(s)
  {
    if n < 10 then [Digit(n)] else Decimal(n / 10) + [Digit(n % 10)]
  }

  /** Python's `int(s)` for a string of digits. */
  function DecimalValue(s: string): nat
    requires AllDigits(s)
  {
    if s == "" then 0 else DecimalValue(s[..|s| - 1]) * 10 + (s[|s| - 1] as int - '0' as int)
  }

  lemma {:induction false} DecimalRoundTrip(n: nat)
    ensures DecimalValue(Decimal(n)) == n
  {
    if n >= 10 {
      DecimalRoundTrip(n / 10);
      assert Decimal(n)[..|Decimal(n)| - 1] == Decimal(n / 10);
    }
  }

  /** Each further digit multiplies the value by ten and adds the digit. */
  lemma DecimalValueReads(s: string, d: nat)
    requires AllDigits(s) && d < 10
    ensures AllDigits(s + ["0123456789"[d]])
    ensures DecimalValue("") == 0 && DecimalValue(s + ["0123456789"[d]]) == 10 * DecimalValue(s) + d
  {
    assert "0123456789"[d] as int == '0' as int + d;
    assert (s + ["0123456789"[d]])[..|s|] == s;
  }

  lemma DigitsEnd(p: string, q: string, s: string, t: string)
    requires p + s == q + t && AllDigits(q)
    requires s == "" || !IsDigit(s[0])
    ensures |q| <= |p|
  {
    if s != "" {
      assert (p + s)[|p|] == s[0];
      assert forall i :: 0 <= i < |q| ==> (q + t)[i] == q[i];
    }
  }

  /** A numeral followed by something that is not a digit can be read back in one way only. */
  lemma DecimalUnique(n: nat, m: nat, s: string, t: string)
    requires Decimal(n) + s == Decimal(m) + t
    requires s == "" || !IsDigit(s[0])
    requires t == "" || !IsDigit(t[0])
    ensures n == m && s == t
  {
    var p, q := Decimal(n), Decimal(m);
    DigitsEnd(p, q, s, t);
    DigitsEnd(q, p, t, s);
    assert p == (p + s)[..|p|] == (q + t)[..|q|] == q;
    assert s == (p + s)[|p|..] == (q + t)[|q|..] == t;
    DecimalRoundTrip(n);
    DecimalRoundTrip(m);
  }
}
