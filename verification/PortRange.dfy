/** Port ranges as text: the validator, the database codec and the expansion for the NSX backend.
    gbpservice/neutron/extensions/group_policy.py, lines 279 to 303;
    gbpservice/neutron/db/grouppolicy/group_policy_db.py, lines 517 to 531;
    gbpservice/contrib/vmware/nsx_policy_mapping.py, lines 387 to 392. */
module PortRange {
  import opened Collections
  import opened Text

  const MAX_PORT := 65535

  /** Python's `int` on a numeral; None is the ValueError. */
  function Int(s: string): Option<nat> {
    if s != "" && AllDigits(s) then Some(DecimalValue(s)) else None
  }

  /** Where the first colon is; the length of the text if there is none. */
  function Colon(s: string): (i: nat)
    ensures i <= |s| && (i < |s| ==> s[i] == ':') && ':' !in s[..i]
  {
    if s == "" || s[0] == ':' then 0
    else
      assert s[..1 + Colon(s[1..])] == [s[0]] + s[1..][..Colon(s[1..])];
      1 + Colon(s[1..])
  }

  /** `split(':', 1)` */
  function SplitOnce(s: string): (r: seq<string>)
    ensures |r| == 1 || |r| == 2
  {
    if Colon(s) == |s| then [s] else [s[..Colon(s)], s[Colon(s) + 1..]]
  }

  lemma {:induction false} ColonOfJoined(lo: string, rest: string)
    requires ':' !in lo
    ensures Colon(lo + rest) == |lo| + Colon(rest)
  {
    if lo == "" {
      assert lo + rest == rest;
    } else {
      assert (lo + rest)[1..] == lo[1..] + rest;
      ColonOfJoined(lo[1..], rest);
    }
  }

  lemma SplitJoined(lo: string, hi: string)
    requires ':' !in lo
    ensures SplitOnce(lo) == [lo] && SplitOnce(lo + ":" + hi) == [lo, hi]
  {
    var rest := ":" + hi;
    ColonOfJoined(lo, "");
    ColonOfJoined(lo, rest);
    assert lo + "" == lo && lo + ":" + hi == lo + rest;
    assert (lo + rest)[..|lo|] == lo && (lo + rest)[|lo| + 1..] == hi;
  }

  lemma NumeralsHaveNoColon(s: string)
    requires AllDigits(s)
    ensures ':' !in s
  {
  }

  // ----- What the texts mean -----

  /** The text is a port, or two ports in increasing order. */
  ghost predicate Accepts(text: string) {
    || (exists p :: IsPort(text, p))
    || (exists lo, hi :: IsPorts(text, lo, hi))
  }

  ghost predicate IsPorts(text: string, lo: string, hi: string) {
    text == lo + ":" + hi && exists min, max :: IsPort(lo, min) && IsPort(hi, max) && min < max
  }

  ghost predicate IsPort(s: string, p: nat) {
    Int(s) == Some(p) && 1 <= p <= 65535
  }

  /** _get_min_max_ports_from_range of a non-empty text; None is a ValueError. */
  function Parse(text: string): Option<(nat, nat)> {
    var ports := SplitOnce(text);
    var min := Int(ports[0]);
    var max := if |ports| == 1 || ports[1] == "" then min else Int(ports[1]);
    if min.Some? && max.Some? then Some((min.value, max.value)) else None
  }

  /** _get_port_range_from_min_max_ports of two ports */
  function Print(min: nat, max: nat): string {
    if min == max then Decimal(min) else Decimal(min) + ":" + Decimal(max)
  }

  /** _validate_gbp_port_range */
  method ValidatePortRange(data: string) returns (ok: bool)
    ensures ok <==> Accepts(data)
  {
    var ports := SplitOnce(data);
    var lowerRange := 0;
    SplitDecides(data);
    for i := 0 to |ports|
      invariant i > 0 ==> IsPort(ports[i - 1], lowerRange)
      invariant i == 0 ==> lowerRange == 0
      invariant i == 2 ==> exists p :: IsPort(ports[0], p) && p < lowerRange
    {
      var val := Int(ports[i]);
      if val.None? {
        return false;
      }
      if val.value <= 0 || val.value > MAX_PORT {
        return false;
      }
      if val.value <= lowerRange {
        return false;
      }
      lowerRange := val.value;
    }
    return true;
  }

  /** Splitting loses nothing the meaning depends on. */
  lemma SplitDecides(text: string)
    ensures var ports := SplitOnce(text);
            if |ports| == 1 then Accepts(text) <==> exists p :: IsPort(ports[0], p)
            else Accepts(text) <==> exists min, max :: IsPort(ports[0], min) && IsPort(ports[1], max) && min < max
  {
    var ports := SplitOnce(text);
    if p :| IsPort(text, p) {
      NumeralsHaveNoColon(text);
      SplitJoined(text, "");
      assert IsPort(ports[0], p);
    } else if lo, hi :| IsPorts(text, lo, hi) {
      var min, max :| IsPort(lo, min) && IsPort(hi, max) && min < max;
      NumeralsHaveNoColon(lo);
      SplitJoined(lo, hi);
      assert IsPort(ports[0], min) && IsPort(ports[1], max);
    } else if |ports| == 2 {
      assert text == ports[0] + ":" + ports[1];
      assert !IsPorts(text, ports[0], ports[1]);
    }
  }

  /** A numeral is a non-empty text of decimal digits. */
  lemma IntExactly(s: string)
    ensures Int(s).Some? <==> s != "" && forall i :: 0 <= i < |s| ==> s[i] in "0123456789"
  {
    forall c: char ensures IsDigit(c) <==> c in "0123456789" {
      if IsDigit(c) {
        var d := c as int - '0' as int;
        assert "0123456789"[d] as int == c as int;
      }
    }
  }

  /** A range is written with a colon; one port stands for itself, with or without a colon behind it. */
  lemma TextsOfRange(min: nat, max: nat)
    requires 1 <= min < max <= 65535
    ensures Print(min, max) == Decimal(min) + ":" + Decimal(max) && Parse(Print(min, max)) == Some((min, max))
  {
    PrintThenParse(min, max);
  }

  lemma TextsOfPort(p: nat)
    requires 1 <= p <= 65535
    ensures Print(p, p) == Decimal(p) && Parse(Decimal(p)) == Some((p, p)) == Parse(Decimal(p) + ":")
  {
    PrintThenParse(p, p);
    PrintedPort(p);
    SplitJoined(Decimal(p), "");
    assert Decimal(p) + ":" + "" == Decimal(p) + ":";
  }

  // ----- Round trips -----

  lemma PrintedPort(p: nat)
    ensures Int(Decimal(p)) == Some(p) && ':' !in Decimal(p)
  {
    DecimalRoundTrip(p);
    NumeralsHaveNoColon(Decimal(p));
  }

  /** What the database prints is accepted and reads back as the same range. */
  lemma PrintThenParse(min: nat, max: nat)
    requires 1 <= min <= max <= 65535
    ensures Accepts(Print(min, max)) && Parse(Print(min, max)) == Some((min, max))
  {
    PrintedPort(min);
    PrintedPort(max);
    SplitJoined(Decimal(min), Decimal(max));
    assert IsPort(Decimal(min), min) && IsPort(Decimal(max), max);
    assert min < max ==> IsPorts(Print(min, max), Decimal(min), Decimal(max));
  }

  /** Every accepted text reads as a range of ports. */
  lemma AcceptedParses(text: string)
    requires Accepts(text)
    ensures Parse(text).Some?
    ensures var (min, max) := Parse(text).value; 1 <= min <= max <= 65535
    ensures var (min, max) := Parse(text).value; min == max <==> |SplitOnce(text)| == 1
  {
    SplitDecides(text);
  }

  // ----- Canonical numerals -----

  predicate NoLeadingZero(s: string) {
    s != "" && s[0] != '0'
  }

  lemma {:induction false} DecimalNoLeadingZero(n: nat)
    requires n > 0
    ensures NoLeadingZero(Decimal(n))
  {
    if n >= 10 {
      DecimalNoLeadingZero(n / 10);
      assert Decimal(n)[0] == Decimal(n / 10)[0];
    }
  }

  lemma {:induction false} CanonicalNumeral(s: string)
    requires AllDigits(s) && NoLeadingZero(s)
    ensures DecimalValue(s) > 0 && Decimal(DecimalValue(s)) == s
  {
    var last := s[|s| - 1] as int - '0' as int;
    var front := s[..|s| - 1];
    if |s| == 1 {
      assert front == "" && DecimalValue(front) == 0;
      assert s == [Digit(last)];
    } else {
      CanonicalNumeral(front);
      assert s == front + [Digit(last)];
      assert DecimalValue(s) / 10 == DecimalValue(front) && DecimalValue(s) % 10 == last;
    }
  }

  /** Printing a range that was read gives a text of the same meaning; the same text exactly if no port has a leading
      zero. */
  lemma ParseThenPrint(text: string)
    requires Accepts(text)
    ensures Parse(text).Some?
    ensures var (min, max) := Parse(text).value; var printed := Print(min, max);
            && Accepts(printed) && Parse(printed) == Parse(text)
            && (printed == text <==> forall port :: port in SplitOnce(text) ==> NoLeadingZero(port))
  {
    AcceptedParses(text);
    var (min, max) := Parse(text).value;
    PrintThenParse(min, max);
    PrintedAlike(text, min, max);
  }

  lemma NumeralAlike(s: string, p: nat)
    requires IsPort(s, p)
    ensures Decimal(p) == s <==> NoLeadingZero(s)
  {
    DecimalNoLeadingZero(p);
    if NoLeadingZero(s) {
      CanonicalNumeral(s);
    }
  }

  lemma JoinedAlike(a: string, b: string, c: string, d: string)
    requires ':' !in a && ':' !in c
    ensures a + ":" + b == c + ":" + d <==> a == c && b == d
  {
    SplitJoined(a, b);
    SplitJoined(c, d);
    if a + ":" + b == c + ":" + d {
      assert [a, b] == [c, d];
      assert [a, b][0] == [c, d][0] && [a, b][1] == [c, d][1];
    }
  }

  lemma PrintedAlike(text: string, min: nat, max: nat)
    requires Accepts(text) && Parse(text) == Some((min, max))
    requires min == max <==> |SplitOnce(text)| == 1
    ensures Print(min, max) == text <==> forall port :: port in SplitOnce(text) ==> NoLeadingZero(port)
  {
    SplitDecides(text);
    var ports := SplitOnce(text);
    assert IsPort(ports[0], min) && IsPort(ports[|ports| - 1], max);
    NumeralAlike(ports[0], min);
    NumeralAlike(ports[|ports| - 1], max);
    if |ports| == 2 {
      PrintedPort(min);
      NumeralsHaveNoColon(ports[0]);
      assert text == ports[0] + ":" + ports[1];
      JoinedAlike(Decimal(min), Decimal(max), ports[0], ports[1]);
      assert forall port :: port in ports <==> port == ports[0] || port == ports[1];
    }
  }

  // ----- The service of the NSX backend -----

  /** The ports from `lower` to `upper`, printed. */
  function PortTexts(lower: nat, upper: int): (r: seq<string>)
    requires lower <= upper + 1
    ensures |r| == upper + 1 - lower && forall i :: 0 <= i < |r| ==> r[i] == Decimal(lower + i)
  {
    seq(upper + 1 - lower, i requires 0 <= i => Decimal(lower + i))
  }

  /** The list of ports create_policy_classifier_postcommit hands over for a non-empty range. */
  method ServicePorts(portRange: string) returns (ports: seq<string>)
    requires Accepts(portRange)
    ensures var (min, max) := Parse(portRange).value; min <= max && ports == PortTexts(min, max)
  {
    AcceptedParses(portRange);
    SplitDecides(portRange);
    var parts := SplitOnce(portRange);
    var lower := Int(parts[0]).value;
    var upper := Int(parts[|parts| - 1]).value + 1;
    ports := [];
    for p := lower to upper
      invariant lower <= p && ports == PortTexts(lower, p - 1)
    {
      ports := ports + [Decimal(p)];
    }
  }

  /** A port is served exactly if it lies in the range of the text the user wrote, after storing and printing it. */
  lemma ServesTheRange(text: string, p: nat)
    requires Accepts(text)
    ensures Parse(text).Some?
    ensures var (min, max) := Parse(text).value;
            && min <= max && Parse(Print(min, max)) == Some((min, max))
            && (Decimal(p) in PortTexts(min, max) <==> min <= p <= max)
  {
    AcceptedParses(text);
    var (min, max) := Parse(text).value;
    PrintThenParse(min, max);
    PortTextsMember(min, max, p);
  }

  lemma PortTextsMember(min: nat, max: nat, p: nat)
    requires min <= max
    ensures Decimal(p) in PortTexts(min, max) <==> min <= p <= max
  {
    var ports := PortTexts(min, max);
    if min <= p <= max {
      assert ports[p - min] == Decimal(p);
    } else if Decimal(p) in ports {
      var i :| 0 <= i < |ports| && ports[i] == Decimal(p);
      DecimalUnique(min + i, p, "", "");
    }
  }
}
