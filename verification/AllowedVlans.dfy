/** The allowed VLANs of a nested domain: listed VLANs and ranges become one sorted list.
    gbpservice/neutron/extensions/cisco_apic.py, lines 93 to 123 and 206 to 228. */
module AllowedVlans {
  import opened Collections

  const APIC_MIN_VLAN := 1
  const APIC_MAX_VLAN := 4093

  /** An entry of the request: Python's None, or a number. */
  type Entry = Option<int>

  datatype Range = Range(start: Entry, end: Entry)

  /** An entry of the range list: Python's None, or a dict with both keys. */
  type RangeEntry = Option<Range>

  // ----- Validation -----

  /** _validate_apic_vlan: None is let through. */
  predicate ValidVlan(e: Entry) {
    e.None? || APIC_MIN_VLAN <= e.value <= APIC_MAX_VLAN
  }

  /** _validate_apic_vlan_range: None is let through; comparing the ends raises a TypeError if one of them is None. */
  method ValidateRange(data: RangeEntry) returns (ok: bool)
    ensures ok <==> data.None? ||
                    (data.value.start.Some? && data.value.end.Some?
                        && 1 <= data.value.start.value <= data.value.end.value <= 4093)
  {
    if data.None? {
      return true;
    }
    var r := data.value;
    for k := 0 to 2
      invariant k > 0 ==> ValidVlan(r.start)
      invariant k > 1 ==> ValidVlan(r.end)
    {
      if !ValidVlan(if k == 0 then r.start else r.end) {
        return false;
      }
    }
    if r.start.None? || r.end.None? {
      return false;
    }
    if r.start.value > r.end.value {
      return false;
    }
    return true;
  }

  predicate ValidRange(r: RangeEntry) {
    r.None? || (EndsGiven(r) && APIC_MIN_VLAN <= r.value.start.value <= r.value.end.value <= APIC_MAX_VLAN)
  }

  /** A range with both ends, none of them None. */
  predicate EndsGiven(r: RangeEntry) {
    r.Some? && r.value.start.Some? && r.value.end.Some?
  }

  predicate Validated(listed: seq<Entry>, ranges: seq<RangeEntry>) {
    && (forall e :: e in listed ==> ValidVlan(e))
    && (forall r :: r in ranges ==> ValidRange(r))
  }

  // ----- What the conversion is for -----

  /** The number is listed or lies in a range. */
  ghost predicate Allowed(listed: seq<Entry>, ranges: seq<RangeEntry>, n: int) {
    Some(n) in listed || exists r :: r in ranges && InRange(r, n)
  }

  predicate InRange(r: RangeEntry, n: int) {
    EndsGiven(r) && r.value.start.value <= n <= r.value.end.value
  }

  /** Every entry is a number. */
  predicate Numbers(s: seq<Entry>) {
    forall i :: 0 <= i < |s| ==> s[i].Some?
  }

  predicate Increasing(s: seq<Entry>)
  {
    Numbers(s) && forall i, j :: 0 <= i < j < |s| ==> s[i].value < s[j].value
  }

  /** The conversion raises no TypeError: no range and no end of one is None, and None is not compared with a number. */
  ghost predicate Convertible(listed: seq<Entry>, ranges: seq<RangeEntry>) {
    && AllEndsGiven(ranges)
    && (None in listed ==> forall n :: !Allowed(listed, ranges, n))
  }

  /** The numbers of the list, in order and once. */
  ghost predicate IsSorted(s: seq<Entry>, listed: seq<Entry>, ranges: seq<RangeEntry>) {
    if None in listed then s == [None]
    else Increasing(s) && forall n: int :: Some(n) in s <==> Allowed(listed, ranges, n)
  }

  function Listed(o: Option<seq<Entry>>): seq<Entry> {
    if o.Some? then o.value else []
  }

  function Ranges(o: Option<seq<RangeEntry>>): seq<RangeEntry> {
    if o.Some? then o.value else []
  }

  /** A number is allowed exactly if it is listed or lies between the two ends of a range, ends included. */
  lemma AllowedExactly(listed: seq<Entry>, ranges: seq<RangeEntry>, n: int)
    ensures Allowed(listed, ranges, n) <==>
            || (exists i :: 0 <= i < |listed| && listed[i] == Some(n))
            || (exists i, lo, hi :: 0 <= i < |ranges| && ranges[i] == Some(Range(Some(lo), Some(hi))) && lo <= n <= hi)
  {
    if i :| 0 <= i < |ranges| && InRange(ranges[i], n) {
      var r := ranges[i].value;
      assert ranges[i] == Some(Range(Some(r.start.value), Some(r.end.value)));
    }
    if i, lo, hi :| 0 <= i < |ranges| && ranges[i] == Some(Range(Some(lo), Some(hi))) && lo <= n <= hi {
      assert ranges[i] in ranges && InRange(ranges[i], n);
    }
  }

  /** The list holds exactly the allowed numbers, in ascending order and each once. */
  ghost predicate ListsAllowed(s: seq<Entry>, listed: seq<Entry>, ranges: seq<RangeEntry>) {
    && (forall i :: 0 <= i < |s| ==> s[i].Some? && Allowed(listed, ranges, s[i].value))
    && (forall i, j :: 0 <= i < j < |s| ==> s[i].value < s[j].value)
    && (forall n: int :: Allowed(listed, ranges, n) ==> Some(n) in s)
  }

  lemma SortedExactly(s: seq<Entry>, listed: seq<Entry>, ranges: seq<RangeEntry>)
    requires None !in listed
    ensures IsSorted(s, listed, ranges) <==> ListsAllowed(s, listed, ranges)
  {
    if IsSorted(s, listed, ranges) {
      forall i | 0 <= i < |s| ensures Allowed(listed, ranges, s[i].value) {
        assert Some(s[i].value) in s;
      }
      assert ListsAllowed(s, listed, ranges);
    }
    if ListsAllowed(s, listed, ranges) {
      forall n: int | Some(n) in s ensures Allowed(listed, ranges, n) {
        var i :| 0 <= i < |s| && s[i] == Some(n);
      }
      assert IsSorted(s, listed, ranges);
    }
  }

  /** A TypeError needs a range that is None or has an end that is, or None beside an allowed number. */
  lemma ConvertibleExactly(listed: seq<Entry>, ranges: seq<RangeEntry>)
    ensures Convertible(listed, ranges) <==>
            && (forall i :: 0 <= i < |ranges| ==>
                  ranges[i].Some? && ranges[i].value.start.Some? && ranges[i].value.end.Some?)
            && !(None in listed && exists n :: Allowed(listed, ranges, n))
  {
    assert forall i :: 0 <= i < |ranges| ==> ranges[i] in ranges;
  }

  // ----- The conversion -----

  /** `sort` of a list without duplicates: an insertion keeps it in order. */
  function Insert(s: seq<Entry>, n: int): (r: seq<Entry>)
    requires Numbers(s)
  {
    if s == [] || n < s[0].value then [Some(n)] + s
    else if n == s[0].value then s
    else [s[0]] + Insert(s[1..], n)
  }

  lemma {:induction false} InsertIncreasing(s: seq<Entry>, n: int)
    requires Increasing(s)
    ensures Increasing(Insert(s, n))
    ensures forall e :: e in Insert(s, n) <==> e in s || e == Some(n)
  {
    if s != [] && s[0].value < n {
      InsertIncreasing(s[1..], n);
      var rest := Insert(s[1..], n);
      assert s == [s[0]] + s[1..];
      forall i | 0 <= i < |rest| ensures s[0].value < rest[i].value {
        assert rest[i] in rest;
        if rest[i] != Some(n) {
          var j :| 0 <= j < |s[1..]| && s[1..][j] == rest[i];
          assert s[j + 1] == rest[i];
        }
      }
    }
  }

  /** Duplicates removed, then sorted; None is a TypeError. */
  method SortedSet(values: seq<Entry>) returns (ok: bool, r: seq<Entry>)
    ensures ok <==> !(None in values && exists e :: e in values && e.Some?)
    ensures ok ==> if None in values then r == [None] else Increasing(r) && forall e :: e in r <==> e in values
  {
    r := [];
    if None in values {
      ok := !exists e :: e in values && e.Some?;
      return ok, [None];
    }
    for i := 0 to |values|
      invariant Increasing(r) && forall e :: e in r <==> e in values[..i]
    {
      assert values[i].Some?;
      InsertIncreasing(r, values[i].value);
      r := Insert(r, values[i].value);
      assert values[..i + 1] == values[..i] + [values[i]];
    }
    assert values[..|values|] == values;
    return true, r;
  }

  class AllowedVlans {
    var vlansList: Option<seq<Entry>>
    var vlanRanges: Option<seq<RangeEntry>>

    constructor (vlansList: Option<seq<Entry>>, vlanRanges: Option<seq<RangeEntry>>)
      ensures this.vlansList == vlansList && this.vlanRanges == vlanRanges
    {
      this.vlansList, this.vlanRanges := vlansList, vlanRanges;
    }

    /** convert_nested_domain_allowed_vlans */
    method Convert() returns (ok: bool)
      modifies this`vlansList
      ensures ok <==> Convertible(Listed(old(vlansList)), Ranges(vlanRanges))
      ensures ok ==> vlansList.Some? && IsSorted(vlansList.value, Listed(old(vlansList)), Ranges(vlanRanges))
      ensures !ok ==> vlansList == old(vlansList)
    {
      var vlans: seq<Entry> := [];
      if vlansList.Some? {
        for i := 0 to |vlansList.value|
          invariant vlans == vlansList.value[..i]
        {
          vlans := vlans + [vlansList.value[i]];
        }
      }
      assert vlans == Listed(vlansList);
      var gathered;
      ok, gathered := ExtendByRanges(vlans, Ranges(vlanRanges));
      if !ok {
        return false;
      }
      var sorted;
      ok, sorted := SortedSet(gathered);
      GatheredSorted(gathered, vlans, Ranges(vlanRanges), sorted);
      if ok {
        vlansList := Some(sorted);
      }
    }
  }

  /** `vlans` holds the listed entries and the members of the ranges. */
  ghost predicate Gathered(vlans: seq<Entry>, listed: seq<Entry>, ranges: seq<RangeEntry>) {
    (None in vlans <==> None in listed) && forall n: int :: Some(n) in vlans <==> Allowed(listed, ranges, n)
  }

  predicate AllEndsGiven(ranges: seq<RangeEntry>) {
    forall r :: r in ranges ==> EndsGiven(r)
  }

  /** The loop over the ranges; None in place of a range or of an end is a TypeError. */
  method ExtendByRanges(listed: seq<Entry>, ranges: seq<RangeEntry>) returns (ok: bool, vlans: seq<Entry>)
    ensures ok <==> AllEndsGiven(ranges)
    ensures ok ==> Gathered(vlans, listed, ranges)
  {
    vlans := listed;
    for i := 0 to |ranges|
      invariant AllEndsGiven(ranges[..i])
      invariant Gathered(vlans, listed, ranges[..i])
    {
      assert ranges[i] in ranges;
      if !EndsGiven(ranges[i]) {
        return false, vlans;
      }
      var more := Expand(ranges[i].value.start.value, ranges[i].value.end.value);
      AllowedOneMore(listed, ranges, i);
      vlans := vlans + more;
      assert ranges[..i + 1] == ranges[..i] + [ranges[i]];
    }
    assert ranges[..|ranges|] == ranges;
    return true, vlans;
  }

  /** Sorting what was gathered succeeds exactly if the input is convertible, and gives the sorted list. */
  lemma GatheredSorted(vlans: seq<Entry>, listed: seq<Entry>, ranges: seq<RangeEntry>, s: seq<Entry>)
    requires AllEndsGiven(ranges) && Gathered(vlans, listed, ranges)
    ensures !(None in vlans && exists e :: e in vlans && e.Some?) <==> Convertible(listed, ranges)
    ensures (if None in vlans then s == [None] else Increasing(s) && forall e :: e in s <==> e in vlans) ==>
              IsSorted(s, listed, ranges)
  {
    NumbersAllowed(vlans, listed, ranges);
  }

  /** `list(range(start, end + 1))` */
  method Expand(start: int, end: int) returns (r: seq<Entry>)
    ensures forall e :: e in r <==> e.Some? && start <= e.value <= end
  {
    r := [];
    if start <= end {
      for n := start to end + 1
        invariant forall e :: e in r <==> e.Some? && start <= e.value < n
      {
        r := r + [Some(n)];
      }
    }
  }

  lemma AllowedOneMore(listed: seq<Entry>, ranges: seq<RangeEntry>, i: nat)
    requires i < |ranges|
    ensures forall n :: Allowed(listed, ranges[..i + 1], n) <==>
            Allowed(listed, ranges[..i], n) || InRange(ranges[i], n)
  {
    assert ranges[..i + 1] == ranges[..i] + [ranges[i]];
  }

  lemma NumbersAllowed(vlans: seq<Entry>, listed: seq<Entry>, ranges: seq<RangeEntry>)
    requires forall n: int :: Some(n) in vlans <==> Allowed(listed, ranges, n)
    ensures (exists e :: e in vlans && e.Some?) <==> exists n :: Allowed(listed, ranges, n)
  {
    if e :| e in vlans && e.Some? {
      assert Allowed(listed, ranges, e.value);
    }
    if n :| Allowed(listed, ranges, n) {
      assert Some(n) in vlans;
    }
  }

  // ----- What the conversion achieves -----

  /** An increasing list is determined by its members. */
  lemma {:induction false} IncreasingUnique(s: seq<Entry>, t: seq<Entry>)
    requires Increasing(s) && Increasing(t) && forall e :: e in s <==> e in t
    ensures s == t
  {
    var first := if t == [] then None else t[0];
    assert first.Some? ==> first in t;
    if s != [] {
      assert s[0] in t && (t != [] && t[0] in s);
      assert s[0] == t[0];
      assert s == [s[0]] + s[1..] && t == [t[0]] + t[1..];
      forall e ensures e in s[1..] <==> e in t[1..] {
        assert e in s[1..] <==> e in s && e != s[0];
        assert e in t[1..] <==> e in t && e != t[0];
      }
      IncreasingUnique(s[1..], t[1..]);
    }
  }

  /** Converting the result again succeeds and changes nothing. */
  lemma ConvertTwice(listed: seq<Entry>, ranges: seq<RangeEntry>, s: seq<Entry>, t: seq<Entry>)
    requires Convertible(listed, ranges) && IsSorted(s, listed, ranges)
    ensures Convertible(s, ranges)
    ensures IsSorted(t, s, ranges) <==> t == s
  {
    if None in listed {
      forall n ensures !Allowed(s, ranges, n) {
        assert !Allowed(listed, ranges, n);
      }
    } else {
      forall n ensures Allowed(s, ranges, n) <==> Some(n) in s {
        assert Some(n) in s <==> Allowed(listed, ranges, n);
      }
      if IsSorted(t, s, ranges) {
        forall e ensures e in s <==> e in t {
          assert e.Some? ==> (e in s <==> Allowed(s, ranges, e.value));
        }
        IncreasingUnique(s, t);
      }
    }
  }

  /** An increasing list of numbers from `lo` to `hi` has at most that many entries. */
  lemma {:induction false} IncreasingBounded(s: seq<Entry>, lo: int, hi: int)
    requires Increasing(s) && lo <= hi + 1 && forall i :: 0 <= i < |s| ==> lo <= s[i].value <= hi
    ensures |s| <= hi + 1 - lo
  {
    if s != [] {
      IncreasingBounded(s[1..], s[0].value + 1, hi);
    }
  }

  /** On validated input the result is a list of VLAN numbers, at most 4093 of them, exactly if None is not listed. */
  lemma ValidatedBounds(listed: seq<Entry>, ranges: seq<RangeEntry>, s: seq<Entry>)
    requires Validated(listed, ranges) && Convertible(listed, ranges) && IsSorted(s, listed, ranges)
    ensures None !in listed <==> Numbers(s)
    ensures Numbers(s) ==> (forall i :: 0 <= i < |s| ==> 1 <= s[i].value <= 4093) && |s| <= 4093
  {
    if None !in listed {
      forall i | 0 <= i < |s| ensures 1 <= s[i].value <= 4093 {
        assert s[i] in s && Allowed(listed, ranges, s[i].value);
        assert s[i] == Some(s[i].value);
      }
      IncreasingBounded(s, 1, 4093);
    } else {
      assert s[0].None?;
    }
  }

  /** Validated input is converted without a TypeError exactly if no range is None and None is not listed beside a
      number or a range. */
  lemma ValidatedConverts(listed: seq<Entry>, ranges: seq<RangeEntry>)
    requires Validated(listed, ranges)
    ensures Convertible(listed, ranges) <==>
            None !in ranges && !(None in listed && (ranges != [] || exists e :: e in listed && e.Some?))
  {
    if None !in ranges {
      ListedBesideNumbers(listed, ranges);
    }
  }

  lemma ListedBesideNumbers(listed: seq<Entry>, ranges: seq<RangeEntry>)
    requires Validated(listed, ranges) && None !in ranges
    ensures AllEndsGiven(ranges)
    ensures (exists n :: Allowed(listed, ranges, n)) <==> ranges != [] || exists e :: e in listed && e.Some?
  {
    if ranges != [] {
      var r := ranges[0];
      assert r in ranges && InRange(r, r.value.start.value);
      assert Allowed(listed, ranges, r.value.start.value);
    }
    if e :| e in listed && e.Some? {
      assert Allowed(listed, ranges, e.value);
    }
    if n :| Allowed(listed, ranges, n) {
      assert Some(n) in listed || ranges != [];
    }
  }

  // ----- Where None gets through -----

  /** A range that is None passes validation, and converting it is a TypeError. */
  lemma NoneRangeFails()
    ensures Validated([], [None]) && !Convertible([], [None])
  {
    var ranges: seq<RangeEntry> := [None];
    assert ranges[0] in ranges;
    ValidatedConverts([], ranges);
  }

  /** A listed None passes validation and is converted to a list that is not one of VLAN numbers. */
  lemma NoneListedStays(s: seq<Entry>)
    ensures Validated([None], []) && Convertible([None], [])
    ensures IsSorted(s, [None], []) <==> s == [None]
  {
    var listed: seq<Entry> := [None];
    assert listed[0] in listed;
    ValidatedConverts(listed, []);
  }

  /** A None listed beside a number passes validation, and sorting the two is a TypeError. */
  lemma NoneBesideNumberFails(n: int)
    requires APIC_MIN_VLAN <= n <= APIC_MAX_VLAN
    ensures Validated([None, Some(n)], []) && !Convertible([None, Some(n)], [])
  {
    var listed := [None, Some(n)];
    assert listed[0] in listed && listed[1] in listed;
    ValidatedConverts(listed, []);
  }
}
