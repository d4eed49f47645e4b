/** Addresses allocated to L3 policies on external segments.
    gbpservice/neutron/db/grouppolicy/group_policy_db.py, lines 779 to 818 and 872 to 886. */
module ExternalAddresses {
  import opened Collections

  const ADDRESS_NOT_SPECIFIED := ""

  /** A row of the association table; all three columns form its key. */
  datatype Row = Row(policy: string, segment: string, address: string)

  datatype State = State(segments: set<string>, rows: set<Row>)

  /** The request and the answer of the API: the addresses on each segment. */
  type AddressDict = map<string, seq<string>>

  predicate Unspecified(addresses: seq<string>) {
    forall a :: a in addresses ==> a == ADDRESS_NOT_SPECIFIED
  }

  /** The addresses stored for a list: a list that names none stands for the unspecified address. */
  function Stored(addresses: seq<string>): set<string> {
    if Unspecified(addresses) then {ADDRESS_NOT_SPECIFIED} else set a | a in addresses
  }

  function RowsOf(rows: set<Row>, policy: string): set<Row> {
    set r | r in rows && r.policy == policy
  }

  function NewRows(policy: string, segment: string, addresses: seq<string>): set<Row> {
    set a | a in Stored(addresses) :: Row(policy, segment, a)
  }

  /** The table after the request. */
  ghost predicate IsReplaced(was: set<Row>, policy: string, request: AddressDict, now: set<Row>) {
    forall r: Row :: r in now <==>
        if r.policy == policy then r.segment in request && r.address in Stored(request[r.segment]) else r in was
  }

  /** A named address of the list is held by another policy. */
  predicate Taken(rows: set<Row>, policy: string, segment: string, addresses: seq<string>) {
    exists r :: r in rows && r.policy != policy && r.segment == segment
                && r.address in addresses && r.address != ADDRESS_NOT_SPECIFIED
  }

  predicate Accepted(s: State, policy: string, request: AddressDict) {
    && request.Keys <= s.segments
    && forall e :: e in request ==>
         !Taken(s.rows, policy, e, request[e]) && (Unspecified(request[e]) || NoDuplicates(request[e]))
  }

  /** For each segment, a named address belongs to at most one policy. */
  ghost predicate OneOwner(rows: set<Row>) {
    forall r, q ::
      (r in rows && q in rows && r.segment == q.segment && r.address == q.address
          && r.address != ADDRESS_NOT_SPECIFIED) ==> r == q
  }

  /** `d` is an answer of the API: each row once, grouped by segment, in any order. */
  ghost predicate IsReading(rows: set<Row>, policy: string, d: AddressDict) {
    && (forall e :: e in d ==> d[e] != [] && NoDuplicates(d[e]))
    && (forall r :: r in rows && r.policy == policy ==> r.segment in d && r.address in d[r.segment])
    && (forall e, a :: e in d && a in d[e] ==> Row(policy, e, a) in rows)
  }

  class AddressTable {
    var segments: set<string>
    var rows: set<Row>

    ghost function View(): State
      reads this
    {
      State(segments, rows)
    }

    constructor ()
      ensures View() == State({}, {})
    {
      segments, rows := {}, {};
    }

    /** _set_ess_for_l3p; a request that is not specified leaves the table alone. */
    method SetSegments(policy: string, request: Option<AddressDict>) returns (ok: bool)
      modifies this
      ensures segments == old(segments)
      ensures ok <==> request.None? || Accepted(old(View()), policy, request.value)
      ensures ok && request.None? ==> rows == old(rows)
      ensures ok && request.Some? ==> IsReplaced(old(rows), policy, request.value, rows)
      ensures !ok ==> rows == old(rows)
    {
      if request.None? {
        return true;
      }
      var esDict := request.value;
      var before := rows;
      var kept := set r | r in rows && r.policy != policy;
      if esDict.Keys == {} {
        rows := kept;
        return true;
      }
      if !(esDict.Keys <= segments) {
        return false;
      }
      rows := kept;
      var left := esDict.Keys;
      while left != {}
        invariant left <= esDict.Keys && segments == old(segments)
        invariant forall r: Row :: r in rows <==>
                    if r.policy == policy then r.segment in esDict.Keys - left && r.address in Stored(esDict[r.segment])
                    else r in before
        invariant forall e :: e in esDict && e !in left ==>
                    !Taken(before, policy, e, esDict[e]) && (Unspecified(esDict[e]) || NoDuplicates(esDict[e]))
      {
        var es :| es in left;
        var fine := SetSegment(policy, es, esDict[es], before);
        if !fine {
          rows := before;
          return false;
        }
        left := left - {es};
      }
      return true;
    }

    /** The rows of one segment; `before` is the table before the call, which the query still sees for the other
        policies. */
    method SetSegment(policy: string, es: string, addresses: seq<string>, ghost before: set<Row>) returns (ok: bool)
      requires forall r :: r in rows && r.policy == policy ==> r.segment != es
      requires forall r: Row :: r.policy != policy ==> (r in rows <==> r in before)
      modifies this
      ensures segments == old(segments)
      ensures ok <==> !Taken(before, policy, es, addresses) && (Unspecified(addresses) || NoDuplicates(addresses))
      ensures ok ==> rows == old(rows) + NewRows(policy, es, addresses)
    {
      var named := false;
      for i := 0 to |addresses|
        invariant named <==> exists j :: 0 <= j < i && addresses[j] != ADDRESS_NOT_SPECIFIED
      {
        named := named || addresses[i] != ADDRESS_NOT_SPECIFIED;
      }
      if !named {
        rows := rows + {Row(policy, es, ADDRESS_NOT_SPECIFIED)};
        return true;
      }
      ghost var j :| 0 <= j < |addresses| && addresses[j] != ADDRESS_NOT_SPECIFIED;
      assert addresses[j] in addresses;
      if exists r :: r in rows && r.segment == es && r.address in addresses && r.address != ADDRESS_NOT_SPECIFIED {
        assert Taken(before, policy, es, addresses);
        return false;
      }
      for i := 0 to |addresses|
        invariant segments == old(segments)
        invariant NoDuplicates(addresses[..i])
        invariant forall r: Row :: r in rows <==>
                r in old(rows) || (r.policy == policy && r.segment == es && r.address in addresses[..i])
      {
        var assoc := Row(policy, es, addresses[i]);
        if assoc in rows {
          assert addresses[i] in addresses[..i];
          assert !NoDuplicates(addresses);
          return false;
        }
        rows := rows + {assoc};
        assert addresses[..i + 1] == addresses[..i] + [addresses[i]];
      }
      assert addresses[..|addresses|] == addresses;
      assert forall r: Row :: r in NewRows(policy, es, addresses) <==>
          r.policy == policy && r.segment == es && r.address in addresses;
      return true;
    }

    /** _make_l3_policy_dict */
    method Read(policy: string) returns (esDict: AddressDict)
      ensures IsReading(rows, policy, esDict)
    {
      esDict := map[];
      var left := set r | r in rows && r.policy == policy;
      while left != {}
        invariant left <= RowsOf(rows, policy)
        invariant IsReading(rows - left, policy, esDict)
      {
        var r :| r in left;
        ghost var done := rows - left;
        ghost var was := esDict;
        var addresses := if r.segment in esDict then esDict[r.segment] else [];
        esDict := esDict[r.segment := addresses + [r.address]];
        assert r !in done;
        assert rows - (left - {r}) == done + {r};
        ReadOneMore(done, policy, was, r, esDict);
        left := left - {r};
      }
      assert rows - left == rows;
    }

    /** create_external_segment */
    method AddSegment(segment: string)
      modifies this
      ensures View() == old(View()).(segments := old(segments) + {segment})
    {
      segments := segments + {segment};
    }

    /** delete_external_segment; `used` tells whether NAT pools or external policies refer to the segment. */
    method DeleteSegment(segment: string, used: bool) returns (ok: bool)
      modifies this
      ensures ok <==> segment in old(segments) && !used && forall r :: r in old(rows) ==> r.segment != segment
      ensures rows == old(rows) && segments == if ok then old(segments) - {segment} else old(segments)
    {
      ok := segment in segments && !used && forall r :: r in rows ==> r.segment != segment;
      if ok {
        segments := segments - {segment};
      }
    }

    /** delete_l3_policy: the rows of the policy go with it. */
    method DeletePolicy(policy: string)
      modifies this
      ensures segments == old(segments) && IsReplaced(old(rows), policy, map[], rows)
    {
      rows := set r | r in rows && r.policy != policy;
    }
  }

  lemma ReadOneMore(rows: set<Row>, policy: string, d: AddressDict, r: Row, e: AddressDict)
    requires IsReading(rows, policy, d) && r !in rows && r.policy == policy
    requires e == d[r.segment := (if r.segment in d then d[r.segment] else []) + [r.address]]
    ensures IsReading(rows + {r}, policy, e)
  {
    var addresses := if r.segment in d then d[r.segment] else [];
    assert forall a :: a in addresses ==> Row(policy, r.segment, a) in rows;
    assert r == Row(policy, r.segment, r.address);
    assert NoDuplicates(addresses + [r.address]);
  }

  // ----- What the checks achieve -----

  lemma SecondOwnerTaken(was: set<Row>, policy: string, request: AddressDict, now: set<Row>, r: Row, q: Row)
    requires IsReplaced(was, policy, request, now) && r in now && q in now && r.policy == policy != q.policy
    requires r.segment == q.segment && r.address == q.address && r.address != ADDRESS_NOT_SPECIFIED
    ensures r.segment in request && Taken(was, policy, r.segment, request[r.segment])
  {
    assert q in was && r.address in request[r.segment];
  }

  /** The overlap check is exact: it turns down a request precisely when some address would get a second owner. */
  lemma OverlapCheckExact(was: set<Row>, policy: string, request: AddressDict, now: set<Row>)
    requires OneOwner(was) && IsReplaced(was, policy, request, now)
    ensures OneOwner(now) <==> forall e :: e in request ==> !Taken(was, policy, e, request[e])
  {
    if e :| e in request && Taken(was, policy, e, request[e]) {
      var r :| r in was && r.policy != policy && r.segment == e && r.address in request[e]
          && r.address != ADDRESS_NOT_SPECIFIED;
      var q := Row(policy, e, r.address);
      assert r in now && q in now && r != q;
    } else {
      forall r, q | r in now && q in now && r.segment == q.segment && r.address == q.address
          && r.address != ADDRESS_NOT_SPECIFIED
        ensures r == q
      {
        if r.policy == policy && q.policy != policy {
          SecondOwnerTaken(was, policy, request, now, r, q);
        } else if q.policy == policy && r.policy != policy {
          SecondOwnerTaken(was, policy, request, now, q, r);
        }
      }
    }
  }

  /** A list without duplicates that names nothing is the unspecified address alone. */
  lemma StoredIsList(addresses: seq<string>)
    requires addresses != [] && NoDuplicates(addresses)
    ensures forall a :: a in addresses <==> a in Stored(addresses)
  {
    assert addresses[0] in addresses;
  }

  /** Writing back what was read is accepted and changes nothing. */
  lemma WriteBackWhatWasRead(s: State, policy: string, d: AddressDict, now: set<Row>)
    requires OneOwner(s.rows) && IsReading(s.rows, policy, d)
    requires forall r :: r in s.rows ==> r.segment in s.segments
    ensures Accepted(s, policy, d)
    ensures IsReplaced(s.rows, policy, d, now) <==> now == s.rows
  {
    forall e | e in d ensures e in s.segments && !Taken(s.rows, policy, e, d[e]) {
      assert d[e][0] in d[e] && Row(policy, e, d[e][0]) in s.rows;
      forall r | r in s.rows && r.policy != policy && r.segment == e && r.address in d[e]
        ensures r.address == ADDRESS_NOT_SPECIFIED
      {
        assert Row(policy, e, r.address) in s.rows;
      }
    }
    forall r: Row | r.policy == policy
      ensures r in s.rows <==> r.segment in d && r.address in Stored(d[r.segment])
    {
      assert r == Row(policy, r.segment, r.address);
      if r.segment in d {
        StoredIsList(d[r.segment]);
      }
    }
  }

  // ----- In terms of the columns -----

  /** The rows after a request: those of other policies as they were, and for this one a row for each listed address,
      or one with the empty address for a list that names none. */
  lemma ReplacedExactly(was: set<Row>, policy: string, request: AddressDict, now: set<Row>)
    ensures IsReplaced(was, policy, request, now) <==>
            forall p, e, a :: Row(p, e, a) in now <==>
              if p == policy then
                e in request && (a in request[e] || (a == "" && forall x :: x in request[e] ==> x == ""))
              else Row(p, e, a) in was
  {
    forall e, a | e in request
      ensures a in Stored(request[e]) <==> a in request[e] || (a == "" && forall x :: x in request[e] ==> x == "")
    {
    }
    forall r: Row ensures r == Row(r.policy, r.segment, r.address) {
    }
  }

  /** A request is accepted exactly if its segments exist, no other policy holds an address it names, and no list that
      names one repeats an address. */
  lemma AcceptedExactly(s: State, policy: string, request: AddressDict)
    ensures Accepted(s, policy, request) <==>
            && (forall e :: e in request ==> e in s.segments)
            && (forall e, a, p ::
                  e in request && a in request[e] && a != "" && Row(p, e, a) in s.rows ==> p == policy)
            && (forall e, a :: e in request && a in request[e] && a != "" ==> NoDuplicates(request[e]))
  {
    forall e | e in request
      ensures Taken(s.rows, policy, e, request[e]) <==>
              exists a, p :: a in request[e] && a != "" && Row(p, e, a) in s.rows && p != policy
    {
      if r :| r in s.rows && r.policy != policy && r.segment == e && r.address in request[e] && r.address != "" {
        assert Row(r.policy, e, r.address) == r;
      }
    }
  }

  lemma OneOwnerExactly(rows: set<Row>)
    ensures OneOwner(rows) <==>
            forall p, q, e, a :: Row(p, e, a) in rows && Row(q, e, a) in rows && a != "" ==> p == q
  {
    forall r: Row ensures r == Row(r.policy, r.segment, r.address) {
    }
  }

  lemma SomeStored(addresses: seq<string>) returns (a: string)
    ensures a in Stored(addresses)
  {
    if Unspecified(addresses) {
      a := ADDRESS_NOT_SPECIFIED;
    } else {
      a :| a in addresses && a != ADDRESS_NOT_SPECIFIED;
    }
  }

  /** Reading after an accepted write gives back each list, an empty one as the unspecified address. */
  lemma ReadWhatWasWritten(was: set<Row>, policy: string, request: AddressDict, now: set<Row>, d: AddressDict)
    requires IsReplaced(was, policy, request, now) && IsReading(now, policy, d)
    ensures d.Keys == request.Keys
    ensures forall e :: e in request ==> NoDuplicates(d[e]) && (set a | a in d[e]) == Stored(request[e])
    ensures forall e :: e in request && request[e] == [] ==> d[e] == [ADDRESS_NOT_SPECIFIED]
  {
    forall e | e in d ensures e in request {
      assert d[e][0] in d[e] && Row(policy, e, d[e][0]) in now;
    }
    forall e | e in request ensures e in d {
      var a := SomeStored(request[e]);
      assert Row(policy, e, a) in now;
    }
    forall e | e in request ensures (set a | a in d[e]) == Stored(request[e]) {
      forall a ensures a in d[e] <==> a in Stored(request[e]) {
        assert a in d[e] ==> Row(policy, e, a) in now;
        assert a in Stored(request[e]) ==> Row(policy, e, a) in now;
      }
    }
    forall e | e in request && request[e] == [] ensures d[e] == [ADDRESS_NOT_SPECIFIED] {
      forall a ensures a in d[e] <==> a in Stored(request[e]) {
        assert a in d[e] <==> a in set b | b in d[e];
      }
      OnlyElement(d[e], ADDRESS_NOT_SPECIFIED);
    }
  }

  lemma OnlyElement(s: seq<string>, x: string)
    requires NoDuplicates(s) && forall a :: a in s <==> a == x
    ensures s == [x]
  {
    var second := if |s| > 1 then s[1] else x;
    assert x in s;
    assert second in s && s[0] in s;
  }

  // ----- Whole runs -----

  datatype Call =
    | AddSegment(segment: string)
    | DeleteSegment(segment: string, used: bool)
    | SetSegments(policy: string, request: Option<AddressDict>)
    | DeletePolicy(policy: string)

  ghost predicate Next(s: State, c: Call, t: State) {
    match c
    case AddSegment(segment) => t == s.(segments := s.segments + {segment})
    case DeleteSegment(segment, used) =>
      if segment in s.segments && !used && forall r :: r in s.rows ==> r.segment != segment
      then t == s.(segments := s.segments - {segment})
      else t == s
    case SetSegments(policy, request) =>
      if request.Some? && Accepted(s, policy, request.value)
      then t.segments == s.segments && IsReplaced(s.rows, policy, request.value, t.rows)
      else t == s
    case DeletePolicy(policy) => t.segments == s.segments && IsReplaced(s.rows, policy, map[], t.rows)
  }

  /** The table's methods take exactly these steps. */
  method Perform(table: AddressTable, c: Call)
    modifies table
    ensures Next(old(table.View()), c, table.View())
  {
    match c {
      case AddSegment(segment) => table.AddSegment(segment);
      case DeleteSegment(segment, used) => var ok := table.DeleteSegment(segment, used);
      case SetSegments(policy, request) => var ok := table.SetSegments(policy, request);
      case DeletePolicy(policy) => table.DeletePolicy(policy);
    }
  }

  ghost predicate Run(calls: seq<Call>, trace: seq<State>) {
    && |trace| == |calls| + 1 && trace[0] == State({}, {})
    && forall i :: 0 <= i < |calls| ==> Next(trace[i], calls[i], trace[i + 1])
  }

  /** In every reachable state a named address has one owner, and writing back what is read changes nothing. */
  lemma {:induction false} RunOneOwner(calls: seq<Call>, trace: seq<State>, i: nat)
    requires Run(calls, trace) && i < |trace|
    ensures OneOwner(trace[i].rows) && forall r :: r in trace[i].rows ==> r.segment in trace[i].segments
  {
    if i > 0 {
      RunOneOwner(calls, trace, i - 1);
      var s, t := trace[i - 1], trace[i];
      match calls[i - 1] {
        case AddSegment(_) =>
        case DeleteSegment(_, _) =>
        case SetSegments(policy, request) =>
          if request.Some? && Accepted(s, policy, request.value) {
            OverlapCheckExact(s.rows, policy, request.value, t.rows);
          }
        case DeletePolicy(policy) => OverlapCheckExact(s.rows, policy, map[], t.rows);
      }
    }
  }

  lemma RunWriteBack(calls: seq<Call>, trace: seq<State>, i: nat, policy: string, d: AddressDict, t: State)
    requires Run(calls, trace) && i < |trace| && IsReading(trace[i].rows, policy, d)
    requires Next(trace[i], SetSegments(policy, Some(d)), t)
    ensures Accepted(trace[i], policy, d) && t == trace[i]
  {
    RunOneOwner(calls, trace, i);
    WriteBackWhatWasRead(trace[i], policy, d, t.rows);
  }
}
