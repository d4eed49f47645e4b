/** Dispatch of one operation to the policy drivers, and the create protocol built on it.
    gbpservice/neutron/services/grouppolicy/policy_driver_manager.py, lines 79 to 169;
    gbpservice/neutron/services/grouppolicy/plugin.py, lines 1017 to 1094. */
module DriverManager {

  /** How a driver's method ends: with the servers it returns, or with an exception of one of four kinds. */
  datatype Outcome =
    | Succeeds(servers: seq<string>)
    | FailsRetriable
    | FailsKnown           // a group policy or Neutron exception, or a policy authorisation failure
    | FailsInvalidRequest  // sqlalchemy's InvalidRequestError
    | FailsForeign         // anything else

  /** What each driver does in each method, by method and driver name. */
  type Behaviour = (string, string) -> Outcome

  datatype Exception =
    | FromDriver(driver: string)
    | RetryRequest
    | GroupPolicyDriverError(methodName: string)
    | InUse(id: string)
  datatype Result = Returned(servers: seq<string>) | Raised(exception: Exception)

  function Reversed(s: seq<string>): (r: seq<string>)
    ensures |r| == |s| && forall i :: 0 <= i < |s| ==> r[i] == s[|s| - 1 - i]
  {
    if s == [] then [] else Reversed(s[1..]) + [s[0]]
  }

  predicate IsDelete(methodName: string) {
    "delete" <= methodName
  }

  // ----- Specification of a dispatch -----

  /** The exception of the outcome leaves the loop at once. */
  predicate Propagates(o: Outcome) {
    o.FailsRetriable? || o.FailsKnown? || o.FailsInvalidRequest?
  }

  predicate Stops(o: Outcome, continueOnFailure: bool) {
    Propagates(o) || (o.FailsForeign? && !continueOnFailure)
  }

  /** `called` is as much of the order as is called: up to and including the first driver that stops the loop. */
  predicate IsCalled(order: seq<string>, called: seq<string>, methodName: string, b: Behaviour, continueOnFailure: bool)
  {
    && called <= order
    && (forall i :: 0 <= i < |called| - 1 ==> !Stops(b(methodName, called[i]), continueOnFailure))
    && (|called| < |order| ==> called != [] && Stops(b(methodName, called[|called| - 1]), continueOnFailure))
  }

  /** A driver failed with an exception the manager does not know. */
  predicate SomeForeign(called: seq<string>, methodName: string, b: Behaviour) {
    exists i :: 0 <= i < |called| && b(methodName, called[i]).FailsForeign?
  }

  predicate IsResult(called: seq<string>, methodName: string, b: Behaviour, r: Result) {
    if called != [] && Propagates(b(methodName, called[|called| - 1])) then
      var last := called[|called| - 1];
      r == Raised(if b(methodName, last).FailsInvalidRequest? then RetryRequest else FromDriver(last))
    else if SomeForeign(called, methodName, b) then r == Raised(GroupPolicyDriverError(methodName))
    else r.Returned?
  }

  /** The servers the drivers return, in the order of the calls. */
  function Servers(called: seq<string>, methodName: string, b: Behaviour): seq<string> {
    if called == [] then []
    else
      var o := b(methodName, called[|called| - 1]);
      Servers(called[..|called| - 1], methodName, b) + if o.Succeeds? then o.servers else []
  }

  class PolicyDriverManager {
    var policyDrivers: set<string>
    var orderedPolicyDrivers: seq<string>
    var reverseOrderedPolicyDrivers: seq<string>
    /** The calls the drivers have received. */
    var received: seq<(string, string)>

    ghost predicate Valid()
      reads this
    {
      reverseOrderedPolicyDrivers == Reversed(orderedPolicyDrivers)
    }

    /** _register_policy_drivers, for the extensions in the configured order */
    constructor (configured: seq<string>)
      ensures Valid() && orderedPolicyDrivers == configured && received == []
      ensures forall name :: name in policyDrivers <==> name in configured
    {
      policyDrivers, orderedPolicyDrivers, received := {}, [], [];
      new;
      for i := 0 to |configured|
        invariant orderedPolicyDrivers == configured[..i] && received == []
        invariant forall name :: name in policyDrivers <==> name in configured[..i]
      {
        policyDrivers := policyDrivers + {configured[i]};
        orderedPolicyDrivers := orderedPolicyDrivers + [configured[i]];
      }
      reverseOrderedPolicyDrivers := Reversed(orderedPolicyDrivers);
    }

    function Order(methodName: string): seq<string>
      reads this
    {
      if IsDelete(methodName) then reverseOrderedPolicyDrivers else orderedPolicyDrivers
    }

    /** _call_on_drivers */
    method CallOnDrivers(methodName: string, b: Behaviour, continueOnFailure: bool)
      returns (result: Result, ghost called: seq<string>)
      requires Valid()
      modifies `received
      ensures IsCalled(Order(methodName), called, methodName, b, continueOnFailure)
      ensures received == old(received) + Pairs(methodName, called)
      ensures IsResult(called, methodName, b, result)
      ensures result.Returned? ==>
                result.servers == if methodName == "start_rpc_listeners" then Servers(called, methodName, b) else []
    {
      var drivers := if !IsDelete(methodName) then orderedPolicyDrivers else reverseOrderedPolicyDrivers;
      result, called := CallEach(drivers, methodName, b, continueOnFailure);
    }

    /** The loop of _call_on_drivers. */
    method CallEach(drivers: seq<string>, methodName: string, b: Behaviour, continueOnFailure: bool)
      returns (result: Result, ghost called: seq<string>)
      modifies `received
      ensures IsCalled(drivers, called, methodName, b, continueOnFailure)
      ensures received == old(received) + Pairs(methodName, called)
      ensures IsResult(called, methodName, b, result)
      ensures result.Returned? ==>
                result.servers == if methodName == "start_rpc_listeners" then Servers(called, methodName, b) else []
    {
      var error := false;
      var servers := [];
      var i := 0;
      while i < |drivers|
        invariant 0 <= i <= |drivers|
        invariant received == old(received) + Pairs(methodName, drivers[..i])
        invariant Passed(drivers[..i], methodName, b, continueOnFailure)
        invariant i == |drivers| ==> IsCalled(drivers, drivers[..i], methodName, b, continueOnFailure)
        invariant error <==> SomeForeign(drivers[..i], methodName, b)
        invariant servers == if methodName == "start_rpc_listeners" then Servers(drivers[..i], methodName, b) else []
      {
        var outcome := CallDriver(methodName, drivers[i], b);
        OneMore(drivers, i, methodName, b, continueOnFailure);
        i := i + 1;
        if Propagates(outcome) {
          var e := if outcome.FailsInvalidRequest? then RetryRequest else FromDriver(drivers[i - 1]);
          return Raised(e), drivers[..i];
        } else if outcome.FailsForeign? {
          error := true;
          if !continueOnFailure {
            break;
          }
        } else if methodName == "start_rpc_listeners" {
          servers := servers + outcome.servers;
        }
      }
      called := drivers[..i];
      assert i > 0 ==> called[i - 1] == drivers[i - 1];
      assert i == |drivers| ==> called == drivers;
      result := if error then Raised(GroupPolicyDriverError(methodName)) else Returned(servers);
    }

    method CallDriver(methodName: string, driver: string, b: Behaviour) returns (outcome: Outcome)
      modifies `received
      ensures received == old(received) + [(methodName, driver)] && outcome == b(methodName, driver)
    {
      received := received + [(methodName, driver)];
      outcome := b(methodName, driver);
    }
  }

  ghost predicate Passed(called: seq<string>, methodName: string, b: Behaviour, continueOnFailure: bool) {
    forall i :: 0 <= i < |called| ==> !Stops(b(methodName, called[i]), continueOnFailure)
  }

  /** One more driver has been called. */
  lemma OneMore(order: seq<string>, n: nat, methodName: string, b: Behaviour, cont: bool)
    requires n < |order| && Passed(order[..n], methodName, b, cont)
    ensures Pairs(methodName, order[..n + 1]) == Pairs(methodName, order[..n]) + [(methodName, order[n])]
    ensures SomeForeign(order[..n + 1], methodName, b) <==>
            SomeForeign(order[..n], methodName, b) || b(methodName, order[n]).FailsForeign?
    ensures var o := b(methodName, order[n]);
            Servers(order[..n + 1], methodName, b) ==
            Servers(order[..n], methodName, b) + if o.Succeeds? then o.servers else []
    ensures n + 1 == |order| || Stops(b(methodName, order[n]), cont) ==>
              IsCalled(order, order[..n + 1], methodName, b, cont)
    ensures Propagates(b(methodName, order[n])) ==>
              IsResult(order[..n + 1], methodName, b,
                       Raised(if b(methodName, order[n]).FailsInvalidRequest? then RetryRequest
                              else FromDriver(order[n])))
    ensures !Stops(b(methodName, order[n]), cont) ==> Passed(order[..n + 1], methodName, b, cont)
  {
    assert order[..n + 1] == order[..n] + [order[n]];
    assert (order[..n] + [order[n]])[..n] == order[..n];
    SomeForeignOneMore(order[..n], order[n], methodName, b);
    PairsOneMore(methodName, order[..n], order[n]);
    forall i | 0 <= i < n ensures !Stops(b(methodName, order[i]), cont) {
      assert order[..n][i] == order[i];
    }
  }

  function Pairs(methodName: string, called: seq<string>): seq<(string, string)> {
    seq(|called|, i requires 0 <= i < |called| => (methodName, called[i]))
  }

  lemma PairsOneMore(methodName: string, called: seq<string>, driver: string)
    ensures Pairs(methodName, called + [driver]) == Pairs(methodName, called) + [(methodName, driver)]
  {
  }

  lemma SomeForeignOneMore(called: seq<string>, driver: string, methodName: string, b: Behaviour)
    ensures SomeForeign(called + [driver], methodName, b) <==>
            SomeForeign(called, methodName, b) || b(methodName, driver).FailsForeign?
  {
    var more := called + [driver];
    assert more[|called|] == driver;
    if i :| 0 <= i < |called| && b(methodName, called[i]).FailsForeign? {
      assert more[i] == called[i];
    }
  }

  // ----- What a dispatch amounts to -----

  /** The specification determines which drivers are called. */
  lemma CalledUnique(order: seq<string>, c: seq<string>, d: seq<string>, methodName: string, b: Behaviour, cont: bool)
    requires IsCalled(order, c, methodName, b, cont) && IsCalled(order, d, methodName, b, cont)
    ensures c == d
  {
    NotLonger(order, c, d, methodName, b, cont);
    NotLonger(order, d, c, methodName, b, cont);
    assert c == order[..|c|] && d == order[..|d|];
  }

  lemma NotLonger(order: seq<string>, c: seq<string>, d: seq<string>, methodName: string, b: Behaviour, cont: bool)
    requires IsCalled(order, c, methodName, b, cont) && IsCalled(order, d, methodName, b, cont)
    ensures |d| <= |c|
  {
    assert forall i {:trigger order[i]} :: 0 <= i < |c| ==> c[i] == order[i];
    assert forall i {:trigger order[i]} :: 0 <= i < |d| ==> d[i] == order[i];
  }

  predicate SomeFails(order: seq<string>, methodName: string, b: Behaviour) {
    exists i :: 0 <= i < |order| && !b(methodName, order[i]).Succeeds?
  }

  /** A dispatch raises exactly if some driver fails in it, whatever the order and the policy on failures. */
  lemma RaisesIfSomeFails(order: seq<string>, called: seq<string>, methodName: string, b: Behaviour, cont: bool,
      r: Result)
    requires IsCalled(order, called, methodName, b, cont) && IsResult(called, methodName, b, r)
    ensures r.Raised? <==> SomeFails(order, methodName, b)
  {
    if r.Raised? {
      if called != [] && Propagates(b(methodName, called[|called| - 1])) {
        assert called[|called| - 1] == order[|called| - 1];
      } else {
        var i :| 0 <= i < |called| && b(methodName, called[i]).FailsForeign?;
        assert called[i] == order[i];
      }
    } else {
      NoneFails(order, called, methodName, b, cont, r);
    }
  }

  lemma NoneFails(order: seq<string>, called: seq<string>, methodName: string, b: Behaviour, cont: bool, r: Result)
    requires IsCalled(order, called, methodName, b, cont) && IsResult(called, methodName, b, r) && r.Returned?
    ensures called == order && !SomeFails(order, methodName, b)
  {
    assert called == order;
    forall i | 0 <= i < |order| ensures b(methodName, order[i]).Succeeds? {
      assert order[i] == called[i] && !b(methodName, called[i]).FailsForeign?;
    }
  }

  /** The driver error is raised exactly if some called driver failed with a foreign exception and none with a
      propagating one. */
  lemma DriverErrorExactly(order: seq<string>, called: seq<string>, methodName: string, b: Behaviour, cont: bool,
      r: Result)
    requires IsCalled(order, called, methodName, b, cont) && IsResult(called, methodName, b, r)
    ensures r == Raised(GroupPolicyDriverError(methodName)) <==>
            SomeForeign(called, methodName, b) && forall i :: 0 <= i < |called| ==>
                !Propagates(b(methodName, called[i]))
  {
    if called != [] && !Propagates(b(methodName, called[|called| - 1])) {
      forall i | 0 <= i < |called| ensures !Propagates(b(methodName, called[i])) {
        assert i < |called| - 1 ==> !Stops(b(methodName, called[i]), cont);
      }
    }
  }

  /** A driver is called unless one before it propagates, or fails otherwise while the dispatch does not go on. */
  lemma CalledExactly(order: seq<string>, called: seq<string>, methodName: string, b: Behaviour, cont: bool)
    ensures IsCalled(order, called, methodName, b, cont) <==>
            && called <= order
            && (forall i :: 0 <= i < |called| - 1 ==>
                  b(methodName, called[i]).Succeeds? || (b(methodName, called[i]).FailsForeign? && cont))
            && (|called| < |order| ==>
                  called != [] &&
                  match b(methodName, called[|called| - 1]) {
                    case Succeeds(_) => false
                    case FailsForeign => !cont
                    case _ => true
                  })
  {
  }

  /** The exception raised, by what the last driver called has done. */
  lemma RaisedExactly(order: seq<string>, called: seq<string>, methodName: string, b: Behaviour, cont: bool, r: Result)
    requires IsCalled(order, called, methodName, b, cont) && IsResult(called, methodName, b, r)
    ensures forall d :: r == Raised(FromDriver(d)) <==>
              called != [] && d == called[|called| - 1]
              && (b(methodName, d).FailsRetriable? || b(methodName, d).FailsKnown?)
    ensures r == Raised(RetryRequest) <==> called != [] && b(methodName, called[|called| - 1]).FailsInvalidRequest?
    ensures r == Raised(GroupPolicyDriverError(methodName)) <==>
            && (exists i :: 0 <= i < |called| && b(methodName, called[i]).FailsForeign?)
            && (b(methodName, called[|called| - 1]).FailsForeign? || b(methodName, called[|called| - 1]).Succeeds?)
  {
  }

  /** What the drivers return is put together in the order of the calls. */
  lemma {:induction false} ServersExactly(front: seq<string>, rest: seq<string>, driver: string, methodName: string,
      b: Behaviour)
    ensures Servers([], methodName, b) == []
    ensures Servers([driver], methodName, b) ==
            if b(methodName, driver).Succeeds? then b(methodName, driver).servers else []
    ensures Servers(front + rest, methodName, b) == Servers(front, methodName, b) + Servers(rest, methodName, b)
    decreases |rest|
  {
    assert [driver][..0] == [];
    if rest == [] {
      assert front + rest == front;
    } else {
      var n := |rest| - 1;
      ServersExactly(front, rest[..n], driver, methodName, b);
      assert (front + rest)[..|front| + n] == front + rest[..n];
    }
  }

  /** Only methods whose name starts with "delete" are called in reverse order. */
  lemma OrderExactly(manager: PolicyDriverManager, methodName: string)
    requires manager.Valid()
    ensures var order, configured := manager.Order(methodName), manager.orderedPolicyDrivers;
            if |methodName| >= 6 && methodName[..6] == "delete"
            then |order| == |configured| && forall i :: 0 <= i < |order| ==> order[i] == configured[|order| - 1 - i]
            else order == configured
  {
  }

  /** Going on after foreign failures calls every driver unless one propagates. */
  lemma ContinuesToTheEnd(order: seq<string>, called: seq<string>, methodName: string, b: Behaviour)
    requires IsCalled(order, called, methodName, b, true)
    requires forall i :: 0 <= i < |order| ==> !Propagates(b(methodName, order[i]))
    ensures called == order
  {
    if called != [] {
      assert called[|called| - 1] == order[|called| - 1];
    }
  }

  // ----- The create protocol -----

  /** The plugin's table of one resource, with the drivers it dispatches to. */
  class Plugin {
    var rows: set<string>
    const manager: PolicyDriverManager

    constructor (manager: PolicyDriverManager)
      ensures rows == {} && this.manager == manager
    {
      rows := {};
      this.manager := manager;
    }

    /** Whether a dispatch of the method raises. */
    ghost predicate Raises(methodName: string, b: Behaviour)
      reads this, manager
    {
      SomeFails(manager.orderedPolicyDrivers, methodName, b)
    }

    method Dispatch(methodName: string, b: Behaviour, continueOnFailure: bool)
      returns (result: Result, ghost called: seq<string>)
      requires manager.Valid()
      modifies manager`received
      ensures result.Raised? <==> Raises(methodName, b)
      ensures IsCalled(manager.Order(methodName), called, methodName, b, continueOnFailure)
      ensures result.Returned? ==> called == manager.Order(methodName)
      ensures manager.received == old(manager.received) + Pairs(methodName, called)
    {
      result, called := manager.CallOnDrivers(methodName, b, continueOnFailure);
      RaisesIfSomeFails(manager.Order(methodName), called, methodName, b, continueOnFailure, result);
      SameDrivers(manager.orderedPolicyDrivers, methodName, b);
      if result.Returned? {
        NoneFails(manager.Order(methodName), called, methodName, b, continueOnFailure, result);
      }
    }

    /** What the drivers receive in a delete that goes through: both hooks, in reverse order. */
    ghost predicate DeleteReceived(resource: string, b: Behaviour, was: seq<(string, string)>,
        now: seq<(string, string)>)
      reads manager
    {
      var pre, post := "delete_" + resource + "_precommit", "delete_" + resource + "_postcommit";
      var drivers := manager.reverseOrderedPolicyDrivers;
      exists called ::
          IsCalled(drivers, called, post, b, true) && now == was + Pairs(pre, drivers) + Pairs(post, called)
    }

    /** delete_l3_policy: a failing precommit hook or the guard keeps the row, a failing postcommit hook does not. */
    method Delete(resource: string, id: string, inUse: bool, b: Behaviour) returns (result: Result)
      requires manager.Valid() && id in rows
      modifies this`rows, manager`received
      ensures result.Raised? <==> old(Raises("delete_" + resource + "_precommit", b)) || inUse
      ensures !old(Raises("delete_" + resource + "_precommit", b)) && inUse ==> result == Raised(InUse(id))
      ensures rows == if result.Raised? then old(rows) else old(rows) - {id}
      ensures result.Returned? ==> DeleteReceived(resource, b, old(manager.received), manager.received)
    {
      ghost var called;
      result, called := Dispatch("delete_" + resource + "_precommit", b, false);
      if result.Raised? {
        return result;
      }
      if inUse {
        return Raised(InUse(id));
      }
      rows := rows - {id};
      var ignored;
      ignored, called := Dispatch("delete_" + resource + "_postcommit", b, true);
      return Returned([]);
    }

    /** create_l3_policy: a failing postcommit hook is compensated by a delete, and the exception is raised again. */
    method Create(resource: string, id: string, inUse: bool, b: Behaviour) returns (result: Result)
      requires manager.Valid() && id !in rows
      modifies this`rows, manager`received
      ensures result.Raised? <==>
              old(Raises("create_" + resource + "_precommit", b))
                  || old(Raises("create_" + resource + "_postcommit", b))
      ensures result.Returned? ==> rows == old(rows) + {id}
      ensures result.Returned? ==>
                manager.received == old(manager.received)
                                    + Pairs("create_" + resource + "_precommit", manager.orderedPolicyDrivers)
                                    + Pairs("create_" + resource + "_postcommit", manager.orderedPolicyDrivers)
      ensures result.Raised? ==>
                rows == if !old(Raises("create_" + resource + "_precommit", b))
                           && (old(Raises("delete_" + resource + "_precommit", b)) || inUse)
                        then old(rows) + {id} else old(rows)
    {
      ghost var before, called := rows, [];
      CreateIsNoDelete(resource);
      rows := rows + {id};
      result, called := Dispatch("create_" + resource + "_precommit", b, false);
      if result.Raised? {
        rows := rows - {id};
        assert rows == before;
        return result;
      }
      result, called := Dispatch("create_" + resource + "_postcommit", b, false);
      if result.Raised? {
        var compensation := Delete(resource, id, inUse, b);
        assert before + {id} - {id} == before;
        return if compensation.Raised? then compensation else result;
      }
      return Returned([]);
    }
  }

  lemma CreateIsNoDelete(resource: string)
    ensures !IsDelete("create_" + resource + "_precommit") && !IsDelete("create_" + resource + "_postcommit")
  {
    assert ("create_" + resource + "_precommit")[0] == 'c' && ("create_" + resource + "_postcommit")[0] == 'c';
  }

  lemma SameDrivers(s: seq<string>, methodName: string, b: Behaviour)
    ensures SomeFails(Reversed(s), methodName, b) <==> SomeFails(s, methodName, b)
  {
    var r := Reversed(s);
    if i :| 0 <= i < |s| && !b(methodName, s[i]).Succeeds? {
      assert r[|s| - 1 - i] == s[i];
    }
    if i :| 0 <= i < |r| && !b(methodName, r[i]).Succeeds? {
      assert s[|s| - 1 - i] == r[i];
    }
  }
}
