/** Whole runs of the group policy API against the NSX backend: the table always means the policy. */
module NsxPolicyRuns {
  import opened Collections
  import opened NsxPolicyMapping

  datatype State = State(policy: Policy, table: Table)

  /** API calls that can touch the table or what it should hold. Deleting a group first updates it to use no
      rule set (plugin.py:652-659), so DropGroup only removes a group without rule sets. */
  datatype Step =
    | SetGroup(g: string, now: Group)
    | DropGroup(g: string)
    | AddRuleSet(s: string, rules: set<string>)
    | SetRuleSet(s: string, rules: set<string>)
    | DropRuleSet(s: string)
    | AddRule(r: string, classifier: string)
    | SetRule(r: string, classifier: string)
    | DropRule(r: string)
    | AddClassifier(c: string, d: Direction)
    | DropClassifier(c: string)

  const NO_RULE_SETS := Group({}, {})

  function GroupOf(p: Policy, g: string): Group {
    if g in p.groups then p.groups[g] else NO_RULE_SETS
  }

  /** The validations an accepted call has passed. */
  ghost predicate Accepted(p: Policy, step: Step) {
    match step
    case SetGroup(g, now) => now.provided + now.consumed <= p.ruleSets.Keys
    case DropGroup(g) => g in p.groups && p.groups[g] == NO_RULE_SETS
    case AddRuleSet(s, rules) => s !in p.ruleSets && rules <= p.rules.Keys
    case SetRuleSet(s, rules) => s in p.ruleSets && rules <= p.rules.Keys
    case DropRuleSet(s) => Providers(p, s) == {} && Consumers(p, s) == {}
    case AddRule(r, c) => r !in p.rules && c in p.classifiers
    case SetRule(r, c) => r in p.rules && c in p.classifiers
    case DropRule(r) => Users(p, r) == {}
    case AddClassifier(c, d) => c !in p.classifiers
    case DropClassifier(c) => forall r :: r in p.rules ==> p.rules[r] != c
  }

  function Stored(p: Policy, step: Step): Policy {
    match step
    case SetGroup(g, now) => p.(groups := p.groups[g := now])
    case DropGroup(g) => p.(groups := p.groups - {g})
    case AddRuleSet(s, rules) => p.(ruleSets := p.ruleSets[s := rules])
    case SetRuleSet(s, rules) => p.(ruleSets := p.ruleSets[s := rules])
    case DropRuleSet(s) => p.(ruleSets := p.ruleSets - {s})
    case AddRule(r, c) => p.(rules := p.rules[r := c])
    case SetRule(r, c) => p.(rules := p.rules[r := c])
    case DropRule(r) => p.(rules := p.rules - {r})
    case AddClassifier(c, d) => p.(classifiers := p.classifiers[c := d])
    case DropClassifier(c) => p.(classifiers := p.classifiers - {c})
  }

  datatype Subject = AGroup(g: string) | ARuleSet(s: string) | ARule(r: string) | AClassifier(c: string)

  /** What the call is about. */
  function SubjectOf(step: Step): Subject {
    match step
    case SetGroup(g, _) => AGroup(g)
    case DropGroup(g) => AGroup(g)
    case AddRuleSet(s, _) => ARuleSet(s)
    case SetRuleSet(s, _) => ARuleSet(s)
    case DropRuleSet(s) => ARuleSet(s)
    case AddRule(r, _) => ARule(r)
    case SetRule(r, _) => ARule(r)
    case DropRule(r) => ARule(r)
    case AddClassifier(c, _) => AClassifier(c)
    case DropClassifier(c) => AClassifier(c)
  }

  /** What the call asked for is what the store holds. */
  predicate InForce(p: Policy, step: Step) {
    match step
    case SetGroup(g, now) => g in p.groups && p.groups[g].provided == now.provided
        && p.groups[g].consumed == now.consumed
    case DropGroup(g) => g !in p.groups
    case AddRuleSet(s, rules) => s in p.ruleSets && p.ruleSets[s] == rules
    case SetRuleSet(s, rules) => s in p.ruleSets && p.ruleSets[s] == rules
    case DropRuleSet(s) => s !in p.ruleSets
    case AddRule(r, c) => r in p.rules && p.rules[r] == c
    case SetRule(r, c) => r in p.rules && p.rules[r] == c
    case DropRule(r) => r !in p.rules
    case AddClassifier(c, d) => c in p.classifiers && p.classifiers[c] == d
    case DropClassifier(c) => c !in p.classifiers
  }

  /** New objects have unused names, updated ones exist, and a group is deleted once it uses no rule set. */
  predicate NamesFit(p: Policy, step: Step) {
    match step
    case DropGroup(g) => g in p.groups && p.groups[g].provided == {} && p.groups[g].consumed == {}
    case AddRuleSet(s, _) => s !in p.ruleSets
    case SetRuleSet(s, _) => s in p.ruleSets
    case AddRule(r, _) => r !in p.rules
    case SetRule(r, _) => r in p.rules
    case AddClassifier(c, _) => c !in p.classifiers
    case _ => true
  }

  /** The validations turn down precisely the calls that would leave a reference to something missing. */
  lemma AcceptedExactly(p: Policy, step: Step)
    requires p.Closed()
    ensures Accepted(p, step) <==> NamesFit(p, step) && Stored(p, step).Closed()
  {
    var p' := Stored(p, step);
    if Accepted(p, step) {
      StoredClosed(p, step);
    } else if NamesFit(p, step) && p'.Closed() {
      NothingMissing(p, step);
    }
  }

  lemma NothingMissing(p: Policy, step: Step)
    requires p.Closed() && NamesFit(p, step) && Stored(p, step).Closed()
    ensures Accepted(p, step)
  {
    var p' := Stored(p, step);
    match step
    case SetGroup(g, now) => assert p'.groups[g] == now;
    case AddRuleSet(s, rules) => assert p'.ruleSets[s] == rules;
    case SetRuleSet(s, rules) => assert p'.ruleSets[s] == rules;
    case DropRuleSet(s) =>
      forall g | g in p.groups ensures s !in p.groups[g].provided && s !in p.groups[g].consumed {
        assert p'.groups[g].provided + p'.groups[g].consumed <= p'.ruleSets.Keys;
      }
      assert Providers(p, s) == {} == Consumers(p, s);
    case DropRule(r) =>
      forall s | s in p.ruleSets ensures r !in p.ruleSets[s] {
        assert p'.ruleSets[s] <= p'.rules.Keys;
      }
      assert Users(p, r) == {};
    case AddRule(r, c) => assert p'.rules[r] == c;
    case SetRule(r, c) => assert p'.rules[r] == c;
    case _ =>
  }

  /** The driver's work after the store has changed from `p` to `p'`. */
  ghost predicate Driven(p: Policy, step: Step, p': Policy, t: Table, t': Table) {
    match step
    case SetGroup(g, now) => GroupMapped(t, t', p', GroupOf(p, g), now)
    case SetRuleSet(s, rules) =>
      // The lists of rules are compared, so the same rules in another order may be mapped again as well.
      s in p.ruleSets && exists ss ::
          (ss == {s} || (ss == {} && rules == p.ruleSets[s])) && Mapped(t, t', p', ss, false)
    case SetRule(r, c) => r in p.rules && Mapped(t, t', p', if c != p.rules[r] then Users(p', r) else {}, false)
    case _ => t' == t
  }

  ghost predicate Next(a: State, step: Step, b: State) {
    && Accepted(a.policy, step)
    && b.policy == Stored(a.policy, step)
    && Driven(a.policy, step, b.policy, a.table, b.table)
  }

  ghost predicate Inv(a: State) {
    a.policy.Closed() && Compiled(a.table, a.policy)
  }

  // ----- The one update that goes wrong -----

  /** The group is the only provider and the only consumer of `s`, whose entries exist, and gives both up at once. */
  ghost predicate Empties(p: Policy, g: string, now: Group, s: string) {
    && s in p.ruleSets
    && Providers(p, s) == {g} == Consumers(p, s)
    && s !in now.provided + now.consumed
    && Services(p, s, false) + Services(p, s, true) != {}
  }

  /** The early return for rule sets without providers and consumers then leaves the entries behind. */
  ghost predicate Strands(p: Policy, step: Step) {
    step.SetGroup? && exists s :: Empties(p, step.g, step.now, s)
  }

  // ----- One step -----

  lemma SidesOfOthers(p: Policy, g: string, now: Group, s: string)
    ensures var p' := Stored(p, SetGroup(g, now));
      && Providers(p', s) - {g} == Providers(p, s) - {g} && (g in Providers(p', s) <==> s in now.provided)
      && Consumers(p', s) - {g} == Consumers(p, s) - {g} && (g in Consumers(p', s) <==> s in now.consumed)
      && (g in Providers(p, s) <==> s in GroupOf(p, g).provided)
      && (g in Consumers(p, s) <==> s in GroupOf(p, g).consumed)
      && Services(p', s, false) == Services(p, s, false) && Services(p', s, true) == Services(p, s, true)
  {
  }

  /** A rule set the group neither gains nor loses keeps its sides. */
  lemma UntouchedSides(p: Policy, g: string, now: Group, s: string)
    requires s !in Gained(GroupOf(p, g), now) + Gained(now, GroupOf(p, g))
    ensures var p' := Stored(p, SetGroup(g, now));
      Providers(p', s) == Providers(p, s) && Consumers(p', s) == Consumers(p, s)
  {
    SidesOfOthers(p, g, now, s);
    var p' := Stored(p, SetGroup(g, now));
    assert Providers(p', s) == Providers(p', s) - {g} + Providers(p', s) * {g};
    assert Providers(p, s) == Providers(p, s) - {g} + Providers(p, s) * {g};
    assert Consumers(p', s) == Consumers(p', s) - {g} + Consumers(p', s) * {g};
    assert Consumers(p, s) == Consumers(p, s) - {g} + Consumers(p, s) * {g};
  }

  /** What a group update leaves in the table for one rule set: stale exactly when both sides were emptied. */
  lemma GroupUpdateSettles(p: Policy, g: string, now: Group, t: Table, t': Table, s: string)
    requires Settled(t, p, s) && s in p.ruleSets
    requires GroupMapped(t, t', Stored(p, SetGroup(g, now)), GroupOf(p, g), now)
    ensures Settled(t', Stored(p, SetGroup(g, now)), s) <==> !Empties(p, g, now, s)
  {
    var p', was := Stored(p, SetGroup(g, now)), GroupOf(p, g);
    var mid :| Mapped(t, mid, p', Gained(was, now), false) && Mapped(mid, t', p', Gained(now, was), true);
    SidesOfOthers(p, g, now, s);
    forall out ensures Lookup(t', AppendDir(s, out)) == Left(p, p', was, now, s, out) {
      if s !in Gained(was, now) {
        MappedElsewhere(t, mid, p', Gained(was, now), false, s, out);
      }
      if s !in Gained(now, was) {
        MappedElsewhere(mid, t', p', Gained(now, was), true, s, out);
      }
      assert Lookup(t, AppendDir(s, out)) == Want(p, s, out);
    }
    LeftIsWanted(p, g, now, s);
  }

  /** The entry after the two mapping passes of a group update, started from a settled table. */
  ghost function Left(p: Policy, p': Policy, was: Group, now: Group, s: string, out: bool): Option<CommMap> {
    if s !in Gained(was, now) + Gained(now, was) then Want(p, s, out)
    else if BothSides(p', s) then Want(p', s, out)
    else if s in Gained(now, was) && (Providers(p', s) != {} || Consumers(p', s) != {}) then None
    else Want(p, s, out)
  }

  lemma LeftIsWanted(p: Policy, g: string, now: Group, s: string)
    requires s in p.ruleSets
    ensures var p' := Stored(p, SetGroup(g, now));
      (forall out :: Left(p, p', GroupOf(p, g), now, s, out) == Want(p', s, out)) <==> !Empties(p, g, now, s)
  {
    var p', was := Stored(p, SetGroup(g, now)), GroupOf(p, g);
    SidesOfOthers(p, g, now, s);
    if s !in Gained(was, now) + Gained(now, was) {
      UntouchedSides(p, g, now, s);
      assert forall out :: Left(p, p', was, now, s, out) == Want(p', s, out);
    } else if BothSides(p', s) {
      assert Providers(p', s) <= {g} ==> g in Providers(p', s);
      assert !Empties(p, g, now, s);
      assert forall out :: Left(p, p', was, now, s, out) == Want(p', s, out);
    } else if Providers(p', s) != {} || Consumers(p', s) != {} {
      assert s !in Gained(now, was) ==> !BothSides(p, s);
      assert Providers(p', s) + Consumers(p', s) <= {g} ==> g in Providers(p', s) + Consumers(p', s);
      assert !Empties(p, g, now, s);
      assert forall out :: Left(p, p', was, now, s, out) == Want(p', s, out);
    } else {
      assert Want(p', s, false) == None == Want(p', s, true);
      assert Left(p, p', was, now, s, false) == Want(p, s, false) && Left(p, p', was, now, s, true) == Want(p, s, true);
      assert g !in Providers(p', s) && g !in Consumers(p', s);
      assert Providers(p, s) <= {g} && Consumers(p, s) <= {g};
      assert BothSides(p, s) <==> Providers(p, s) == {g} == Consumers(p, s);
      assert Want(p, s, false) == None && Want(p, s, true) == None <==> !Empties(p, g, now, s);
    }
  }

  // ----- Every step, every run -----

  lemma StoredClosed(p: Policy, step: Step)
    requires p.Closed() && Accepted(p, step)
    ensures Stored(p, step).Closed()
  {
    var p' := Stored(p, step);
    match step
    case DropRuleSet(s) =>
      forall g | g in p'.groups ensures p'.groups[g].provided + p'.groups[g].consumed <= p'.ruleSets.Keys {
        assert g !in Providers(p, s) && g !in Consumers(p, s);
      }
    case DropRule(r) =>
      forall s | s in p'.ruleSets ensures p'.ruleSets[s] <= p'.rules.Keys {
        assert s !in Users(p, r);
      }
    case _ =>
  }

  /** The rule sets a step can affect, other than by a group update. */
  ghost function Affected(p: Policy, step: Step): set<string> {
    match step
    case SetRuleSet(s, rules) => {s}
    case SetRule(r, c) => Users(p, r)
    case DropRuleSet(s) => {s}
    case AddRuleSet(s, _) => {s}
    case _ => {}
  }

  lemma UnaffectedWants(p: Policy, step: Step, s: string, out: bool)
    requires p.Closed() && Accepted(p, step) && !step.SetGroup? && s in p.ruleSets && s !in Affected(p, step)
    ensures Want(Stored(p, step), s, out) == Want(p, s, out)
  {
    var p' := Stored(p, step);
    assert Providers(p', s) == Providers(p, s) && Consumers(p', s) == Consumers(p, s) by {
      if step.DropGroup? {
        assert s !in p.groups[step.g].provided && s !in p.groups[step.g].consumed;
      }
    }
    forall c ensures c in Services(p', s, out) <==> c in Services(p, s, out) {
      SameService(p, step, s, out, c);
    }
    assert Services(p', s, out) == Services(p, s, out);
  }

  lemma SameService(p: Policy, step: Step, s: string, out: bool, c: string)
    requires p.Closed() && Accepted(p, step) && !step.SetGroup? && s in p.ruleSets && s !in Affected(p, step)
    ensures c in Services(Stored(p, step), s, out) <==> c in Services(p, s, out)
  {
    var p' := Stored(p, step);
    assert p'.ruleSets[s] == p.ruleSets[s];
    forall r | r in p.ruleSets[s]
      ensures r in p'.rules && p'.rules[r] == p.rules[r]
      ensures p.rules[r] in p'.classifiers && p'.classifiers[p.rules[r]] == p.classifiers[p.rules[r]]
    {
      assert step.DropRule? ==> s !in Users(p, step.r);
      assert step.SetRule? ==> s !in Users(p, step.r);
    }
    if c in Services(p', s, out) {
      var r :| r in p'.ruleSets[s] && p'.rules[r] == c && Carries(p'.classifiers[c], out);
      assert r in p.ruleSets[s] && r in p.rules && p.rules[r] == c && c in p.classifiers;
      assert Carries(p.classifiers[c], out);
      assert c in Services(p, s, out);
    }
    if c in Services(p, s, out) {
      var r :| r in p.ruleSets[s] && p.rules[r] == c && Carries(p.classifiers[c], out);
      assert r in p'.ruleSets[s] && r in p'.rules && p'.rules[r] == c && c in p'.classifiers;
      assert Carries(p'.classifiers[c], out);
      assert c in Services(p', s, out);
    }
    assert c in Services(p', s, out) <==> c in Services(p, s, out);
  }

  /** Mapping rule sets without the delete flow settles those with both sides, and leaves out the others. */
  lemma MappedSettles(t: Table, t': Table, p: Policy, p': Policy, ss: set<string>, s: string)
    requires Mapped(t, t', p', ss, false) && Settled(t, p, s)
    requires Providers(p', s) == Providers(p, s) && Consumers(p', s) == Consumers(p, s)
    requires s !in ss ==> Want(p', s, false) == Want(p, s, false) && Want(p', s, true) == Want(p, s, true)
    ensures Settled(t', p', s)
  {
    forall out ensures Lookup(t', AppendDir(s, out)) == Want(p', s, out) {
      assert Lookup(t, AppendDir(s, out)) == Want(p, s, out);
      if s !in ss {
        MappedElsewhere(t, t', p', ss, false, s, out);
        assert out == false || out == true;
      }
    }
  }

  /** No mapping pass creates entries for rule sets it was not called for. */
  lemma MappedKeys(t: Table, t': Table, p: Policy, ss: set<string>, deleteFlow: bool, k: string)
    requires Mapped(t, t', p, ss, deleteFlow) && k in t'
    ensures k in t || exists s, out :: s in ss && k == AppendDir(s, out)
  {
    if forall s, out :: s in ss ==> k != AppendDir(s, out) {
      assert Lookup(t', k) == Lookup(t, k);
    }
  }

  lemma OwnedKeys(t: Table, t': Table, p: Policy, p': Policy, ss: set<string>, deleteFlow: bool)
    requires Mapped(t, t', p', ss, deleteFlow) && ss <= p'.ruleSets.Keys && p.ruleSets.Keys <= p'.ruleSets.Keys
    requires forall k :: k in t ==> exists s, out :: s in p.ruleSets && k == AppendDir(s, out)
    ensures forall k :: k in t' ==> exists s, out :: s in p'.ruleSets && k == AppendDir(s, out)
  {
    forall k | k in t' ensures exists s, out :: s in p'.ruleSets && k == AppendDir(s, out) {
      MappedKeys(t, t', p', ss, deleteFlow, k);
      if k in t {
        var s, out :| s in p.ruleSets && k == AppendDir(s, out);
        assert s in p'.ruleSets;
      } else {
        var s, out :| s in ss && k == AppendDir(s, out);
        assert s in p'.ruleSets;
      }
    }
  }

  lemma GroupStep(a: State, g: string, now: Group, b: State)
    requires Inv(a) && Next(a, SetGroup(g, now), b)
    ensures Compiled(b.table, b.policy) <==> !Strands(a.policy, SetGroup(g, now))
  {
    var p, p', was := a.policy, b.policy, GroupOf(a.policy, g);
    forall s | s in p.ruleSets ensures Settled(b.table, p', s) <==> !Empties(p, g, now, s) {
      assert Settled(a.table, p, s);
      GroupUpdateSettles(p, g, now, a.table, b.table, s);
    }
    var mid :| Mapped(a.table, mid, p', Gained(was, now), false) && Mapped(mid, b.table, p', Gained(now, was), true);
    OwnedKeys(a.table, mid, p, p', Gained(was, now), false);
    OwnedKeys(mid, b.table, p', p', Gained(now, was), true);
  }

  /** Rule set and rule updates: the affected rule sets are compiled again. */
  lemma RuleStep(a: State, step: Step, b: State, ss: set<string>)
    requires Inv(a) && Next(a, step, b) && !step.SetGroup? && b.policy.groups == a.policy.groups
    requires b.policy.ruleSets.Keys == a.policy.ruleSets.Keys
    requires Mapped(a.table, b.table, b.policy, ss, false) && ss <= b.policy.ruleSets.Keys
    requires forall s, out :: s in a.policy.ruleSets && s !in ss ==> Want(b.policy, s, out) == Want(a.policy, s, out)
    ensures Compiled(b.table, b.policy)
  {
    forall s | s in b.policy.ruleSets ensures Settled(b.table, b.policy, s) {
      assert Settled(a.table, a.policy, s);
      MappedSettles(a.table, b.table, a.policy, b.policy, ss, s);
    }
    OwnedKeys(a.table, b.table, a.policy, b.policy, ss, false);
  }

  /** Steps that leave the table alone. */
  lemma QuietStep(a: State, step: Step, b: State)
    requires Inv(a) && Next(a, step, b) && b.table == a.table
    requires !step.SetGroup? && !step.SetRuleSet? && !step.SetRule?
    ensures Compiled(b.table, b.policy)
  {
    var p, p' := a.policy, b.policy;
    forall s | s in p'.ruleSets ensures Settled(b.table, p', s) {
      forall out ensures Lookup(b.table, AppendDir(s, out)) == Want(p', s, out) {
        if s in p.ruleSets {
          assert Settled(a.table, p, s) && Lookup(a.table, AppendDir(s, out)) == Want(p, s, out);
          UnaffectedWants(p, step, s, out);
        } else {
          NewRuleSetUnused(a, s, out);
        }
      }
    }
    forall k | k in b.table ensures exists s, out :: s in p'.ruleSets && k == AppendDir(s, out) {
      var s, out :| s in p.ruleSets && k == AppendDir(s, out);
      assert Settled(a.table, p, s) && Lookup(a.table, k) == Want(p, s, out);
      assert s in p'.ruleSets;
    }
  }

  /** A rule set that does not exist yet has no group and no entry. */
  lemma NewRuleSetUnused(a: State, s: string, out: bool)
    requires Inv(a) && s !in a.policy.ruleSets
    ensures Providers(a.policy, s) == {} && AppendDir(s, out) !in a.table
  {
    forall g | g in a.policy.groups ensures s !in a.policy.groups[g].provided {
      assert a.policy.groups[g].provided + a.policy.groups[g].consumed <= a.policy.ruleSets.Keys;
    }
    if AppendDir(s, out) in a.table {
      var s', out' :| s' in a.policy.ruleSets && AppendDir(s, out) == AppendDir(s', out');
      KeysNeverCollide(s, s', out, out');
    }
  }

  /** An accepted call keeps the table compiled, except for exactly the group updates that empty both sides. */
  lemma StepCompiles(a: State, step: Step, b: State)
    requires Inv(a) && Next(a, step, b)
    ensures b.policy.Closed()
    ensures Inv(b) <==> !Strands(a.policy, step)
  {
    var p, p' := a.policy, b.policy;
    StoredClosed(p, step);
    match step
    case SetGroup(g, now) => GroupStep(a, g, now, b);
    case SetRuleSet(s, rules) =>
      forall s', out | s' in p.ruleSets && (s' != s || rules == p.ruleSets[s])
        ensures Want(p', s', out) == Want(p, s', out)
      {
        if s' != s {
          UnaffectedWants(p, step, s', out);
        } else {
          assert p'.ruleSets == p.ruleSets;
        }
      }
      var ss :| (ss == {s} || (ss == {} && rules == p.ruleSets[s])) && Mapped(a.table, b.table, p', ss, false);
      RuleStep(a, step, b, ss);
    case SetRule(r, c) =>
      forall s', out | s' in p.ruleSets && (r !in p.ruleSets[s'] || c == p.rules[r])
        ensures Want(p', s', out) == Want(p, s', out)
      {
        if r !in p.ruleSets[s'] {
          UnaffectedWants(p, step, s', out);
        } else {
          assert p'.rules == p.rules;
        }
      }
      RuleStep(a, step, b, if c != p.rules[r] then Users(p', r) else {});
    case _ => QuietStep(a, step, b);
  }

  /** A run of accepted calls from an empty store and backend. */
  ghost predicate Run(states: seq<State>, steps: seq<Step>) {
    && |states| == |steps| + 1
    && states[0] == State(Policy(map[], map[], map[], map[]), map[])
    && forall i :: 0 <= i < |steps| ==> Next(states[i], steps[i], states[i + 1])
  }

  /** At every point of a run the store holds what the last call about each object asked for. */
  lemma {:induction false} LastCallInForce(states: seq<State>, steps: seq<Step>, i: nat, n: nat)
    requires Run(states, steps) && i < n < |states|
    requires forall k :: i < k < n ==> SubjectOf(steps[k]) != SubjectOf(steps[i])
    ensures InForce(states[n].policy, steps[i])
  {
    assert Next(states[n - 1], steps[n - 1], states[n]);
    if i < n - 1 {
      LastCallInForce(states, steps, i, n - 1);
      StaysInForce(states[n - 1].policy, steps[n - 1], steps[i]);
    }
  }

  lemma StaysInForce(p: Policy, step: Step, earlier: Step)
    requires InForce(p, earlier) && SubjectOf(step) != SubjectOf(earlier)
    ensures InForce(Stored(p, step), earlier)
  {
  }

  lemma {:induction false} RunCompiles(states: seq<State>, steps: seq<Step>, n: nat)
    requires Run(states, steps) && n < |states|
    requires forall i :: 0 <= i < n ==> !Strands(states[i].policy, steps[i])
    ensures Inv(states[n])
  {
    if n > 0 {
      RunCompiles(states, steps, n - 1);
      StepCompiles(states[n - 1], steps[n - 1], states[n]);
    }
  }

  /** After every run without a stranding update, the backend permits exactly what the policy allows. */
  lemma RunIsFaithful(states: seq<State>, steps: seq<Step>, source: string, dest: string, service: string)
    requires Run(states, steps)
    requires forall i :: 0 <= i < |steps| ==> !Strands(states[i].policy, steps[i])
    ensures var s := states[|steps|];
      Permits(s.table, source, dest, service) <==> Allows(s.policy, source, dest, service)
  {
    RunCompiles(states, steps, |steps|);
    CompiledIsFaithful(states[|steps|].table, states[|steps|].policy, source, dest, service);
  }

  // ----- The half that needs no condition -----

  /** The entries of every rule set with both sides are the wanted ones; other entries may be left over. */
  ghost predicate Serves(a: State) {
    a.policy.Closed() && forall s :: s in a.policy.ruleSets && BothSides(a.policy, s) ==> Settled(a.table, a.policy, s)
  }

  /** Mapping without the delete flow settles a rule set that has both sides, or leaves it settled. */
  lemma MappedServes(t: Table, t': Table, p: Policy, p': Policy, ss: set<string>, s: string)
    requires Mapped(t, t', p', ss, false) && BothSides(p', s)
    requires s !in ss ==>
            Settled(t, p, s) && Want(p', s, false) == Want(p, s, false) && Want(p', s, true) == Want(p, s, true)
    ensures Settled(t', p', s)
  {
    forall out ensures Lookup(t', AppendDir(s, out)) == Want(p', s, out) {
      if s !in ss {
        MappedElsewhere(t, t', p', ss, false, s, out);
        assert Lookup(t, AppendDir(s, out)) == Want(p, s, out);
        assert out == false || out == true;
      }
    }
  }

  lemma GroupUpdateServes(a: State, g: string, now: Group, b: State, s: string)
    requires Serves(a) && Next(a, SetGroup(g, now), b) && s in b.policy.ruleSets && BothSides(b.policy, s)
    ensures Settled(b.table, b.policy, s)
  {
    var p, p', was := a.policy, b.policy, GroupOf(a.policy, g);
    var mid :| Mapped(a.table, mid, p', Gained(was, now), false) && Mapped(mid, b.table, p', Gained(now, was), true);
    forall out ensures Lookup(b.table, AppendDir(s, out)) == Want(p', s, out) {
      if s !in Gained(now, was) {
        MappedElsewhere(mid, b.table, p', Gained(now, was), true, s, out);
        if s !in Gained(was, now) {
          MappedElsewhere(a.table, mid, p', Gained(was, now), false, s, out);
          UntouchedWants(p, g, now, s, out);
          assert Settled(a.table, p, s);
        }
      }
    }
  }

  lemma UntouchedWants(p: Policy, g: string, now: Group, s: string, out: bool)
    requires s !in Gained(GroupOf(p, g), now) + Gained(now, GroupOf(p, g))
    ensures var p' := Stored(p, SetGroup(g, now));
            Want(p', s, out) == Want(p, s, out) && (BothSides(p', s) <==> BothSides(p, s))
  {
    UntouchedSides(p, g, now, s);
    SidesOfOthers(p, g, now, s);
    assert out == false || out == true;
  }

  lemma UnaffectedSides(p: Policy, step: Step, s: string)
    requires Accepted(p, step) && !step.SetGroup?
    ensures Providers(Stored(p, step), s) == Providers(p, s) && Consumers(Stored(p, step), s) == Consumers(p, s)
  {
    if step.DropGroup? {
      assert s !in p.groups[step.g].provided && s !in p.groups[step.g].consumed;
    }
  }

  /** A rule set with both sides that the step does not affect keeps its wanted entries. */
  lemma OtherServes(a: State, step: Step, b: State, ss: set<string>, s: string)
    requires Serves(a) && Next(a, step, b) && !step.SetGroup? && s in b.policy.ruleSets && BothSides(b.policy, s)
    requires Mapped(a.table, b.table, b.policy, ss, false)
    requires s in ss || (s in a.policy.ruleSets && s !in Affected(a.policy, step)) || b.policy == a.policy
    ensures Settled(b.table, b.policy, s)
  {
    UnaffectedSides(a.policy, step, s);
    if s !in ss {
      assert Settled(a.table, a.policy, s);
      if b.policy != a.policy {
        UnaffectedWants(a.policy, step, s, false);
        UnaffectedWants(a.policy, step, s, true);
      }
    }
    MappedServes(a.table, b.table, a.policy, b.policy, ss, s);
  }

  lemma StepServes(a: State, step: Step, b: State)
    requires Serves(a) && Next(a, step, b)
    ensures Serves(b)
  {
    StoredClosed(a.policy, step);
    forall s | s in b.policy.ruleSets && BothSides(b.policy, s) ensures Settled(b.table, b.policy, s) {
      match step {
        case SetGroup(g, now) => GroupUpdateServes(a, g, now, b, s);
        case SetRuleSet(r, rules) =>
          var ss :| (ss == {r} || (ss == {} && rules == a.policy.ruleSets[r]))
              && Mapped(a.table, b.table, b.policy, ss, false);
          assert ss == {} ==> b.policy.ruleSets == a.policy.ruleSets;
          OtherServes(a, step, b, ss, s);
        case SetRule(r, c) =>
          assert c == a.policy.rules[r] ==> b.policy.rules == a.policy.rules;
          OtherServes(a, step, b, if c != a.policy.rules[r] then Users(b.policy, r) else {}, s);
        case _ =>
          UnaffectedSides(a.policy, step, s);
          UsedRuleSetExists(a, s);
          OtherServes(a, step, b, {}, s);
      }
    }
  }

  lemma UsedRuleSetExists(a: State, s: string)
    requires Serves(a) && BothSides(a.policy, s)
    ensures s in a.policy.ruleSets
  {
    var g :| g in Providers(a.policy, s);
    assert a.policy.groups[g].provided + a.policy.groups[g].consumed <= a.policy.ruleSets.Keys;
  }

  lemma ServesAllowed(a: State, source: string, dest: string, service: string)
    requires Serves(a) && Allows(a.policy, source, dest, service)
    ensures Permits(a.table, source, dest, service)
  {
    var p := a.policy;
    AllowsByDirection(p, source, dest, service);
    var s, out :| s in p.ruleSets && service in Services(p, s, out) && Connects(p, s, out, source, dest);
    assert Settled(a.table, p, s);
    assert Lookup(a.table, AppendDir(s, out)) == Want(p, s, out);
    assert AppendDir(s, out) in a.table;
  }

  lemma {:induction false} RunServes(states: seq<State>, steps: seq<Step>, n: nat)
    requires Run(states, steps) && n < |states|
    ensures Serves(states[n])
  {
    if n > 0 {
      RunServes(states, steps, n - 1);
      StepServes(states[n - 1], steps[n - 1], states[n]);
    }
  }

  /** On every run, stranding updates or not, the backend never blocks what the policy allows. */
  lemma RunNeverBlocks(states: seq<State>, steps: seq<Step>, n: nat, source: string, dest: string, service: string)
    requires Run(states, steps) && n < |states| && Allows(states[n].policy, source, dest, service)
    ensures Permits(states[n].table, source, dest, service)
  {
    RunServes(states, steps, n);
    ServesAllowed(states[n], source, dest, service);
  }

  // ----- A stranding update -----

  function LonePolicy(group: Group, g: string, s: string, r: string, c: string): Policy {
    Policy(map[g := group], map[s := {r}], map[r := c], map[c := Bi])
  }

  function LoneTable(g: string, s: string, c: string): Table {
    var m := CommMap({c}, {g}, {g});
    map[AppendDir(s, false) := m, AppendDir(s, true) := m]
  }

  lemma LoneCompiled(g: string, s: string, r: string, c: string)
    ensures Inv(State(LonePolicy(Group({s}, {s}), g, s, r, c), LoneTable(g, s, c)))
  {
    var p, t := LonePolicy(Group({s}, {s}), g, s, r, c), LoneTable(g, s, c);
    assert Providers(p, s) == {g} == Consumers(p, s);
    forall out ensures Services(p, s, out) == {c} {
      assert r in p.ruleSets[s] && p.rules[r] == c && Carries(p.classifiers[c], out);
    }
    forall out ensures Lookup(t, AppendDir(s, out)) == Want(p, s, out) {
      assert out == false || out == true;
    }
  }

  lemma LoneUpdate(g: string, s: string, r: string, c: string)
    ensures Next(State(LonePolicy(Group({s}, {s}), g, s, r, c), LoneTable(g, s, c)), SetGroup(g, NO_RULE_SETS),
                 State(LonePolicy(NO_RULE_SETS, g, s, r, c), LoneTable(g, s, c)))
  {
    var p, p', t := LonePolicy(Group({s}, {s}), g, s, r, c), LonePolicy(NO_RULE_SETS, g, s, r, c), LoneTable(g, s, c);
    var was := Group({s}, {s});
    assert Gained(was, NO_RULE_SETS) == {} && Gained(NO_RULE_SETS, was) == {s};
    assert Providers(p', s) == {} == Consumers(p', s);
    assert Mapped(t, t, p', {}, false) && Mapped(t, t, p', {s}, true);
    assert GroupOf(p, g) == was && p.groups[g := NO_RULE_SETS] == p'.groups;
  }

  /** A group alone on both sides of a rule set can drop it in one update, and still reaches itself afterwards. */
  lemma StrandedTraffic(g: string, s: string, r: string, c: string)
    ensures var a := State(LonePolicy(Group({s}, {s}), g, s, r, c), LoneTable(g, s, c));
            var b := State(LonePolicy(NO_RULE_SETS, g, s, r, c), LoneTable(g, s, c));
            && Inv(a) && Next(a, SetGroup(g, NO_RULE_SETS), b)
            && Permits(b.table, g, g, c) && !Allows(b.policy, g, g, c)
  {
    LoneCompiled(g, s, r, c);
    LoneUpdate(g, s, r, c);
    assert AppendDir(s, false) in LoneTable(g, s, c);
  }
}
