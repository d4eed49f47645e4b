/** The compiler from group policy to NSX communication maps, gbpservice/contrib/vmware/nsx_policy_mapping.py. */
module NsxPolicyMapping {
  import opened Collections

  // ----- The group policy store -----

  datatype Direction = In | Out | Bi

  datatype Group = Group(provided: set<string>, consumed: set<string>)

  datatype Policy = Policy(
    groups: map<string, Group>,
    ruleSets: map<string, set<string>>,  // the rules of each rule set
    rules: map<string, string>,           // the classifier of each rule
    classifiers: map<string, Direction>)
  {
    /** Every reference leads to an existing object. */
    ghost predicate Closed() {
      && (forall g :: g in groups ==> groups[g].provided + groups[g].consumed <= ruleSets.Keys)
      && (forall s :: s in ruleSets ==> ruleSets[s] <= rules.Keys)
      && (forall r :: r in rules ==> rules[r] in classifiers)
    }
  }

  function Providers(p: Policy, ruleSet: string): set<string> {
    set g | g in p.groups && ruleSet in p.groups[g].provided
  }

  function Consumers(p: Policy, ruleSet: string): set<string> {
    set g | g in p.groups && ruleSet in p.groups[g].consumed
  }

  predicate Carries(d: Direction, out: bool) {
    d == Bi || d == if out then Out else In
  }

  /** The classifiers of a rule set's rules that carry the given direction. */
  ghost function Services(p: Policy, ruleSet: string, out: bool): set<string> {
    set r | ruleSet in p.ruleSets && r in p.ruleSets[ruleSet] && r in p.rules
            && p.rules[r] in p.classifiers && Carries(p.classifiers[p.rules[r]], out) :: p.rules[r]
  }

  // ----- What the policy means -----

  /** Inbound traffic goes from a consumer to a provider, outbound traffic from a provider to a consumer. */
  ghost predicate Connects(p: Policy, ruleSet: string, out: bool, source: string, dest: string) {
    if out then source in Providers(p, ruleSet) && dest in Consumers(p, ruleSet)
    else source in Consumers(p, ruleSet) && dest in Providers(p, ruleSet)
  }

  /** A rule lets `service` through from `source` to `dest`: from a consumer to a provider of the rule set if the
      classifier is inbound, from a provider to a consumer if it is outbound, both ways if it is bidirectional. */
  ghost predicate RuleAllows(p: Policy, s: string, r: string, source: string, dest: string, service: string) {
    && s in p.ruleSets && r in p.ruleSets[s] && r in p.rules && p.rules[r] == service && service in p.classifiers
    && source in p.groups && dest in p.groups
    && match p.classifiers[service] {
         case In => s in p.groups[source].consumed && s in p.groups[dest].provided
         case Out => s in p.groups[source].provided && s in p.groups[dest].consumed
         case Bi => (s in p.groups[source].consumed && s in p.groups[dest].provided)
                    || (s in p.groups[source].provided && s in p.groups[dest].consumed)
       }
  }

  ghost predicate Allows(p: Policy, source: string, dest: string, service: string) {
    exists s, r :: RuleAllows(p, s, r, source, dest, service)
  }

  /** An inbound rule lets the consuming group reach the providing one, and not the other way round. */
  lemma OneWay(client: string, server: string, s: string, r: string, http: string, d: Direction)
    requires client != server
    ensures var groups := map[client := Group({}, {s}), server := Group({s}, {})];
            var p := Policy(groups, map[s := {r}], map[r := http], map[http := d]);
            && (Allows(p, client, server, http) <==> d != Out)
            && (Allows(p, server, client, http) <==> d != In)
  {
    var groups := map[client := Group({}, {s}), server := Group({s}, {})];
    var p := Policy(groups, map[s := {r}], map[r := http], map[http := d]);
    assert RuleAllows(p, s, r, client, server, http) <==> d != Out;
    assert RuleAllows(p, s, r, server, client, http) <==> d != In;
  }

  /** The meaning, rule set by rule set and direction by direction. */
  lemma AllowsByDirection(p: Policy, source: string, dest: string, service: string)
    ensures Allows(p, source, dest, service) <==>
            exists s, out :: s in p.ruleSets && service in Services(p, s, out) && Connects(p, s, out, source, dest)
  {
    if s, r :| RuleAllows(p, s, r, source, dest, service) {
      var inbound := s in p.groups[source].consumed && s in p.groups[dest].provided;
      var out := p.classifiers[service] == Out || !inbound;
      assert service in Services(p, s, out) && Connects(p, s, out, source, dest);
    }
    if s, out :| s in p.ruleSets && service in Services(p, s, out) && Connects(p, s, out, source, dest) {
      var r :| r in p.ruleSets[s] && r in p.rules && p.rules[r] == service
          && service in p.classifiers && Carries(p.classifiers[service], out);
      assert RuleAllows(p, s, r, source, dest, service);
    }
  }

  // ----- The backend -----

  datatype CommMap = CommMap(services: set<string>, sources: set<string>, dests: set<string>)

  type Table = map<string, CommMap>

  ghost predicate Permits(t: Table, source: string, dest: string, service: string) {
    exists k :: k in t && service in t[k].services && source in t[k].sources && dest in t[k].dests
  }

  function AppendDir(name: string, out: bool): string {
    name + if out then "_O" else "_I"
  }

  lemma KeysNeverCollide(a: string, b: string, out: bool, out': bool)
    requires AppendDir(a, out) == AppendDir(b, out')
    ensures a == b && out == out'
  {
    var x, y := AppendDir(a, out), AppendDir(b, out');
    assert x[|x| - 1] == y[|y| - 1];
    assert a == x[..|x| - 2] == y[..|y| - 2] == b;
  }

  function Lookup(t: Table, key: string): Option<CommMap> {
    if key in t then Some(t[key]) else None
  }

  /** create_or_overwrite, or delete if it exists. */
  function Put(t: Table, key: string, m: Option<CommMap>): (r: Table)
    ensures forall k :: Lookup(r, k) == if k == key then m else Lookup(t, k)
  {
    match m
    case Some(v) => t[key := v]
    case None => t - {key}
  }

  // ----- What the table should hold -----

  predicate BothSides(p: Policy, ruleSet: string) {
    Providers(p, ruleSet) != {} && Consumers(p, ruleSet) != {}
  }

  ghost function Want(p: Policy, ruleSet: string, out: bool): Option<CommMap> {
    if BothSides(p, ruleSet) && Services(p, ruleSet, out) != {} then
      if out then Some(CommMap(Services(p, ruleSet, out), Providers(p, ruleSet), Consumers(p, ruleSet)))
      else Some(CommMap(Services(p, ruleSet, out), Consumers(p, ruleSet), Providers(p, ruleSet)))
    else None
  }

  /** One rule set's two entries are the wanted ones. */
  ghost predicate Settled(t: Table, p: Policy, ruleSet: string) {
    forall out :: Lookup(t, AppendDir(ruleSet, out)) == Want(p, ruleSet, out)
  }

  /** The table is the compilation of the policy: all wanted entries and nothing else. */
  ghost predicate Compiled(t: Table, p: Policy) {
    && (forall s :: s in p.ruleSets ==> Settled(t, p, s))
    && (forall k :: k in t ==> exists s, out :: s in p.ruleSets && k == AppendDir(s, out))
  }

  lemma CompiledPermits(t: Table, p: Policy, source: string, dest: string, service: string)
    requires Compiled(t, p) && Permits(t, source, dest, service)
    ensures Allows(p, source, dest, service)
  {
    AllowsByDirection(p, source, dest, service);
    var k :| k in t && service in t[k].services && source in t[k].sources && dest in t[k].dests;
    var s, out :| s in p.ruleSets && k == AppendDir(s, out);
    assert Settled(t, p, s);
    assert Lookup(t, AppendDir(s, out)) == Want(p, s, out) == Some(t[k]);
    assert service in Services(p, s, out);
  }

  lemma CompiledAllows(t: Table, p: Policy, source: string, dest: string, service: string)
    requires Compiled(t, p) && Allows(p, source, dest, service)
    ensures Permits(t, source, dest, service)
  {
    AllowsByDirection(p, source, dest, service);
    var s, out :| s in p.ruleSets && service in Services(p, s, out) && Connects(p, s, out, source, dest);
    assert Settled(t, p, s);
    assert Lookup(t, AppendDir(s, out)) == Want(p, s, out);
    assert AppendDir(s, out) in t;
  }

  /** A compiled table permits exactly what the policy allows. */
  lemma CompiledIsFaithful(t: Table, p: Policy, source: string, dest: string, service: string)
    requires Compiled(t, p)
    ensures Permits(t, source, dest, service) <==> Allows(p, source, dest, service)
  {
    if Permits(t, source, dest, service) {
      CompiledPermits(t, p, source, dest, service);
    }
    if Allows(p, source, dest, service) {
      CompiledAllows(t, p, source, dest, service);
    }
  }

  /** The two entries of a rule set, written out: the inbound one goes from all consumers to all providers, the
      outbound one the other way round, and there is none without a group on both sides and a rule that carries the
      direction. */
  lemma CompiledEntries(t: Table, p: Policy, s: string)
    requires Compiled(t, p) && p.Closed() && s in p.ruleSets
    ensures var providers := set g | g in p.groups && s in p.groups[g].provided;
            var consumers := set g | g in p.groups && s in p.groups[g].consumed;
            var servicesIn := set r | r in p.ruleSets[s] && p.classifiers[p.rules[r]] in {In, Bi} :: p.rules[r];
            var servicesOut := set r | r in p.ruleSets[s] && p.classifiers[p.rules[r]] in {Out, Bi} :: p.rules[r];
            && Lookup(t, s + "_I") == (if providers == {} || consumers == {} || servicesIn == {} then None
                                       else Some(CommMap(servicesIn, consumers, providers)))
            && Lookup(t, s + "_O") == (if providers == {} || consumers == {} || servicesOut == {} then None
                                       else Some(CommMap(servicesOut, providers, consumers)))
  {
    assert Settled(t, p, s);
    assert Lookup(t, AppendDir(s, false)) == Want(p, s, false) && Lookup(t, AppendDir(s, true)) == Want(p, s, true);
    assert Services(p, s, false) == set r | r in p.ruleSets[s] && p.classifiers[p.rules[r]] in {In, Bi} :: p.rules[r];
    assert Services(p, s, true) == set r | r in p.ruleSets[s] && p.classifiers[p.rules[r]] in {Out, Bi} :: p.rules[r];
  }

  // ----- What mapping some rule sets does to the table -----

  /** The entry of a rule set after _map_rule_set. */
  ghost function Effect(t: Table, p: Policy, ruleSet: string, out: bool, deleteFlow: bool): Option<CommMap> {
    if BothSides(p, ruleSet) then Want(p, ruleSet, out)
    else if deleteFlow && (Providers(p, ruleSet) != {} || Consumers(p, ruleSet) != {}) then None
    else Lookup(t, AppendDir(ruleSet, out))
  }

  /** `t'` is `t` after _map_rule_set was called for the rule sets in `ss`, in any order. */
  ghost predicate Mapped(t: Table, t': Table, p: Policy, ss: set<string>, deleteFlow: bool) {
    && (forall s, out :: s in ss ==> Lookup(t', AppendDir(s, out)) == Effect(t, p, s, out, deleteFlow))
    && (forall k :: (forall s, out :: s in ss ==> k != AppendDir(s, out)) ==> Lookup(t', k) == Lookup(t, k))
  }

  /** The rules that carry the direction, in the order of the list. */
  function Carrying(p: Policy, rules: seq<string>, out: bool): (carrying: seq<string>)
    requires forall r :: r in rules ==> r in p.rules && p.rules[r] in p.classifiers
    ensures forall r :: r in carrying <==> r in rules && Carries(p.classifiers[p.rules[r]], out)
  {
    if rules == [] then []
    else
      var front, last := rules[..|rules| - 1], rules[|rules| - 1];
      assert rules == front + [last];
      Carrying(p, front, out) + if Carries(p.classifiers[p.rules[last]], out) then [last] else []
  }

  // ----- The driver -----

  /** The policy manager of one project's domain, and the driver's calls on it. */
  class NsxPolicyDriver {
    var commMaps: Table

    constructor ()
      ensures commMaps == map[]
    {
      commMaps := map[];
    }

    /** _split_rules_by_direction */
    method SplitRulesByDirection(p: Policy, rules: seq<string>) returns (inRules: seq<string>, outRules: seq<string>)
      requires forall r :: r in rules ==> r in p.rules && p.rules[r] in p.classifiers
      ensures inRules == Carrying(p, rules, false) && outRules == Carrying(p, rules, true)
      ensures forall r :: r in inRules <==> r in rules && Carries(p.classifiers[p.rules[r]], false)
      ensures forall r :: r in outRules <==> r in rules && Carries(p.classifiers[p.rules[r]], true)
    {
      inRules, outRules := [], [];
      for i := 0 to |rules|
        invariant inRules == Carrying(p, rules[..i], false) && outRules == Carrying(p, rules[..i], true)
      {
        var direction := p.classifiers[p.rules[rules[i]]];
        assert rules[..i + 1][..i] == rules[..i] && rules[..i + 1][i] == rules[i];
        if direction in {Bi, In} {
          inRules := inRules + [rules[i]];
        }
        if direction in {Bi, Out} {
          outRules := outRules + [rules[i]];
        }
      }
      assert rules[..|rules|] == rules;
    }

    /** _get_services_from_rule_set; `rules` lists the rules of the rule set, in any order. */
    method GetServicesFromRuleSet(p: Policy, ruleSet: string, rules: seq<string>)
      returns (servicesIn: set<string>, servicesOut: set<string>)
      requires p.Closed() && ruleSet in p.ruleSets
      requires forall r :: r in rules <==> r in p.ruleSets[ruleSet]
      ensures servicesIn == Services(p, ruleSet, false) && servicesOut == Services(p, ruleSet, true)
    {
      var inRules, outRules := SplitRulesByDirection(p, rules);
      servicesIn := ServicesOf(p, inRules);
      servicesOut := ServicesOf(p, outRules);
    }

    method ServicesOf(p: Policy, rules: seq<string>) returns (services: set<string>)
      requires forall r :: r in rules ==> r in p.rules
      ensures services == set r | r in rules :: p.rules[r]
    {
      services := {};
      for i := 0 to |rules|
        invariant services == set r | r in rules[..i] :: p.rules[r]
      {
        assert rules[..i + 1] == rules[..i] + [rules[i]];
        services := services + {p.rules[rules[i]]};
      }
      assert rules[..|rules|] == rules;
    }

    /** The rules of a rule set, as the database lists them: in no particular order. */
    method ListRules(p: Policy, ruleSet: string) returns (rules: seq<string>)
      requires ruleSet in p.ruleSets
      ensures forall r :: r in rules <==> r in p.ruleSets[ruleSet]
    {
      rules := [];
      var left := p.ruleSets[ruleSet];
      while left != {}
        invariant forall r :: r in p.ruleSets[ruleSet] <==> r in rules || r in left
        decreases left
      {
        var r :| r in left;
        rules, left := rules + [r], left - {r};
      }
    }

    method CreateOrOverwrite(key: string, m: CommMap)
      modifies this
      ensures commMaps == Put(old(commMaps), key, Some(m))
    {
      commMaps := commMaps[key := m];
    }

    /** delete_map_if_exists: the manager's error for a missing map is swallowed. */
    method DeleteMapIfExists(key: string)
      modifies this
      ensures commMaps == Put(old(commMaps), key, None)
    {
      if key in commMaps {
        commMaps := commMaps - {key};
      }
    }

    /** _map_rule_set */
    method MapRuleSet(p: Policy, ruleSet: string, deleteFlow: bool)
      requires p.Closed() && ruleSet in p.ruleSets
      modifies this
      ensures Mapped(old(commMaps), commMaps, p, {ruleSet}, deleteFlow)
    {
      var providing, consuming := Providers(p, ruleSet), Consumers(p, ruleSet);
      var rulesetIn, rulesetOut := AppendDir(ruleSet, false), AppendDir(ruleSet, true);
      assert rulesetIn != rulesetOut by {
        if rulesetIn == rulesetOut {
          KeysNeverCollide(ruleSet, ruleSet, false, true);
        }
      }
      if consuming == {} || providing == {} {
        if !deleteFlow {
          return;
        }
        if consuming == {} && providing == {} {
          return;
        }
        DeleteMapIfExists(rulesetIn);
        DeleteMapIfExists(rulesetOut);
        return;
      }
      var rules := ListRules(p, ruleSet);
      var servicesIn, servicesOut := GetServicesFromRuleSet(p, ruleSet, rules);
      if servicesIn != {} {
        CreateOrOverwrite(rulesetIn, CommMap(servicesIn, consuming, providing));
      } else {
        DeleteMapIfExists(rulesetIn);
      }
      if servicesOut != {} {
        CreateOrOverwrite(rulesetOut, CommMap(servicesOut, providing, consuming));
      } else {
        DeleteMapIfExists(rulesetOut);
      }
    }

    /** The loops of _map_group_rule_sets and update_policy_rule_postcommit. */
    method MapRuleSets(p: Policy, ruleSets: seq<string>, deleteFlow: bool)
      requires p.Closed() && forall s :: s in ruleSets ==> s in p.ruleSets
      modifies this
      ensures Mapped(old(commMaps), commMaps, p, Names(ruleSets), deleteFlow)
    {
      for i := 0 to |ruleSets|
        invariant Mapped(old(commMaps), commMaps, p, Names(ruleSets[..i]), deleteFlow)
      {
        ghost var t := commMaps;
        MapRuleSet(p, ruleSets[i], deleteFlow);
        MappedOneMore(old(commMaps), t, commMaps, p, Names(ruleSets[..i]), ruleSets[i], deleteFlow);
        assert Names(ruleSets[..i + 1]) == Names(ruleSets[..i]) + {ruleSets[i]};
      }
      assert ruleSets[..|ruleSets|] == ruleSets;
    }

    /** _map_group_rule_sets */
    method MapGroupRuleSets(p: Policy, provided: seq<string>, consumed: seq<string>, deleteFlow: bool)
      requires p.Closed() && forall s :: s in provided + consumed ==> s in p.ruleSets
      modifies this
      ensures Mapped(old(commMaps), commMaps, p, Names(provided + consumed), deleteFlow)
    {
      MapRuleSets(p, provided, deleteFlow);
      ghost var t := commMaps;
      MapRuleSets(p, consumed, deleteFlow);
      MappedTwice(old(commMaps), t, commMaps, p, Names(provided), Names(consumed), deleteFlow);
      assert Names(provided + consumed) == Names(provided) + Names(consumed);
    }

    /** The rule-set part of update_policy_target_group_postcommit (a new group counts as updated from nothing).
        The four lists are the set differences of the group's rule sets before and after, in any order. */
    method UpdateGroupPostcommit(p: Policy, was: Group, now: Group,
        newProvided: seq<string>, newConsumed: seq<string>, removedProvided: seq<string>, removedConsumed: seq<string>)
      requires p.Closed() && was.provided + was.consumed + now.provided + now.consumed <= p.ruleSets.Keys
      requires Names(newProvided) == now.provided - was.provided
      requires Names(newConsumed) == now.consumed - was.consumed
      requires Names(removedProvided) == was.provided - now.provided
      requires Names(removedConsumed) == was.consumed - now.consumed
      modifies this
      ensures GroupMapped(old(commMaps), commMaps, p, was, now)
    {
      if newProvided != [] || newConsumed != [] {
        assert forall s :: s in newProvided + newConsumed ==> s in Gained(was, now);
        MapGroupRuleSets(p, newProvided, newConsumed, false);
      }
      assert Names(newProvided + newConsumed) == Gained(was, now);
      ghost var mid := commMaps;
      assert Mapped(old(commMaps), mid, p, Gained(was, now), false);
      if removedProvided != [] || removedConsumed != [] {
        assert forall s :: s in removedProvided + removedConsumed ==> s in Gained(now, was);
        MapGroupRuleSets(p, removedProvided, removedConsumed, true);
      }
      assert Names(removedProvided + removedConsumed) == Gained(now, was);
      assert Mapped(mid, commMaps, p, Gained(now, was), true);
    }

    /** update_policy_rule_set_postcommit: the two rule lists are compared as lists. */
    method UpdateRuleSetPostcommit(p: Policy, ruleSet: string, was: seq<string>, now: seq<string>)
      requires p.Closed() && ruleSet in p.ruleSets && Names(now) == p.ruleSets[ruleSet]
      modifies this
      ensures Mapped(old(commMaps), commMaps, p, if now != was then {ruleSet} else {}, false)
    {
      if now != was {
        MapRuleSet(p, ruleSet, false);
      }
    }

    /** update_policy_rule_postcommit; `users` lists the rule sets with the rule. */
    method UpdateRulePostcommit(p: Policy, rule: string, was: string, users: seq<string>)
      requires p.Closed() && rule in p.rules
      requires Names(users) == Users(p, rule)
      modifies this
      ensures Mapped(old(commMaps), commMaps, p, if p.rules[rule] != was then Users(p, rule) else {}, false)
    {
      if p.rules[rule] != was {
        assert forall s :: s in users ==> s in Users(p, rule);
        MapRuleSets(p, users, false);
      }
    }
  }

  function Users(p: Policy, rule: string): set<string> {
    set s | s in p.ruleSets && rule in p.ruleSets[s]
  }

  /** The rule sets a group provides or consumes after an update but did not before. */
  function Gained(was: Group, now: Group): set<string> {
    (now.provided - was.provided) + (now.consumed - was.consumed)
  }

  /** First the gained rule sets are mapped, then the lost ones with the delete flow. */
  ghost predicate GroupMapped(t: Table, t': Table, p: Policy, was: Group, now: Group) {
    exists mid :: Mapped(t, mid, p, Gained(was, now), false) && Mapped(mid, t', p, Gained(now, was), true)
  }

  /** Mapping one rule set, branch by branch: with a side missing nothing happens, unless the delete flow finds the
      other side in use and removes both entries; otherwise the entries are the wanted ones. No other entry changes. */
  lemma MappedOne(t: Table, t': Table, p: Policy, s: string, deleteFlow: bool)
    requires Mapped(t, t', p, {s}, deleteFlow)
    ensures forall k :: k != s + "_I" && k != s + "_O" ==> Lookup(t', k) == Lookup(t, k)
    ensures var provided := exists g :: g in p.groups && s in p.groups[g].provided;
            var consumed := exists g :: g in p.groups && s in p.groups[g].consumed;
            && (!provided && !consumed ==> t' == t)
            && (!(provided && consumed) && !deleteFlow ==> t' == t)
            && (provided != consumed && deleteFlow ==> s + "_I" !in t' && s + "_O" !in t')
            && (provided && consumed ==> Settled(t', p, s))
  {
    assert AppendDir(s, false) == s + "_I" && AppendDir(s, true) == s + "_O";
    assert Providers(p, s) != {} <==> exists g :: g in p.groups && s in p.groups[g].provided by {
      assert forall g :: g in Providers(p, s) <==> g in p.groups && s in p.groups[g].provided;
    }
    assert Consumers(p, s) != {} <==> exists g :: g in p.groups && s in p.groups[g].consumed by {
      assert forall g :: g in Consumers(p, s) <==> g in p.groups && s in p.groups[g].consumed;
    }
    if forall k :: Lookup(t', k) == Lookup(t, k) {
      SameLookups(t, t');
    }
  }

  lemma SameLookups(t: Table, t': Table)
    requires forall k :: Lookup(t', k) == Lookup(t, k)
    ensures t' == t
  {
    forall k ensures k in t' <==> k in t {
      assert Lookup(t', k) == Lookup(t, k);
    }
    forall k | k in t ensures t'[k] == t[k] {
      assert Lookup(t', k) == Lookup(t, k);
    }
  }

  lemma NotItsKey(ss: set<string>, s: string, out: bool)
    requires s !in ss
    ensures forall s', out' :: s' in ss ==> AppendDir(s, out) != AppendDir(s', out')
  {
    forall s', out' | s' in ss ensures AppendDir(s, out) != AppendDir(s', out') {
      if AppendDir(s, out) == AppendDir(s', out') {
        KeysNeverCollide(s, s', out, out');
      }
    }
  }

  lemma MappedElsewhere(t: Table, t': Table, p: Policy, ss: set<string>, deleteFlow: bool, s: string, out: bool)
    requires Mapped(t, t', p, ss, deleteFlow) && s !in ss
    ensures Lookup(t', AppendDir(s, out)) == Lookup(t, AppendDir(s, out))
  {
    NotItsKey(ss, s, out);
  }

  lemma MappedTwice(t: Table, mid: Table, t': Table, p: Policy, ss: set<string>, ss': set<string>, deleteFlow: bool)
    requires Mapped(t, mid, p, ss, deleteFlow) && Mapped(mid, t', p, ss', deleteFlow)
    ensures Mapped(t, t', p, ss + ss', deleteFlow)
  {
    forall s, out | s in ss + ss' ensures Lookup(t', AppendDir(s, out)) == Effect(t, p, s, out, deleteFlow) {
      if s !in ss' {
        MappedElsewhere(mid, t', p, ss', deleteFlow, s, out);
      }
      if s !in ss {
        MappedElsewhere(t, mid, p, ss, deleteFlow, s, out);
      }
    }
    forall k | forall s, out :: s in ss + ss' ==> k != AppendDir(s, out) ensures Lookup(t', k) == Lookup(t, k) {
      assert forall s, out :: s in ss ==> k != AppendDir(s, out);
      assert forall s, out :: s in ss' ==> k != AppendDir(s, out);
    }
  }

  lemma MappedOneMore(t: Table, mid: Table, t': Table, p: Policy, ss: set<string>, s: string, deleteFlow: bool)
    requires Mapped(t, mid, p, ss, deleteFlow) && Mapped(mid, t', p, {s}, deleteFlow)
    ensures Mapped(t, t', p, ss + {s}, deleteFlow)
  {
    MappedTwice(t, mid, t', p, ss, {s}, deleteFlow);
  }
}
