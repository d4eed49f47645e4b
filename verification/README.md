# Group-based policy: a verified model

A Dafny model of the parts of group-based-policy in which the correctness of the service depends on several functions
or on whole runs, with proofs of what they promise. Tables are maps and sets, a committed transaction is one atomic
step, and a raised exception is a rejected step that changes nothing. Where the source changes state the model is a
class whose methods are proved against specification functions and predicates; the run theorems are about those. What
each specification means is stated once more in terms of the request and the stored fields alone, in lemmas named
`...Exactly`, `...Stores` and the like; the three `...Calls` modules hold nothing else.

| files | part of the repository |
|---|---|
| Text, Sorting, Json, CanonicalForm, NestedEquality, DeepSortHeap | comparison of nested data up to list order, and its effect on the caller's objects |
| ExtendResources | the worklist that orders API extensions by their dependencies |
| NsxPolicyMapping, NsxPolicyRuns | the compiler from group policy to NSX communication maps |
| Resources, ResourceRuns, ResourceCalls | sharing, references and deletion guards over all resource types |
| RuleSetHierarchy, RuleSetColumns | the two linked columns of the rule set hierarchy, and how they follow from the resources |
| ImplicitPolicy, ImplicitPolicyRuns, ImplicitPolicyCalls | implicit L2 and L3 policies and their ownership |
| Cidr, ExternalRoutes, ExternalRouteRuns, ExternalRouteCalls | external segments, routes and L3 policies as address sets |
| ExternalAddresses | addresses allocated to L3 policies on segments |
| PortRange, IpPool, AllowedVlans | text codecs, validators and the expansions they feed |
| Collections | definitions the other modules share |
| DriverManager | dispatch to the policy drivers and the create protocol |

Results that turned out to hold under a condition only, each with a proof that the condition is exact and an input that
shows the failure:

- `is_equal` decides equality up to list order over exactly those alphabets of leaves that do not hold True with 1, or
  False with 0 (`NestedEquality.IsEqualExact`); otherwise one direction survives on every input, and the other up to
  reading True as 1 (`IsEqualComplete`, `IsEqualSound`).
- The NSX table keeps its meaning exactly if no group update empties both sides of a rule set that has entries
  (`NsxPolicyRuns.StepCompiles`). The run theorems need that condition on each step and nothing else, and one direction
  needs none: the backend never blocks what the policy allows (`NsxPolicyRuns.RunNeverBlocks`).
- A call that links an L3 policy to segments can leave identical routes exactly if two of the segments it names route a
  common network and another one shares none with the rest (`ExternalRouteRuns.SlipsInSomeOrder`); with two segments this
  cannot happen.
- A shared rule set keeps a shared parent unless the parent is written unshared (`ResourceRuns.StepSharedParents`).
- Every L2 policy keeps an L3 policy unless a shared one gives its up while its tenant has a default one that is not
  shared; the setter's sharing check then leaves it without (`ImplicitPolicyRuns.QuietExactly`).
- A tenant keeps a single default L3 policy unless one is renamed to the default name
  (`ImplicitPolicyRuns.StepOneDefault`).
- Allowed VLANs stay within 1 to 4093 unless the validated list holds None (`AllowedVlans.ValidatedBounds`), and
  validated input is converted unless a range is None or None is listed beside something else
  (`AllowedVlans.ValidatedConverts`).

The docstring of `_call_on_drivers` promises a driver error whenever a driver fails;
the code raises it only for exceptions it does not know and lets the others through, and the model follows the code.

## Model

| member | source | states |
|---|---|---|
| `Json.DumpsUnique` | gbpservice/common/utils.py:97-99 | The JSON text of a value followed by a delimiter can be read back in one way only. |
| `Json.DumpsInjective` | gbpservice/common/utils.py:97-99 | The sort key of list elements tells any two values apart, so equal keys mean equal elements. |
| `Json.QuoteUnique` | gbpservice/common/utils.py:97-99 | Quoted and escaped strings, surrogate pairs included, can be read back in one way only. |
| `Json.ListIsJoined` | gbpservice/common/utils.py:97-99 | A list is written as its items' texts joined by a comma and a space, in brackets. |
| `Json.DictIsJoined` | gbpservice/common/utils.py:97-99 | A dict is written as its entries, key and value around a colon and a space, joined likewise, in braces. |
| `Json.LeafTexts` | gbpservice/common/utils.py:97-99 | None, booleans and numbers are written null, true, false and as decimal numerals with a minus sign if negative. |
| `Json.CharTexts` | gbpservice/common/utils.py:97-99 | Printable ASCII stands for itself but for the quote and the backslash; the short escapes (section 7 of RFC 8259). |
| `Json.NumberTexts` | gbpservice/common/utils.py:97-99 | Every other character is written by its number, in two parts beyond the basic plane. |
| `Text.LexLeqMeans` | gbpservice/common/utils.py:88 | The order of texts: a prefix comes first, otherwise the first different character decides. |
| `Sorting.SortedUnique` | gbpservice/common/utils.py:88-99 | With a key that tells elements apart there is one sorted order, whatever the sorting algorithm. |
| `CanonicalForm.CanonDecidesPermEq` | gbpservice/common/utils.py:86-102 | For all values: two canonical forms are equal exactly when the values are equal up to permuting lists at every depth. |
| `CanonicalForm.CanonIdempotent` | gbpservice/common/utils.py:86-102 | Sorting a canonical form changes nothing. |
| `CanonicalForm.CanonWellFormed` | gbpservice/common/utils.py:86-102 | Canonical forms keep the keys of every dict distinct. |
| `CanonicalForm.CanonOfList` | gbpservice/common/utils.py:93-99 | A list is its own canonical form of another exactly if it holds the canonical items of that, each once, and their texts ascend, a prefix coming first. |
| `CanonicalForm.CanonOfDict` | gbpservice/common/utils.py:87-91 | The same for dicts, whose keys ascend. |
| `CanonicalForm.InPlaceMeans` | gbpservice/common/utils.py:87-96 | The writes keep a list's length and order and a dict's keys, and put canonical forms in the place of list items. |
| `CanonicalForm.CanonOfInPlace` | gbpservice/common/utils.py:93-96 | What the in-place writes leave in the argument has the canonical form of the argument. |
| `CanonicalForm.InPlaceIsPermEq` | gbpservice/common/utils.py:93-96 | The in-place writes leave the argument equal to what it was up to permuting lists. |
| `NestedEquality.IsEqualComplete` | gbpservice/common/utils.py:105-108 | On every input: values equal up to permuting lists are never told apart. |
| `NestedEquality.IsEqualExact` | gbpservice/common/utils.py:105-108 | Over an alphabet of leaves, the answer is equality up to permuting lists for all values exactly if the alphabet does not hold True with 1, or False with 0. |
| `NestedEquality.IsEqualDecidesPermEq` | gbpservice/common/utils.py:105-108 | For two arguments whose leaves do not mix in this way, the answer is exactly equality up to permuting lists. |
| `NestedEquality.IsEqualSound` | gbpservice/common/utils.py:105-108 | On every input: values found equal differ in nothing but list order and True for 1, False for 0. |
| `NestedEquality.IsEqualStable` | gbpservice/common/utils.py:105-108 | Asking again about the values the first call leaves behind gives the same answer. |
| `NestedEquality.MixedLeavesUnsound` | gbpservice/common/utils.py:105-108 | With True and 1 mixed, different values are found equal. |
| `NestedEquality.MixedLeavesIncomplete` | gbpservice/common/utils.py:105-108 | With True and 1 mixed, lists of equal elements are told apart because their texts sort differently. |
| `NestedEquality.OneBeforeTen` | gbpservice/common/utils.py:97-99 | [10, 1] is sorted to [1, 10]. |
| `DeepSortHeap.DeepSort` | gbpservice/common/utils.py:86-102 | On objects: the result holds the canonical form of the argument, in new objects; the argument holds a value of the same canonical form; nothing else changes. |
| `DeepSortHeap.DeepSortList` | gbpservice/common/utils.py:93-99 | The list branch: items are replaced in the caller's list, and a new sorted list is returned. |
| `DeepSortHeap.DeepSortDict` | gbpservice/common/utils.py:87-91 | The dict branch: a new dict in key order, whose values are sorted; the caller's dict keeps its items. |
| `DeepSortHeap.SortItems` | gbpservice/common/utils.py:94-96 | The loop replaces exactly the list and dict items by sorted copies, in place. |
| `DeepSortHeap.SortVals` | gbpservice/common/utils.py:89-91 | The loop replaces the values of the new dict, leaving what their sorting leaves in the caller's values. |
| `DeepSortHeap.Compare` | gbpservice/common/utils.py:105-108 | The answer is the one for the two values held before, and the arguments keep their canonical forms. |
| `DeepSortHeap.CompareTwice` | gbpservice/common/utils.py:105-108 | Two calls on the same objects give the same answer. |
| `ExtendResources.ExtendResources` | gbpservice/neutron/extensions/patch.py:126-154 | For every dictionary order: the processed extensions are the least set closed under required dependencies, each after all it requires; with the unprocessed ones they are the input; a first phase processes the least set closed under required and optional dependencies in order of both; definitions are merged in processing order. |
| `ExtendResources.Pass` | gbpservice/neutron/extensions/patch.py:133-154 | One pass over a snapshot processes extensions whose needs are processed, and removes just those. |
| `ExtendResources.ProcessedSetDetermined` | gbpservice/neutron/extensions/patch.py:126-164 | The processed set depends on the required dependencies alone, not on dictionary order or optional dependencies. |
| `ExtendResources.UnprocessedIffBlocked` | gbpservice/neutron/extensions/patch.py:126-172 | An extension stays unprocessed exactly if it lies in a set whose members each require something missing or in the set. |
| `ExtendResources.LeftOutIffHeld` | gbpservice/neutron/extensions/patch.py:126-164 | The first phase leaves an extension out exactly if it lies in a set whose members each have a required or optional dependency missing or in the set. |
| `ExtendResources.InOrderExactly` | gbpservice/neutron/extensions/patch.py:133-147 | In order means that each extension comes after everything it requires, and after its optional dependencies where these are honoured. |
| `ExtendResources.AllOptionalsInOrder` | gbpservice/neutron/extensions/patch.py:128-164 | If the first phase reaches every extension, each comes after all its optional dependencies too. |
| `ExtendResources.LastWriterWins` | gbpservice/neutron/extensions/patch.py:144-152 | The definition in force is the one of the last processed extension that gives one. |
| `ExtendResources.UntouchedDefinition` | gbpservice/neutron/extensions/patch.py:144-152 | A definition no processed extension gives stays as it was. |
| `ExtendResources.ResourcesMerged` | gbpservice/neutron/extensions/patch.py:144-152 | A resource has definitions exactly if it had or a processed extension names it. |
| `ExtendResources.DependentOverrides` | gbpservice/neutron/extensions/patch.py:136-152 | An extension that requires all other contributors of a definition overrides them in every order. |
| `NsxPolicyMapping.KeysNeverCollide` | gbpservice/contrib/vmware/nsx_policy_mapping.py:90-95 | Keys of rule sets and directions with the suffixes `_I` and `_O` are equal only for the same rule set and direction. |
| `NsxPolicyMapping.CompiledIsFaithful` | gbpservice/contrib/vmware/nsx_policy_mapping.py:269-321 | A compiled table permits (source, destination, service) exactly if some rule of some rule set allows it, as its classifier's direction and the two groups' rule sets say. |
| `NsxPolicyMapping.OneWay` | gbpservice/contrib/vmware/nsx_policy_mapping.py:224-242 | Between a consuming and a providing group, an in rule allows traffic to the provider alone, an out rule to the consumer alone, a bi rule both ways. |
| `NsxPolicyMapping.CompiledEntries` | gbpservice/contrib/vmware/nsx_policy_mapping.py:224-321 | The entry under the suffix `_I` goes from all consumers to all providers with the services of in and bi rules, the one under `_O` the other way with those of out and bi rules; neither exists without groups on both sides and a service. |
| `NsxPolicyMapping.MappedOne` | gbpservice/contrib/vmware/nsx_policy_mapping.py:284-321 | Mapping a rule set with a side missing changes nothing, unless the delete flow finds the other side in use and removes both entries; no other entry changes. |
| `NsxPolicyMapping.NsxPolicyDriver.SplitRulesByDirection` | gbpservice/contrib/vmware/nsx_policy_mapping.py:224-242 | The in list has exactly the rules with an in or bi classifier, the out list those with out or bi, in order. |
| `NsxPolicyMapping.NsxPolicyDriver.GetServicesFromRuleSet` | gbpservice/contrib/vmware/nsx_policy_mapping.py:244-260 | The services of each direction are the classifiers of the rules that carry it. |
| `NsxPolicyMapping.NsxPolicyDriver.MapRuleSet` | gbpservice/contrib/vmware/nsx_policy_mapping.py:269-321 | The two entries of the rule set become the wanted ones, are deleted, or stay, by branch; no other entry changes. |
| `NsxPolicyMapping.NsxPolicyDriver.MapRuleSets` | gbpservice/contrib/vmware/nsx_policy_mapping.py:333-339 | Mapping a list of rule sets has each effect once, in any order and with repetitions. |
| `NsxPolicyMapping.NsxPolicyDriver.MapGroupRuleSets` | gbpservice/contrib/vmware/nsx_policy_mapping.py:323-339 | The provided and the consumed rule sets are mapped. |
| `NsxPolicyMapping.NsxPolicyDriver.UpdateGroupPostcommit` | gbpservice/neutron/services/grouppolicy/drivers/resource_mapping.py:1909-1945 | A group update maps the gained rule sets, then the lost ones with the delete flow. |
| `NsxPolicyMapping.NsxPolicyDriver.UpdateRuleSetPostcommit` | gbpservice/contrib/vmware/nsx_policy_mapping.py:524-548 | A rule set is mapped again if its list of rules has changed. |
| `NsxPolicyMapping.NsxPolicyDriver.UpdateRulePostcommit` | gbpservice/contrib/vmware/nsx_policy_mapping.py:550-560 | All rule sets with the rule are mapped again if its classifier has changed. |
| `NsxPolicyMapping.MappedTwice` | gbpservice/contrib/vmware/nsx_policy_mapping.py:333-339 | Mapping some rule sets and then others is mapping all of them. |
| `NsxPolicyRuns.GroupUpdateSettles` | gbpservice/contrib/vmware/nsx_policy_mapping.py:284-294 | After a group update the entries of a rule set are the wanted ones exactly unless the update emptied both its sides. |
| `NsxPolicyRuns.AcceptedExactly` | gbpservice/neutron/db/grouppolicy/group_policy_db.py:1753-1769 | The calls of a run are exactly those whose object exists or is new, and that leave no reference to something missing. |
| `NsxPolicyRuns.LastCallInForce` | gbpservice/neutron/db/grouppolicy/group_policy_db.py:1195-1203 | At every point of a run the store holds what the last call about each group, rule set, rule and classifier asked for. |
| `NsxPolicyRuns.StepCompiles` | gbpservice/contrib/vmware/nsx_policy_mapping.py:269-339 | An accepted call keeps the table compiled exactly if it is not a group update that empties both sides of a rule set with entries. |
| `NsxPolicyRuns.RunCompiles` | gbpservice/contrib/vmware/nsx_policy_mapping.py:269-339 | Over every run without such an update the table stays the compilation of the policy. |
| `NsxPolicyRuns.RunIsFaithful` | gbpservice/contrib/vmware/nsx_policy_mapping.py:269-339 | After every such run the backend permits exactly what the policy allows. |
| `NsxPolicyRuns.StepServes` | gbpservice/contrib/vmware/nsx_policy_mapping.py:284-321 | Every accepted call, stranding or not, keeps the entries of all rule sets with both sides up to date. |
| `NsxPolicyRuns.RunNeverBlocks` | gbpservice/contrib/vmware/nsx_policy_mapping.py:269-339 | On every run the backend permits whatever the policy allows; leftovers can only permit more. |
| `NsxPolicyRuns.StrandedTraffic` | gbpservice/contrib/vmware/nsx_policy_mapping.py:287-288 | From a compiled table, a group alone on both sides of a rule set can drop it in one accepted call; the early return leaves the entries, and the backend permits what the policy does not allow. |
| `Resources.GroupPolicyPlugin.ValidateSharedCreate` | gbpservice/neutron/services/grouppolicy/plugin.py:126-149 | Accepts exactly if every link along the usage graph leads to a visible resource of the right kind that is shared, or the referrer is not shared and of the same tenant or the caller an admin. |
| `Resources.GroupPolicyPlugin.ValidateUnshare` | gbpservice/neutron/services/grouppolicy/plugin.py:163-227 | Accepts exactly if every referring resource the unshare methods look at is unshared and of the same tenant. |
| `Resources.GroupPolicyPlugin.Create` | gbpservice/neutron/services/grouppolicy/plugin.py:1397-1412 | A create either stores the resource with its children adopted, or changes nothing. |
| `Resources.GroupPolicyPlugin.Update` | gbpservice/neutron/services/grouppolicy/plugin.py:150-161 | An update either stores the new links and sharing, or changes nothing. |
| `Resources.GroupPolicyPlugin.Delete` | gbpservice/neutron/services/grouppolicy/plugin.py:1556-1566 | A delete removes the resource and detaches a rule set's children, or changes nothing. |
| `Resources.GroupPolicyPlugin.DeleteGroup` | gbpservice/neutron/services/grouppolicy/plugin.py:652-685 | A group gives up its rule sets, which must pass the update's checks, then goes with the targets its caller can see; other targets stay without a group. |
| `ResourceRuns.UnshareChecksInvertGraph` | gbpservice/neutron/services/grouppolicy/plugin.py:97-227 | The unshare checks are the inverse of the usage graph without the parent link. |
| `ResourceCalls.UsageEdges` | gbpservice/neutron/services/grouppolicy/plugin.py:97-124 | The reference graph has these fifteen edges, and each attribute leads to one kind. |
| `ResourceCalls.CreateAcceptedExactly` | gbpservice/neutron/services/grouppolicy/plugin.py:126-149 | A create is accepted exactly if it is for the caller's tenant or by an admin, its children exist, are visible and childless, and each link leads to a visible resource of the right kind that is shared if the referrer is, and the referrer's tenant's if it is not shared and the caller no admin. |
| `ResourceCalls.UpdateAcceptedExactly` | gbpservice/neutron/services/grouppolicy/plugin.py:150-227 | An update is accepted exactly if the caller sees the resource, the requested links and children may be used, and a change of sharing finds all its users unshared and of its tenant. |
| `ResourceCalls.CreateStores` | gbpservice/neutron/services/grouppolicy/plugin.py:1397-1412 | An accepted create stores the requested links and sharing, adopts exactly the requested children, and changes nothing else. |
| `ResourceCalls.UpdateStores` | gbpservice/neutron/db/grouppolicy/group_policy_db.py:1195-1203 | An accepted update stores the requested links and sharing and, for a rule set, exactly the requested children; kind, tenant and own parent stay, and nothing else changes. |
| `ResourceCalls.DeleteAcceptedExactly` | gbpservice/neutron/db/grouppolicy/group_policy_db.py:1753-1769 | A delete is accepted exactly if the caller sees the resource and nothing refers to it but targets of a group and children of a rule set; what remains of a group's links is checked again. |
| `ResourceCalls.DeleteLeaves` | gbpservice/neutron/services/grouppolicy/plugin.py:652-685 | The targets of a group that the caller sees go with it and nothing else goes; what remains loses its links to the deleted resource and nothing else. |
| `ResourceRuns.DeleteGuardsCoverGraph` | gbpservice/neutron/db/grouppolicy/group_policy_db.py:1415-1420 | Each delete guard covers every link into the kind; a group takes its targets along, children lose their parent. |
| `ResourceRuns.DeleteNoDangling` | gbpservice/neutron/db/grouppolicy/group_policy_db.py:1753-1769 | No accepted delete leaves a dangling link. |
| `ResourceRuns.ForeignTargetSurvives` | gbpservice/neutron/db/grouppolicy/group_policy_db.py:98-99 | Another tenant's target of a shared group survives the group's delete, without a group. |
| `ResourceRuns.PutNoDangling` | gbpservice/neutron/services/grouppolicy/plugin.py:126-149 | No accepted create or update leaves a dangling link. |
| `ResourceRuns.PutSharedUsesShared` | gbpservice/neutron/services/grouppolicy/plugin.py:150-161 | Accepted creates and updates keep shared resources on shared ones, along every edge but the parent link. |
| `ResourceRuns.PutTenantsApart` | gbpservice/neutron/services/grouppolicy/plugin.py:336-347 | Accepted creates and updates without admin rights keep links to unshared resources within one tenant. |
| `ResourceRuns.PutOneLevel` | gbpservice/neutron/db/grouppolicy/group_policy_db.py:630-658 | Accepted creates and updates keep the rule set hierarchy one level deep, also when children are taken from another parent. |
| `ResourceRuns.Perform` | gbpservice/neutron/services/grouppolicy/plugin.py:97-227 | The methods take exactly the steps the run theorems are about. |
| `ResourceRuns.StepKeepsInv` | gbpservice/neutron/services/grouppolicy/plugin.py:126-171 | Every accepted call keeps links whole, the hierarchy one level deep and shared resources on shared ones. |
| `ResourceRuns.StepKeepsTenantsApart` | gbpservice/neutron/services/grouppolicy/plugin.py:336-347 | Every accepted call without admin rights keeps tenants apart. |
| `ResourceRuns.RunKeepsInv` | gbpservice/neutron/services/grouppolicy/plugin.py:97-227 | Every run keeps the invariants of the store it starts from, and without admin calls keeps tenants apart. |
| `ResourceRuns.ReachableInv` | gbpservice/neutron/services/grouppolicy/plugin.py:97-227 | In every store reachable from the empty one the invariants hold; without admin calls tenants stay apart. |
| `ResourceRuns.StepSharedParents` | gbpservice/neutron/services/grouppolicy/plugin.py:190-198 | An accepted call keeps parents of shared rule sets shared exactly if it does not write an unshared rule set above a shared child. |
| `ResourceRuns.UnsharedParentOfSharedChild` | gbpservice/neutron/services/grouppolicy/plugin.py:190-198 | Whoever calls, unsharing a rule set above a shared child is accepted, in a store where all the invariants hold. |
| `RuleSetHierarchy.RuleSetTable.SetChildren` | gbpservice/neutron/db/grouppolicy/group_policy_db.py:630-658 | The rule set gets exactly the given children, taken from wherever they were, or nothing changes; both columns are given outright, and they agree. |
| `RuleSetHierarchy.RuleSetTable.Create` | gbpservice/neutron/db/grouppolicy/group_policy_db.py:1717-1733 | A creation is accepted exactly if the children exist and are childless, and adopts them; a rejected one leaves nothing behind. |
| `RuleSetHierarchy.RuleSetTable.Delete` | gbpservice/neutron/db/grouppolicy/group_policy_db.py:1753-1769 | The children lose their parent, the rule set leaves its parent's collection. |
| `RuleSetHierarchy.EitherColumn` | gbpservice/neutron/db/grouppolicy/group_policy_db.py:630-658 | Either of the two columns determines the other. |
| `RuleSetHierarchy.AdoptedParentsLinked` | gbpservice/neutron/db/grouppolicy/group_policy_db.py:656-658 | Whatever parent column agrees with the new collections gives the new children this parent, takes it from the dropped ones, and leaves all others alone. |
| `RuleSetHierarchy.MayAdoptExactly` | gbpservice/neutron/db/grouppolicy/group_policy_db.py:630-651 | Children are accepted exactly if there are none, or the rule set has no parent and each is another childless rule set. |
| `RuleSetHierarchy.AdoptedExactly` | gbpservice/neutron/db/grouppolicy/group_policy_db.py:656-658 | Both columns after the call, entry by entry. |
| `RuleSetHierarchy.Acyclic` | gbpservice/neutron/db/grouppolicy/group_policy_db.py:635-651 | No chain of parents has two links, and none returns to its start: a forest of depth at most one. |
| `RuleSetColumns.ReachableLinked` | gbpservice/neutron/db/grouppolicy/group_policy_db.py:630-658 | In every reachable store the two columns agree and no rule set has both a parent and children. |
| `RuleSetColumns.SameChildrenAccepted` | gbpservice/neutron/db/grouppolicy/group_policy_db.py:635-651 | The store accepts children exactly as the columns do, for those the caller can see. |
| `RuleSetColumns.SetChildrenInColumns` | gbpservice/neutron/db/grouppolicy/group_policy_db.py:656-658 | Setting children in the store has the effect of the two assignments on the columns. |
| `ImplicitPolicy.ImplicitPolicyPlugin.CreateL3` | gbpservice/neutron/services/grouppolicy/drivers/implicit_policy.py:312-323 | A second default policy of a tenant is rejected, everything else is stored. |
| `ImplicitPolicy.ImplicitPolicyPlugin.DeleteL3` | gbpservice/neutron/services/grouppolicy/plugin.py:1073-1094 | The policy goes exactly if it exists and no L2 policy uses it; with check_unused a used one is left without an error. |
| `ImplicitPolicy.ImplicitPolicyPlugin.CleanupL3` | gbpservice/neutron/services/grouppolicy/drivers/implicit_policy.py:195-203 | Only an owned policy without L2 policies is removed. |
| `ImplicitPolicy.ImplicitPolicyPlugin.CleanupL2` | gbpservice/neutron/services/grouppolicy/drivers/implicit_policy.py:205-215 | Only an owned policy without groups is removed, with the cascade to its L3 policy. |
| `ImplicitPolicy.ImplicitPolicyPlugin.UseImplicitL3` | gbpservice/neutron/services/grouppolicy/drivers/implicit_policy.py:100-148 | The L2 policy gets a default L3 policy of its tenant, or a new owned one exactly if there is none; a shared L2 policy is refused a default one that is not shared, and nothing changes. |
| `ImplicitPolicy.ImplicitPolicyPlugin.CreateL2` | gbpservice/neutron/services/grouppolicy/plugin.py:821-847 | The new L2 policy has the given L3 policy, if it may use it, or an implicit one, if that is not refused; otherwise the compensating delete leaves no trace. |
| `ImplicitPolicy.ImplicitPolicyPlugin.DeleteL2` | gbpservice/neutron/db/grouppolicy/group_policy_db.py:1335-1346 | A policy with groups is rejected; otherwise it goes, and its owned L3 policy with its last user. |
| `ImplicitPolicy.ImplicitPolicyPlugin.UpdateL2` | gbpservice/neutron/services/grouppolicy/drivers/implicit_policy.py:285-291 | Moving an L2 policy cleans up the old L3 policy before an implicit one is chosen; if that one is refused, the move and the cleanup stand. |
| `ImplicitPolicy.ImplicitPolicyPlugin.CreateGroup` | gbpservice/neutron/services/grouppolicy/plugin.py:563-591 | A group with a given L2 policy is stored with it if it may use it; one without gets a new owned one, on exactly the proxied group's L3 policy if there is one; if that is refused, no trace is left. |
| `ImplicitPolicy.ImplicitPolicyPlugin.UseImplicitL2` | gbpservice/neutron/services/grouppolicy/drivers/implicit_policy.py:150-171 | The group gets a new owned L2 policy, on the proxied group's L3 policy if there is one, or nothing changes if the sharing check turns it down. |
| `ImplicitPolicy.ImplicitPolicyPlugin.UpdateGroupPostcommit` | gbpservice/neutron/services/grouppolicy/drivers/implicit_policy.py:266-272 | If the L2 policy has changed, the old one is cleaned up, and a group left without one gets an implicit one unless it is refused. |
| `ImplicitPolicy.ImplicitPolicyPlugin.UpdateGroup` | gbpservice/neutron/services/grouppolicy/plugin.py:596-630 | The new L2 policy is stored exactly if the group may use it and had none or this one; between calls nothing changes. |
| `ImplicitPolicy.ImplicitPolicyPlugin.DeleteGroup` | gbpservice/neutron/services/grouppolicy/drivers/implicit_policy.py:275-277 | The group goes, and its owned L2 policy with its last group. |
| `ImplicitPolicyRuns.Perform` | gbpservice/neutron/services/grouppolicy/drivers/implicit_policy.py:260-296 | The methods take exactly the steps of the transition relation the run theorems are about. |
| `ImplicitPolicyCalls.GivenL3` | gbpservice/neutron/services/grouppolicy/plugin.py:126-149 | A new L2 policy is stored on a given L3 policy exactly if that exists, is shared if it is, and is its tenant's if not shared and the caller no admin. |
| `ImplicitPolicyCalls.GivenL2` | gbpservice/neutron/services/grouppolicy/plugin.py:126-149 | The same for a group and a given L2 policy. |
| `ImplicitPolicyCalls.MovedToGiven` | gbpservice/neutron/services/grouppolicy/drivers/implicit_policy.py:284-291 | Moving to a given L3 policy stores the link, and the old policy goes exactly if it is owned and this was its last user. |
| `ImplicitPolicyCalls.OwnL3` | gbpservice/neutron/services/grouppolicy/drivers/implicit_policy.py:312-323 | An L3 policy is stored as requested unless it would be a second default one of its tenant; a rename changes the name alone. |
| `ImplicitPolicyCalls.FirstDefault` | gbpservice/neutron/services/grouppolicy/drivers/implicit_policy.py:102-117 | The first L2 policy of a tenant without a given L3 policy brings a new one, of the default name, its tenant and sharing, and owned. |
| `ImplicitPolicyCalls.OnlyDefault` | gbpservice/neutron/services/grouppolicy/drivers/implicit_policy.py:102-106 | A later one gets the tenant's default L3 policy, and no new one is created. |
| `ImplicitPolicyCalls.ImplicitL2` | gbpservice/neutron/services/grouppolicy/drivers/implicit_policy.py:150-171 | A group without a given L2 policy gets a new owned one of its tenant and sharing, on the proxied group's L3 policy or the default one. |
| `ImplicitPolicyCalls.MovedToDefault` | gbpservice/neutron/services/grouppolicy/drivers/implicit_policy.py:284-291 | An L2 policy that gives up another L3 policy gets the tenant's default one, or none if it is shared and that is not. |
| `ImplicitPolicyCalls.DeletesExactly` | gbpservice/neutron/db/grouppolicy/group_policy_db.py:1335-1346 | Deleting by name succeeds exactly if nothing uses the policy; a group can always go. |
| `ImplicitPolicyCalls.SameDefaultForAll` | gbpservice/neutron/services/grouppolicy/drivers/implicit_policy.py:102-106 | Over a run, as long as a default L3 policy is not deleted or renamed and no other is renamed to the default name, all L2 policies of the tenant created without an L3 policy get that one. |
| `ImplicitPolicyRuns.UpdateGroupIsNoOp` | gbpservice/neutron/services/grouppolicy/plugin.py:613-616 | Between calls, only an update to the L2 policy the group has is accepted, and no update changes anything. |
| `ImplicitPolicyRuns.StepKeepsTidy` | gbpservice/neutron/services/grouppolicy/drivers/implicit_policy.py:260-296 | Every call, refused or not, keeps: owned L2 policies have groups, owned L3 policies have L2 policies, every group has its L2 policy and all links are live. |
| `ImplicitPolicyRuns.RunTidy` | gbpservice/neutron/services/grouppolicy/drivers/implicit_policy.py:260-296 | These hold in every state of every run. |
| `ImplicitPolicyRuns.StepKeepsQuiet` | gbpservice/neutron/services/grouppolicy/drivers/implicit_policy.py:284-291 | A call keeps every L2 policy on an L3 policy unless a shared one gives its L3 policy up while its tenant has a default one that is not shared. |
| `ImplicitPolicyRuns.QuietExactly` | gbpservice/neutron/services/grouppolicy/group_policy_context.py:134-139 | Every outcome of a call keeps that exactly if it is not such an update. |
| `ImplicitPolicyRuns.SharedL2LosesL3` | gbpservice/neutron/services/grouppolicy/group_policy_context.py:134-139 | Such an update is accepted at a concrete state, whoever asks. |
| `ImplicitPolicyRuns.RunQuiet` | gbpservice/neutron/services/grouppolicy/drivers/implicit_policy.py:260-296 | Over every run without such an update every L2 policy has its L3 policy. |
| `ImplicitPolicyRuns.StepOnlyOwnedGo` | gbpservice/neutron/services/grouppolicy/drivers/implicit_policy.py:195-215 | A policy goes only if the call deletes it by name, or it is owned and has just lost its last user; only new policies become owned. |
| `ImplicitPolicyRuns.UnownedStays` | gbpservice/neutron/services/grouppolicy/drivers/implicit_policy.py:195-215 | Over every run, a policy the driver does not own stays until it is deleted by name, and never becomes owned. |
| `ImplicitPolicyRuns.CreateThenDelete` | gbpservice/neutron/services/grouppolicy/drivers/implicit_policy.py:150-215 | Creating a group with implicit policies and deleting it restores all tables. |
| `ImplicitPolicyRuns.StepOneDefault` | gbpservice/neutron/services/grouppolicy/drivers/implicit_policy.py:312-332 | A call keeps at most one default L3 policy for each tenant exactly if it is not a rename to the default name beside another one. |
| `ImplicitPolicyRuns.TwoDefaults` | gbpservice/neutron/services/grouppolicy/drivers/implicit_policy.py:331-332 | Such a rename is accepted. |
| `ImplicitPolicyRuns.RunOneDefault` | gbpservice/neutron/services/grouppolicy/drivers/implicit_policy.py:312-323 | Over every run without such renames there is at most one default policy for each tenant. |
| `Cidr.OverlapIsCommonAddress` | gbpservice/neutron/services/grouppolicy/plugin.py:249-254 | Two prefixes overlap exactly if some address is in both (section 3.1 of RFC 4632). |
| `Cidr.NormalIsAddressSet` | gbpservice/neutron/services/grouppolicy/plugin.py:315-321 | Two prefixes have the same normal form exactly if they cover the same addresses. |
| `Cidr.CoversBlock` | gbpservice/neutron/services/grouppolicy/plugin.py:262-266 | A prefix covers the block of addresses from its first one. |
| `Cidr.DisjointIsNoOverlap` | gbpservice/neutron/services/grouppolicy/plugin.py:249-254 | Two sets of prefixes share no address exactly if no two of them overlap. |
| `Cidr.Bits` | gbpservice/neutron/services/grouppolicy/plugin.py:249-254 | A prefix of length n covers 2^(32-n) or 2^(128-n) addresses. |
| `Cidr.BlockStart` | gbpservice/neutron/services/grouppolicy/plugin.py:262-266 | They start at a multiple of their number, at or below the address in the prefix. |
| `ExternalRouteCalls.DestinationsExactly` | gbpservice/neutron/services/grouppolicy/plugin.py:241-243 | The destinations compared with pools are all but 0.0.0.0/0 and ::/0. |
| `ExternalRouteCalls.ApartExactly` | gbpservice/neutron/services/grouppolicy/plugin.py:312-323 | Segments are apart exactly if no two of their routes cover the same addresses. |
| `ExternalRouteCalls.RoutesAcceptedExactly` | gbpservice/neutron/services/grouppolicy/plugin.py:229-266 | Added routes are accepted exactly if they route no pool address but by default, the segment's routes differ in addresses from those of the other segments of each linked policy, and the next hops lie in the segment. |
| `ExternalRouteCalls.LinksAcceptedExactly` | gbpservice/neutron/services/grouppolicy/plugin.py:268-323 | Added links are accepted exactly if no pool address is in an added segment or routed by it except by default, the allocated addresses lie in it, and no route of the first segment retrieved covers the same addresses as one of another. |
| `ExternalRouteCalls.DefaultRouteAccepted` | gbpservice/neutron/services/grouppolicy/plugin.py:240-243 | A default route is accepted on a linked segment whatever the pools, exactly if its next hop lies in the segment and no other segment of a linked policy has a default route of that family. |
| `ExternalRouteCalls.CallStores` | gbpservice/neutron/services/grouppolicy/plugin.py:1490-1541 | An accepted call stores the requested segment, routes or links and touches nothing else. |
| `ExternalRoutes.ValidateIdenticalRoutes` | gbpservice/neutron/services/grouppolicy/plugin.py:312-323 | Accepts exactly if the first segment shares no normalised destination with any other. |
| `ExternalRoutes.ExternalPlugin.ValidateRoutes` | gbpservice/neutron/services/grouppolicy/plugin.py:229-266 | Accepts exactly if each linked pool is disjoint from the added destinations, the segment is apart from the other segments of each linked policy, and the added next hops lie in the segment. |
| `ExternalRoutes.ExternalPlugin.ValidateL3pEs` | gbpservice/neutron/services/grouppolicy/plugin.py:268-310 | Accepts exactly if each added segment and its destinations are disjoint from the pool, its addresses lie in it, and the first segment retrieved is apart from the others. |
| `ExternalRoutes.ExternalPlugin.CreateSegment` | gbpservice/neutron/services/grouppolicy/plugin.py:1490-1507 | A segment is stored with checked routes, or nothing changes. |
| `ExternalRoutes.ExternalPlugin.UpdateSegment` | gbpservice/neutron/services/grouppolicy/plugin.py:1524-1541 | The routes are replaced after a check of the added ones, or nothing changes. |
| `ExternalRoutes.ExternalPlugin.DeleteSegment` | gbpservice/neutron/services/grouppolicy/plugin.py:1556-1566 | A segment with linked policies, NAT pools or external policies is not deleted. |
| `ExternalRoutes.ExternalPlugin.CreatePolicy` | gbpservice/neutron/services/grouppolicy/plugin.py:1017-1029 | A policy is linked to checked segments, or nothing changes. |
| `ExternalRoutes.ExternalPlugin.UpdatePolicy` | gbpservice/neutron/services/grouppolicy/plugin.py:1047-1064 | The links are replaced after a check of the added ones, or nothing changes. |
| `ExternalRouteRuns.Perform` | gbpservice/neutron/services/grouppolicy/plugin.py:229-323 | The methods take exactly the steps of the transition relation the run theorems are about. |
| `ExternalRouteRuns.StepKeepsClear` | gbpservice/neutron/services/grouppolicy/plugin.py:229-306 | An accepted call keeps every linked pool disjoint, as address sets, from segment and routed networks, and every next hop inside its segment. |
| `ExternalRouteRuns.RunClear` | gbpservice/neutron/services/grouppolicy/plugin.py:229-306 | These hold in every reachable state, though only what was added is checked. |
| `ExternalRouteRuns.UpdateSegmentDistinct` | gbpservice/neutron/services/grouppolicy/plugin.py:245-260 | An accepted route update keeps destinations distinct across any number of segments of each linked policy. |
| `ExternalRouteRuns.SlipsInSomeOrder` | gbpservice/neutron/services/grouppolicy/plugin.py:307-323 | For some order of retrieval an accepted call leaves identical routes exactly if it adds links, every added segment passes its own checks, two of the named segments route a common network and one shares none with the others. |
| `ExternalRouteRuns.StepDistinct` | gbpservice/neutron/services/grouppolicy/plugin.py:307-323 | In a given order of retrieval an accepted call that adds links keeps destinations distinct exactly if all segments but the first are apart; any other accepted call keeps them distinct. |
| `ExternalRouteRuns.TwoCannotSlip` | gbpservice/neutron/services/grouppolicy/plugin.py:312-323 | A call that names at most two segments never leaves identical routes unnoticed. |
| `ExternalRouteRuns.RunDistinct` | gbpservice/neutron/services/grouppolicy/plugin.py:307-323 | Over runs without such a call no state has identical routes, in whatever orders the rows are retrieved. |
| `ExternalRouteRuns.ThirdSegmentUnchecked` | gbpservice/neutron/services/grouppolicy/plugin.py:312-323 | Linking three segments, two of them with the same route, is accepted or rejected depending on the order of retrieval. |
| `ExternalAddresses.AddressTable.SetSegments` | gbpservice/neutron/db/grouppolicy/group_policy_db.py:779-818 | The rows of the policy become those requested, exactly if all segments exist, no named address is held by another policy and no list repeats an address; otherwise nothing changes. |
| `ExternalAddresses.AddressTable.SetSegment` | gbpservice/neutron/db/grouppolicy/group_policy_db.py:798-818 | A list that names no address gives one unspecified row, any other gives a row for each entry. |
| `ExternalAddresses.AddressTable.DeleteSegment` | gbpservice/neutron/services/grouppolicy/plugin.py:1556-1566 | A segment goes exactly if no policy is linked to it and no NAT pool or external policy refers to it. |
| `ExternalAddresses.AddressTable.Read` | gbpservice/neutron/db/grouppolicy/group_policy_db.py:879-885 | Each row of the policy is listed once, grouped by segment. |
| `ExternalAddresses.OverlapCheckExact` | gbpservice/neutron/db/grouppolicy/group_policy_db.py:804-813 | The overlap check turns down a request precisely when some named address would get a second owner. |
| `ExternalAddresses.ReplacedExactly` | gbpservice/neutron/db/grouppolicy/group_policy_db.py:779-818 | After a request the policy has a row for each listed address, or one with the empty address for a list that names none, and the rows of others are as they were. |
| `ExternalAddresses.AcceptedExactly` | gbpservice/neutron/db/grouppolicy/group_policy_db.py:790-818 | A request is accepted exactly if its segments exist, no other policy has a row for an address it names, and no list that names one repeats an address. |
| `ExternalAddresses.OneOwnerExactly` | gbpservice/neutron/db/grouppolicy/group_policy_db.py:804-813 | One owner means that no two policies have a row for the same segment and non-empty address. |
| `ExternalAddresses.WriteBackWhatWasRead` | gbpservice/neutron/db/grouppolicy/group_policy_db.py:779-818 | Writing back what was read is accepted and changes nothing. |
| `ExternalAddresses.ReadWhatWasWritten` | gbpservice/neutron/db/grouppolicy/group_policy_db.py:872-886 | Reading gives back each written list, an empty one as the unspecified address. |
| `ExternalAddresses.Perform` | gbpservice/neutron/db/grouppolicy/group_policy_db.py:779-818 | The methods take exactly the steps of the transition relation the run theorems are about. |
| `ExternalAddresses.RunOneOwner` | gbpservice/neutron/db/grouppolicy/group_policy_db.py:779-818 | In every reachable state a named address of a segment belongs to one policy. |
| `ExternalAddresses.RunWriteBack` | gbpservice/neutron/db/grouppolicy/group_policy_db.py:779-818 | In every reachable state writing back what is read is accepted and changes nothing. |
| `PortRange.ValidatePortRange` | gbpservice/neutron/extensions/group_policy.py:279-303 | Accepts exactly a port, or two ports in strictly increasing order around a colon. |
| `PortRange.PrintThenParse` | gbpservice/neutron/db/grouppolicy/group_policy_db.py:517-531 | For 1 <= min <= max <= 65535, printing gives an accepted text that reads back as (min, max). |
| `PortRange.AcceptedParses` | gbpservice/neutron/db/grouppolicy/group_policy_db.py:517-524 | Every accepted text reads as ports 1 <= min <= max <= 65535. |
| `PortRange.IntExactly` | gbpservice/neutron/extensions/group_policy.py:279-303 | A port is read from non-empty texts of the digits 0 to 9. |
| `Text.DecimalValueReads` | gbpservice/neutron/extensions/group_policy.py:279-303 | Each further digit multiplies the value by ten and adds the digit. |
| `PortRange.TextsOfRange` | gbpservice/neutron/db/grouppolicy/group_policy_db.py:517-531 | A range is written with a colon and reads back. |
| `PortRange.TextsOfPort` | gbpservice/neutron/db/grouppolicy/group_policy_db.py:517-531 | A single port is written alone, and is read with or without a colon behind it. |
| `PortRange.ParseThenPrint` | gbpservice/neutron/db/grouppolicy/group_policy_db.py:517-531 | Printing what was read keeps the meaning; it gives the same text exactly if no port has a leading zero. |
| `PortRange.ServicePorts` | gbpservice/contrib/vmware/nsx_policy_mapping.py:387-392 | The ports handed to the backend are min to max, each once, in order. |
| `PortRange.ServesTheRange` | gbpservice/contrib/vmware/nsx_policy_mapping.py:387-392 | A port is served exactly if it lies in the range of the text first accepted, after storing and printing it. |
| `DriverManager.PolicyDriverManager.constructor` | gbpservice/neutron/services/grouppolicy/policy_driver_manager.py:83-95 | The drivers are called in the configured order, and in its exact reverse for deletes. |
| `DriverManager.PolicyDriverManager.CallOnDrivers` | gbpservice/neutron/services/grouppolicy/policy_driver_manager.py:109-169 | For a delete in reverse order: exactly a prefix of the order is called, up to the first driver that stops the loop; the result is the one of its error class. |
| `DriverManager.PolicyDriverManager.CallEach` | gbpservice/neutron/services/grouppolicy/policy_driver_manager.py:126-169 | The loop calls a prefix of its drivers, up to the first that stops it. |
| `DriverManager.CalledUnique` | gbpservice/neutron/services/grouppolicy/policy_driver_manager.py:122-164 | Which drivers are called is determined by what they do. |
| `DriverManager.OrderExactly` | gbpservice/neutron/services/grouppolicy/policy_driver_manager.py:121-123 | Only methods whose name starts with delete are called in reverse order. |
| `DriverManager.CalledExactly` | gbpservice/neutron/services/grouppolicy/policy_driver_manager.py:126-164 | A driver is called unless one before it raises a retriable, known or invalid-request error, or another one while the dispatch does not go on. |
| `DriverManager.RaisedExactly` | gbpservice/neutron/services/grouppolicy/policy_driver_manager.py:126-169 | Which exception is raised, by the last driver called and the foreign failures before it. |
| `DriverManager.ServersExactly` | gbpservice/neutron/services/grouppolicy/policy_driver_manager.py:124-131 | The servers returned are put together in the order of the calls. |
| `DriverManager.RaisesIfSomeFails` | gbpservice/neutron/services/grouppolicy/policy_driver_manager.py:122-169 | A dispatch raises exactly if some configured driver fails in it, whatever the order and the policy on failures. |
| `DriverManager.DriverErrorExactly` | gbpservice/neutron/services/grouppolicy/policy_driver_manager.py:154-166 | The driver error is raised exactly if a foreign exception occurred and no propagating one did. |
| `DriverManager.ContinuesToTheEnd` | gbpservice/neutron/services/grouppolicy/policy_driver_manager.py:154-164 | When going on after failures, every driver is called unless one propagates. |
| `DriverManager.Plugin.Create` | gbpservice/neutron/services/grouppolicy/plugin.py:1017-1042 | A failed create leaves the row exactly if its precommit hooks pass and the compensating delete fails; one that goes through calls every driver twice, in the configured order, before and after the commit. |
| `DriverManager.Plugin.Delete` | gbpservice/neutron/services/grouppolicy/plugin.py:1073-1094 | A failing precommit hook keeps the row, and so does the guard, with its own error; a failing postcommit hook does not. The drivers are called in reverse order. |
| `IpPool.RoundTripExactly` | gbpservice/neutron/services/grouppolicy/common/utils.py:20-36 | For all lists: joining and splitting gives the list back exactly if its members are trimmed and free of commas and it is not the one empty member. |
| `IpPool.SplitJoined` | gbpservice/neutron/services/grouppolicy/common/utils.py:20-36 | Splitting a joined list gives its members, with a space in front of all but the first. |
| `IpPool.SplitExactly` | gbpservice/neutron/services/grouppolicy/common/utils.py:20-36 | Splitting gives exactly the parts without commas that commas join to the text. |
| `IpPool.StripExactly` | gbpservice/neutron/services/grouppolicy/common/utils.py:20-36 | Stripping cuts white space off both ends, all of it and nothing else. |
| `IpPool.SpacesExactly` | gbpservice/neutron/services/grouppolicy/common/utils.py:20-36 | The 29 characters that count as white space. |
| `IpPool.ValidateIpPool` | gbpservice/neutron/db/grouppolicy/group_policy_db.py:1072-1096 | Accepts exactly pools of an allowed version with a prefix length from 1 to two less than the width. |
| `IpPool.ValidateSubnetPrefixLength` | gbpservice/neutron/db/grouppolicy/group_policy_db.py:1099-1114 | Accepts exactly lengths from 2 to 31 for IPv4 and dual stack that no IPv4 pool exceeds. |
| `IpPool.SubnetsPartition` | gbpservice/neutron/db/grouppolicy/group_policy_db.py:1106-1114 | Every address of a pool lies in exactly one of its 2^(n-p) subnets of length n, and no other address does. |
| `IpPool.AcceptedPoolHasSubnets` | gbpservice/neutron/db/grouppolicy/group_policy_db.py:1072-1114 | Accepted IPv4 pools /p and length n satisfy 1 <= p <= 30 and p <= n <= 31, and split into 2^(n-p) >= 1 subnets. |
| `AllowedVlans.ValidateRange` | gbpservice/neutron/extensions/cisco_apic.py:109-123 | Accepts exactly None, and ranges with both ends given and 1 <= start <= end <= 4093. |
| `AllowedVlans.AllowedVlans.Convert` | gbpservice/neutron/extensions/cisco_apic.py:206-228 | The list becomes strictly increasing with exactly the listed VLANs and the members of the ranges; ranges are kept; a TypeError changes nothing. |
| `AllowedVlans.ConvertTwice` | gbpservice/neutron/extensions/cisco_apic.py:206-228 | Converting again succeeds and changes nothing. |
| `AllowedVlans.AllowedExactly` | gbpservice/neutron/extensions/cisco_apic.py:206-228 | A number is allowed exactly if it is listed or lies between the ends of a range, both included. |
| `AllowedVlans.SortedExactly` | gbpservice/neutron/extensions/cisco_apic.py:206-228 | The result holds exactly the allowed numbers, in ascending order and each once. |
| `AllowedVlans.ConvertibleExactly` | gbpservice/neutron/extensions/cisco_apic.py:206-228 | A TypeError comes from a range that is None or has an end that is, or from None beside an allowed number, and from nothing else. |
| `AllowedVlans.ValidatedBounds` | gbpservice/neutron/extensions/cisco_apic.py:93-123 | On validated input the result is at most 4093 numbers from 1 to 4093, exactly if None is not listed. |
| `AllowedVlans.ValidatedConverts` | gbpservice/neutron/extensions/cisco_apic.py:109-123 | Validated input is converted without a TypeError exactly if no range is None and None is not listed beside a number or a range. |
| `AllowedVlans.NoneRangeFails` | gbpservice/neutron/extensions/cisco_apic.py:110-111 | A range that is None is accepted, and converting it is a TypeError. |
| `AllowedVlans.NoneListedStays` | gbpservice/neutron/extensions/cisco_apic.py:94-95 | A listed None is accepted and converted to itself, which is no VLAN number. |
| `AllowedVlans.NoneBesideNumberFails` | gbpservice/neutron/extensions/cisco_apic.py:94-95 | None listed beside a number is accepted, and converting it is a TypeError. |

## Left out

- Floats, tuples, keys that are not strings, and objects with attributes in the nested data; lone surrogates (a Dafny
  string holds Unicode scalar values); arguments with cycles or shared sublists.
- ExtendResources: existing sub-resources, whose parameters alone are updated, are merged like any other resource; the final
  `update_attributes_map` calls and the handling of unprocessed extensions are not modelled.
- NSX: several projects and what a caller cannot see, rule actions and `enabled` flags (the compiler ignores them), the
  rejection of shared resources, names, domains and groups on the backend. Maps hold sets of services and groups where the
  source passes lists.
- Resources.GroupPolicyPlugin.Update: `links` are all the links the resource is to have; a request that leaves an
  attribute out stands for one that repeats it.
- Sharing: references from actions to service chain specs, the setter of implicit external segments, and concurrent calls.
- Resources.GroupPolicyPlugin.DeleteGroup: one step; the source commits the update, the removal of each target, which
  it refuses for a bound port, and of the proxy group one by one.
- The link of a group to an application policy group (`application_policy_group_id`), which the usage graph does not
  hold either.
- Implicit policies: updates of `shared`, policies the caller cannot see, networks, subnets and routers behind the policies, failures of a driver between two commits, concurrent
  creation of a default policy, and the default external segment.
- External connectivity: segment CIDRs taken from a `subnet_id`, pools changed through subnetpools, implicit default segments,
  resources the caller cannot see, and prefixes as text; the two default routes are the zero prefixes of length zero.
- ExternalRoutes.ExternalPlugin.UpdatePolicy: addresses on segments that were linked before are not checked again, by the
  source either, so no invariant speaks of them.
- ExternalRoutes.ExternalPlugin.DeletePolicy: the guard on L2 policies is part of the resource model, not of this one.
- Port ranges and pools: Python's `int` also takes signs, blanks and underscores; numerals here are strings of digits.
- IpPool: netaddr's parsing of a prefix, and the `validate_subnet` check before it.
- AllowedVlans: the list check of neutron's validators, which sees to it that both values are lists; input given as a string for `literal_eval`, and numbers given as text.
- DriverManager: retries of a call after a RetryRequest, `validate_state`, `ensure_tenant` and the loading of drivers. One
  resource stands for all; their calls have the same shape.
- REST, the database mapper, quota, logging, the other policy drivers, and the servicechain and neutron plugins.
