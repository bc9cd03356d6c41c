# PTP operator: verified model

This project models the decision logic of the PTP operator and of the conformance-test
helpers that feed it, and proves what that logic promises. `dafny verify dfyconfig.toml`
checks everything.

## What is modelled

**Profile recommendation** (`Sorting`, `Recommendation`, `RecommendationLaws`,
`SelectionMeaning`, `Preemption`, `Override`).
All `recommend` entries are gathered, sorted by priority without stability, scanned, looked
up by name, counted, and sorted by name. The unstable sort is used only through its contract
"some sorted permutation", a Go map is walked in an arbitrary order, and a nil dereference is
the outcome `Panic`. The code is proved equal to a declarative choice: the profiles of the
eligible entries that no eligible entry undercuts; `SelectionMeaning` spells this out on the
PtpConfigs, down to node names and label keys. `Preemption` adds and removes the
priority-0 override that the conformance tests write, made from a config of any size, and
`Override` follows it to the stored map: added, reconciled, deleted, reconciled.

**ptp4l configuration text** (`Text`, `Ptp4lConf`, `Ptp4lReading`, `Interfaces`, `Validation`,
`HaProfiles`, `Printer`, `Discovery`). The section parser is a class whose `sections` field
the loop fills in place. It is proved to refine a reading of the lines that never runs it,
including what it leaves behind after an error, since both of its callers go on with that.
The printer of the conformance tests is proved to be undone by the parser, and the texts
generated for an ordinary clock and a boundary clock are followed through to the mode that
`discoverMode` reports.

**The reconcilers** (`NodeAssignment`, `ConfigMapProtocol`, `OperatorSync`, `OperatorProtocol`).
The node loop of `syncPtpConfig` computes an all-or-nothing map. `ConfigMapProtocol` is a state machine in which
every List, Get, Create and Update is a step of its own, interleaved in any order with other
reconciles, user edits, node changes, deletions of the map and failing calls; resource versions
are explicit. `OperatorSync` is the create-if-absent half, with every call allowed to fail.
`OperatorProtocol` takes it apart into its calls, among any number of other reconciles and of
other writers. In both, the method that runs the code undisturbed is proved to be one of the runs.

**Merge and apply** (`Unstructured`, `Merge`, `MergeLaws`, `MergeFields`, `Apply`,
`ApplyProtocol`). Objects are JSON trees, with
missing and malformed fields treated as the nested accessors treat them. The merge functions
update the desired object in place. Their meaning, frame and exact fixpoint condition are
proved, in terms of the accessors and, in `MergeFields`, of the JSON fields of an `apps/v1`
Deployment, a `v1` Service or a `v1` ServiceAccount; then come laws over whole runs of `ApplyObject` with arbitrary failures. `ApplyProtocol` lets
the applies overlap, each with its read and its write, on a server that checks resource versions.

**Deep copies** (`DeepCopy`). A heap of pointers, slices and maps, in which the generated copy
functions and `MutateProfile` run. The result of `MutateProfile` is tied to the value-level
override of `Preemption`.

## Findings

- The length check of `getRecommendProfiles` does not mean "all found". It passes iff the
  multiplicities of the chosen names add up to their number, so one missing and one duplicated
  name cancel out (`RecommendationLaws.LengthCheckIsFooled`). It means "all found" iff every
  chosen name is defined exactly once.
- Selection dereferences a nil priority iff some eligible entry has none, whatever the order
  of the list, because the scan never stops early (`Recommendation.ScanSorted`; an input is given
  by `RecommendationLaws.NilPriorityPanics`). A profile without a name panics too, before the length
  check (`RecommendationLaws.NamelessProfilePanics`). The schema requires a name of every profile
  and a profile and a priority of every entry (config/crd/bases/ptp.openshift.io_ptpconfigs.yaml:101-102
  and 122-124), so no object that the API server has checked against it carries these inputs.
- The resource version does not keep an old snapshot from replacing a newer one when PtpConfig
  reconciles overlap: the map is fetched after the lists were taken, so the version is fresh
  although the data is not. The snapshots behind the stored map go forwards in every run iff there
  is at most one PtpConfig reconcile at a time, or nobody who creates the map
  (`ConfigMapProtocol.ForwardsIff`). The controller is set up with the default of one
  worker (controllers/ptpconfig_controller.go:114-118); leader election is off by default
  (main.go:74), so an overlap needs a second operator process.
- `MergeObjectForUpdate` is not a fixpoint for every input: when the current Service has no
  readable `clusterIP` and the desired one carries a malformed one, the first merge succeeds and
  the second one fails; likewise for the two lists of a ServiceAccount. The condition under
  which it is a fixpoint is `MergeLaws.Remergeable`; `MergeLaws.MergeFixpoint` is an
  if-and-only-if, and `MergeLaws.MalformedAddressIsNoFixpoint` an example.
- `discoverMode` reads `Profile[0].Ts2PhcConf` without a check. It dereferences nil iff some config
  has two or more masters, no slave and no `Ts2PhcConf`, unless a lone ordinary clock ended the loop
  (`Discovery.TestConfig.DiscoverMode`; a printed config that does so is described by
  `Discovery.TwoMastersReadNil`). `Profile[0]` itself is never out of range there.
- A boundary clock text generated with one and the same name for both interfaces has a master
  and no slave, and is classified as nothing (`Discovery.GeneratedBoundaryClock`).

## Model

| member | source | states |
|---|---|---|
| `Sorting.SortSlice` | controllers/recommend.go:96-101 | the unstable sort, by its contract: some sorted permutation of the input, for any strict weak order |
| `Sorting.SliceStable` | controllers/recommend.go:71-75 | the stable sort of the found profiles |
| `Sorting.StableSortIsStable` | controllers/recommend.go:71-75 | the stable sort returns a sorted permutation in which elements that the comparator cannot tell apart keep their order |
| `Recommendation.PriorityLessIsOrder` | controllers/recommend.go:96-101 | the priority comparator is a strict weak order in which entries without a priority tie behind all others |
| `Recommendation.NameLessIsOrder` | controllers/recommend.go:71-75 | the name comparator is a strict weak order |
| `Recommendation.MatchNode` | controllers/recommend.go:139-163 | true iff some rule names the node or names one of its label keys, for any walk of the labels; the value of a label plays no part |
| `Recommendation.MatchesByNameOrKey` | controllers/recommend.go:139-163 | a rule list matches iff some rule carries the node's name or the key of one of its labels |
| `Recommendation.ScanSorted` | controllers/recommend.go:103-136 | on any sorted list, panics iff some eligible entry has no priority, and otherwise returns exactly the profiles of the eligible entries of least priority |
| `Recommendation.GetRecommendProfilesNames` | controllers/recommend.go:80-137 | the same of the gathered, unsorted entries, whatever the unstable sort did and for every int64 priority |
| `Recommendation.ChoiceIgnoresOrder` | controllers/recommend.go:80-137 | choice and panic depend only on which entries there are |
| `Recommendation.GetRecommendProfiles` | controllers/recommend.go:53-78 | gather, look up, check the length and sort: equal to the declarative `Recommended`, with its panic and error cases |
| `RecommendationLaws.LengthIsTotalMultiplicity` | controllers/recommend.go:53-70 | the number compared with the number of chosen names is the sum of the multiplicities of those names |
| `RecommendationLaws.LengthCheck` | controllers/recommend.go:65-70 | the check passes iff the multiplicities add up; it passes with all names found iff every chosen name is defined exactly once; what it says when no name repeats |
| `RecommendationLaws.LengthCheckIsFooled` | controllers/recommend.go:65-70 | a missing and a duplicated name pass the check: the recommended `b` is not defined anywhere, and no error is returned |
| `RecommendationLaws.NilPriorityPanics` | controllers/recommend.go:103-128 | a lone matching entry without a priority makes the selection panic |
| `RecommendationLaws.NamelessProfilePanics` | controllers/recommend.go:53-63 | a nameless profile makes the selection panic |
| `RecommendationLaws.UniqueNamesLookup` | controllers/recommend.go:53-78 | with unique names the lookup succeeds iff every chosen name is defined, and then returns precisely the profiles of those names with strictly increasing names |
| `RecommendationLaws.StrictOrderIsUnique` | controllers/recommend.go:71-75 | a strictly increasing sequence of profiles is determined by its elements |
| `RecommendationLaws.PermutedListHasSameEntries` | controllers/recommend.go:53-94 | permuting the list of PtpConfigs keeps the entries |
| `RecommendationLaws.PermutedConfigsHaveSameEntries` | controllers/recommend.go:53-94 | so does permuting the entries and profiles within each PtpConfig |
| `RecommendationLaws.SelectionIgnoresOrder` | controllers/recommend.go:53-137 | reordering entries and profiles changes neither panic nor error nor the multiset of profiles, and nothing at all when no chosen name repeats |
| `RecommendationLaws.OrderIsIrrelevant` | controllers/recommend.go:53-137 | the same of two lists of PtpConfigs that hold the same entries |
| `SelectionMeaning.SelectionOfConfigs` | controllers/recommend.go:53-163 | on the PtpConfigs themselves: when the selection panics, when it fails, and that it otherwise consists of just the defined profiles whose name is offered to the node, by name or label key, at the least priority, in increasing order of their names |
| `SelectionMeaning.LabelKeySelects` | controllers/recommend.go:139-163 | a single entry with one rule on a label selects its profile iff the node has a label with that key |
| `Preemption.OverrideEntryTargets` | test/pkg/ptphelper/ptphelper.go:348-360 | the mutated entry matches the named node and the nodes that match a rule the mutation leaves in place |
| `Preemption.MutationMeans` | test/pkg/ptphelper/ptphelper.go:348-360 | what the mutation sets, and that every other part of the config stays |
| `Preemption.MutableIff` | test/pkg/ptphelper/ptphelper.go:348-360 | when the mutation does not panic, and which namespace and name the temporary policy has |
| `Preemption.OverrideSparesOtherNodes` | test/pkg/ptphelper/ptphelper.go:348-360 | under a fresh name, every node that the mutated entry does not match gets what it would get from the rest of the config alone |
| `Preemption.ChosenWithOverride` | controllers/recommend.go:103-136 | on a node it matches, the priority-0 entry is the only choice iff every competing entry is behind priority 0 |
| `Preemption.OverrideTakesTarget` | test/pkg/ptphelper/ptphelper.go:348-360 | a node that the mutated entry matches gets exactly the mutated profile iff every entry that competes for it has a priority above 0 and no listed profile lacks a name |
| `Preemption.NothingRemains` | test/pkg/ptphelper/ptphelper.go:348-360 | a config with one profile and one entry brings nothing along besides the override |
| `Preemption.OverrideIsReverted` | test/pkg/ptphelper/ptphelper.go:348-360 | deleting the temporary policy by its namespace and name gives the list back, so the next reconcile sees what the one before the override saw |
| `Override.OverriddenText` | controllers/ptpconfig_controller.go:85-96 | the text stored for the target is that of the mutated profile, and for any node the entry does not match what it would be without it |
| `Override.OverrideOnMap` | controllers/ptpconfig_controller.go:80-96 | with distinct node names, the computed map changes in the target's entry alone |
| `Override.OverrideRoundTrip` | controllers/ptpconfig_controller.go:49-112 | override, quiet reconcile, deletion, quiet reconcile: the stored data is first the map with the target's entry replaced, and then what it was to begin with |
| `Text.SplitJoin` | api/v1/ptpconfig_webhook.go:61-70 | splitting undoes joining for pieces without the separator |
| `Text.JoinSplit` | api/v1/ptpconfig_webhook.go:61-70 | joining undoes splitting |
| `Text.TrimTwice` | api/v1/ptpconfig_webhook.go:84-84 | trimming leaves no outer blank, adds no character and is idempotent |
| `Text.TrimDropsBlanks` | api/v1/ptpconfig_webhook.go:84-84 | the blanks in front of and behind a visible text are removed, and nothing else |
| `Text.LessIsFirstDifference` | controllers/recommend.go:71-75 | names compare by the code points at their first difference |
| `Ptp4lConf.Ptp4lConfig.ReadLine` | api/v1/ptpconfig_webhook.go:72-93 | one round of the parser loop on the `sections` field: what it changes and which error it returns |
| `Ptp4lConf.Ptp4lConfig.Populate` | api/v1/ptpconfig_webhook.go:61-99 | the sections and the error the parser leaves, on success and on failure, as the fold that `Ptp4lReading` gives a meaning to |
| `Ptp4lConf.ErrorEnds` | api/v1/ptpconfig_webhook.go:72-93 | the first error ends the scan with the sections read so far |
| `Ptp4lConf.LinesAreSeparated` | api/v1/ptpconfig_webhook.go:61-70 | the lines are what the newlines separate |
| `Ptp4lConf.HeaderLine` | api/v1/ptpconfig_webhook.go:73-83 | `[name]` with anything behind it is the header of that section |
| `Ptp4lConf.UnclosedLine` | api/v1/ptpconfig_webhook.go:73-79 | `[name` is an unclosed header |
| `Ptp4lConf.OptionLine` | api/v1/ptpconfig_webhook.go:84-90 | a key, a blank and a value assign the trimmed value |
| `Ptp4lConf.EmptyLine` | api/v1/ptpconfig_webhook.go:84-90 | a line without a blank, or with one in front, assigns nothing |
| `Ptp4lReading.ParserIsReading` | api/v1/ptpconfig_webhook.go:61-99 | the parser fails iff the first line is no closed header or some header lacks `]`; on success every section is the reading of all lines, and `[global]` is there, empty if no line opens it; on failure the sections are the reading of the lines before the first bad one |
| `Ptp4lReading.ScanUnderstood` | api/v1/ptpconfig_webhook.go:72-93 | after every line: an option is the last assignment between the last header of its section and the next header |
| `Ptp4lReading.ScanStopsAtFirstBad` | api/v1/ptpconfig_webhook.go:72-93 | the first bad line decides the error, and nothing behind it has any effect |
| `Ptp4lReading.ReadingIsUnique` | api/v1/ptpconfig_webhook.go:61-99 | the lines have only one reading |
| `Ptp4lReading.ReadsAllIsUnique` | api/v1/ptpconfig_webhook.go:61-99 | nor can a text that is read leave any other sections |
| `Ptp4lReading.NilConfigIsRejected` | api/v1/ptpconfig_webhook.go:61-93 | a nil text is an error and leaves no section |
| `Interfaces.GetInterfacesOf` | api/v1/ptpconfig_webhook.go:178-187 | the names of the sections with that role, for some walk of the sections |
| `Interfaces.GetInterfaces` | api/v1/ptpconfig_webhook.go:189-220 | nothing without a profile; otherwise the resolved names of the first profile's sections, also after a parse error, with the slave fallback |
| `Interfaces.InterfacesMember` | api/v1/ptpconfig_webhook.go:189-220 | exactly which names are returned, whatever the walk |
| `Interfaces.RoleSpelled` | api/v1/ptpconfig_webhook.go:178-187 | `masterOnly` is 1 for a master and 0 for a slave, blanks aside |
| `Interfaces.WalkOrderIsIrrelevant` | api/v1/ptpconfig_webhook.go:178-220 | another walk of the map returns the same names with the same multiplicities |
| `Interfaces.SlaveFallsBack` | api/v1/ptpconfig_webhook.go:213-218 | without a slave section the slave interface is the profile's own |
| `Interfaces.FallbackRepeatsInterface` | api/v1/ptpconfig_webhook.go:201-218 | the fallback returns an interface that the master role returns too iff a master section stands for it or for `global` |
| `Validation.CheckSections` | api/v1/ptpconfig_webhook.go:106-116 | accepts iff every section is `[global]` or the profile's own |
| `Validation.CheckSettings` | api/v1/ptpconfig_webhook.go:124-145 | accepts iff every setting is allowed, unknown ones being rejected |
| `Validation.ValidateProfile` | api/v1/ptpconfig_webhook.go:101-146 | accepts iff the sections, the scheduling fields and the settings are allowed; parse errors are dropped |
| `Validation.Validate` | api/v1/ptpconfig_webhook.go:101-148 | accepts iff every profile is admitted |
| `Validation.AdmittedIff` | api/v1/ptpconfig_webhook.go:101-146 | in full when a profile is admitted: sections, scheduling fields, and the value of each of the three settings |
| `Validation.TruthValues` | api/v1/ptpconfig_webhook.go:129-133 | `logReduce` is a truth value in any mixture of upper and lower case |
| `Validation.AdmittedUsesOwnInterface` | api/v1/ptpconfig_webhook.go:101-116 | once a profile naming a plain interface is admitted, every name it yields in either role is that interface, even if its text is malformed |
| `HaProfiles.PatternAcceptsLists` | api/v1/ptpconfig_webhook.go:43-43 | the pattern, as a regular expression, accepts exactly the lists of non-empty words with a comma and optional blanks between them |
| `HaProfiles.SplitRecoversWords` | api/v1/ptpconfig_webhook.go:137-140 | splitting at commas and trimming recovers the words of any such list, so they are unique |
| `HaProfiles.MatchesIsPattern` | api/v1/ptpconfig_webhook.go:137-140 | the piecewise decision used by the validator agrees with the regular expression |
| `HaProfiles.OneCharacterNames` | api/v1/ptpconfig_webhook.go:43-43 | the names of one character that the pattern accepts, by code point |
| `HaProfiles.CharacterBehindComma` | api/v1/ptpconfig_webhook.go:43-43 | what may stand between a comma and the next name |
| `Printer.ParseAdded` | test/pkg/testconfig/testconfig.go:1171-1173 | printing one more interface and parsing sets exactly that interface's section |
| `Printer.PrintedText` | test/pkg/testconfig/testconfig.go:1171-1173 | the text appended for either role, literally |
| `Printer.ParseAddedAll` | test/pkg/testconfig/testconfig.go:1171-1173 | parsing a printed text yields the base sections updated entry by entry |
| `Printer.PrintedInterfaces` | test/pkg/testconfig/testconfig.go:1171-1173 | without a profile interface, exactly the names whose last role was asked for are returned, each once |
| `Printer.MasterOnlySection` | api/v1/ptpconfig_webhook.go:178-220 | from the literal text: a section with `masterOnly 1` is the only master, with `masterOnly 0` the only slave |
| `Printer.GlobalRole` | api/v1/ptpconfig_webhook.go:201-212 | from the literal text: a role in `[global]` is one of the profile's own interface, and of nothing without one |
| `Printer.OwnSectionAdmitted` | api/v1/ptpconfig_webhook.go:101-116 | from the literal text: a section is admitted beside an own interface iff it is that interface's |
| `Printer.BaseLines` | test/pkg/testconfig/testconfig.go:169-175 | the lines that the base texts consist of |
| `Printer.BaseIsNeutral` | test/pkg/testconfig/testconfig.go:169-175 | the base text parses to a single `[global]` section without a role |
| `Printer.BoundaryClockBaseIsNeutral` | test/pkg/testconfig/testconfig.go:745-745 | so does the text a boundary clock starts from |
| `Discovery.CountInterfaces` | test/pkg/testconfig/testconfig.go:1279-1280 | the number of interfaces is a function of the config, although the walk is not |
| `Discovery.IsSecondaryBc` | test/pkg/ptphelper/ptphelper.go:555-562 | true iff no profile has phc2sys options |
| `Discovery.TestConfig.Examine` | test/pkg/testconfig/testconfig.go:1288-1307 | one round of the loop on the fields and counters, and when it dereferences nil |
| `Discovery.TestConfig.DiscoverMode` | test/pkg/testconfig/testconfig.go:1266-1316 | panics iff some config of the grand master shape has no `Ts2PhcConf`; otherwise status and mode are those the classification of the configs calls for, and each field that remembers a config holds the last one that claims it, or what it held before |
| `Discovery.TestConfig.Conclude` | test/pkg/testconfig/testconfig.go:1309-1316 | the counters decide over what the loop left |
| `Discovery.DiscoveryIgnoresOrder` | test/pkg/testconfig/testconfig.go:1266-1316 | mode, success and panic depend only on the multiset of configs |
| `Discovery.TestConfig.ConcludedMeans` | test/pkg/testconfig/testconfig.go:1266-1316 | mode, status and remembered configs after a discovery, in terms of the number of interfaces each config has in each role, its `ts2phcConf` and its phc2sys options |
| `Discovery.DiscoveredMode` | test/pkg/testconfig/testconfig.go:1278-1316 | the classification and the nil dereference in the same terms |
| `Discovery.FirstProfileDecides` | api/v1/ptpconfig_webhook.go:189-220 | only the first profile of a config has interfaces |
| `Discovery.LoneClassification` | test/pkg/testconfig/testconfig.go:1278-1316 | what one config on its own is classified as, by its numbers of masters and slaves |
| `Discovery.BoundaryClockInterfaces` | test/pkg/testconfig/testconfig.go:745-747 | the boundary clock text has exactly its two interfaces in their roles, unless they are one |
| `Discovery.GeneratedBoundaryClock` | test/pkg/testconfig/testconfig.go:732-766 | the generated config is classified as a boundary clock iff its interfaces differ |
| `Discovery.PrintedMode` | test/pkg/testconfig/testconfig.go:1278-1316 | the mode of any printed config: which roles it was asked for, and how often, decides |
| `Discovery.TwoMastersReadNil` | test/pkg/testconfig/testconfig.go:1300-1300 | a printed config with two masters, no interface of its own and no `ts2phcConf` makes the discovery dereference nil |
| `Discovery.GeneratedOrdinaryClock` | test/pkg/testconfig/testconfig.go:768-798 | the generated config has its own interface as only slave and is classified as an ordinary clock |
| `NodeAssignment.BuildNodeMap` | controllers/ptpconfig_controller.go:80-96 | the node loop returns the whole map, or the failure of the first node that has one, a failing encoding included; with distinct names each entry is the text of all profiles selected for its node |
| `NodeAssignment.AssignmentMeans` | controllers/ptpconfig_controller.go:80-96 | the map exists iff every listed node has a selection that can be encoded; it has just the listed names, each with the text of all profiles selected for the last node of that name |
| `NodeAssignment.AssignmentIsTheStoredMap` | controllers/ptpconfig_controller.go:80-96 | no other map is like that |
| `NodeAssignment.FirstFailure` | controllers/ptpconfig_controller.go:85-94 | the first node without a selection or text decides between panic and error |
| `NodeAssignment.AssignmentExistsIff` | controllers/ptpconfig_controller.go:85-96 | the map exists iff every listed node has a selection that can be encoded |
| `NodeAssignment.AssignmentContents` | controllers/ptpconfig_controller.go:85-96 | the map has exactly the listed names, each with the text for the last node of that name |
| `NodeAssignment.DistinctContents` | controllers/ptpconfig_controller.go:85-96 | with distinct node names it is the only map with the listed names and the right text for each node |
| `NodeAssignment.AssignmentIgnoresOrder` | controllers/ptpconfig_controller.go:85-96 | with unique profile names the order of configs, entries and nodes has no influence on the map |
| `ConfigMapProtocol.SyncPtpConfig` | controllers/ptpconfig_controller.go:77-112 | with nothing in between, the whole data is replaced or nothing is, and when which happens |
| `ConfigMapProtocol.SyncIsRun` | controllers/ptpconfig_controller.go:77-112 | what that method leaves is what the steps of one reconcile leave when they follow each other |
| `ConfigMapProtocol.ApiServer.Update` | controllers/ptpconfig_controller.go:104-108 | an update goes through only for the version that was read, and gets a new version |
| `ConfigMapProtocol.StepKeepsInvariant` | controllers/ptpconfig_controller.go:49-112 | every step of every actor keeps the invariant |
| `ConfigMapProtocol.OperatorKeepsInvariant` | controllers/ptpoperatorconfig_controller.go:154-180 | the create-if-absent steps keep it |
| `ConfigMapProtocol.OperatorNeverOverwrites` | controllers/ptpoperatorconfig_controller.go:154-180 | they create an empty map if there is none, and never touch one that is there |
| `ConfigMapProtocol.RunKeepsInvariant` | controllers/ptpconfig_controller.go:49-112 | the invariant holds in every reachable state |
| `ConfigMapProtocol.StoredMapIsEmptyOrComplete` | controllers/ptpconfig_controller.go:49-112 | in every reachable state the stored data is empty, or holds the text of all profiles selected for each node by one past list of PtpConfigs, for one no-earlier list of nodes, and nothing else |
| `ConfigMapProtocol.UpdateReplacesWhatItSaw` | controllers/ptpconfig_controller.go:98-110 | an update that goes through replaces exactly the data its reconcile had fetched |
| `ConfigMapProtocol.SerialRunsGoForwards` | controllers/ptpconfig_controller.go:49-112 | with the reconciles serialised the snapshots behind the stored map never go backwards |
| `ConfigMapProtocol.LateFetchOverwritesNewer` | controllers/ptpconfig_controller.go:98-110 | otherwise a reconcile that lists early and fetches late replaces whatever was written since by its older snapshot |
| `ConfigMapProtocol.OverlapGoesBackwards` | controllers/ptpconfig_controller.go:49-112 | a run, from any state with a map, of two overlapping reconciles with an edit between their lists, after which the map is the one for the older PtpConfigs |
| `ConfigMapProtocol.TwoWorkersGoBackwards` | controllers/ptpconfig_controller.go:49-112 | with two reconciles at a time and one creator, every initial state has such a run |
| `ConfigMapProtocol.ForwardsIff` | controllers/ptpconfig_controller.go:49-118 | from an initial state, the snapshots go forwards in every run iff at most one reconcile runs at a time or nobody creates the map |
| `ConfigMapProtocol.QuietReconcileConverges` | controllers/ptpconfig_controller.go:49-112 | an undisturbed reconcile makes the map current, or leaves it alone if some node has no selection |
| `OperatorSync.Cluster.SyncNodePtpDevice` | controllers/ptpoperatorconfig_controller.go:295-318 | exactly the nodes before the first failing one get a device, and an error is returned iff there is a failing one |
| `OperatorSync.Cluster.CreatePTPConfigMap` | controllers/ptpoperatorconfig_controller.go:154-180 | create if absent, with its two failures |
| `OperatorSync.Cluster.CreateLeapConfigMap` | controllers/ptpoperatorconfig_controller.go:126-151 | create if absent, with its two failures |
| `OperatorSync.Cluster.Reconcile` | controllers/ptpoperatorconfig_controller.go:66-123 | the whole reconcile as a function of the objects, the nodes and the failures |
| `OperatorSync.SyncSucceedsIff` | controllers/ptpoperatorconfig_controller.go:295-318 | the synchronisation succeeds iff no listed node fails, and then every listed node has a device |
| `OperatorSync.CreatesShrinkLacking` | controllers/ptpoperatorconfig_controller.go:295-318 | every create takes exactly one name out of the listed nodes that lack a device |
| `OperatorSync.ReconcileOnlyCreates` | controllers/ptpoperatorconfig_controller.go:66-123 | no object is changed or deleted, and what is new is empty and for a listed node |
| `OperatorSync.SuccessMeansComplete` | controllers/ptpoperatorconfig_controller.go:66-123 | a reconcile without error leaves nothing missing, unless it had to create the operator config, when it does nothing else |
| `OperatorSync.ErrorIff` | controllers/ptpoperatorconfig_controller.go:66-123 | exactly when a reconcile reports an error |
| `OperatorSync.NoFaultNoError` | controllers/ptpoperatorconfig_controller.go:66-123 | it reports none if no call fails, also when it creates the operator config |
| `OperatorProtocol.OperatorOnlyCreates` | controllers/ptpoperatorconfig_controller.go:66-318 | every call leaves all objects as they are, or adds one empty object |
| `OperatorProtocol.RunOnlyCreates` | controllers/ptpoperatorconfig_controller.go:66-318 | in any interleaving of reconciles with arbitrary failures and node changes, no object is changed or deleted, and what is new is empty |
| `OperatorProtocol.RunMakesListed` | controllers/ptpoperatorconfig_controller.go:295-318 | a device is made only for a node that was listed |
| `OperatorProtocol.RunSpares` | controllers/ptpoperatorconfig_controller.go:66-318 | with other writers in between, an object that these leave alone stays as it was |
| `OperatorProtocol.RunCreatesAtMostLacking` | controllers/ptpoperatorconfig_controller.go:295-318 | in any interleaving, the devices created are at most those that were lacking for the nodes ever listed, plus those that others removed |
| `OperatorProtocol.FinishedSawAll` | controllers/ptpoperatorconfig_controller.go:90-115 | a reconcile that got through its list saw or made each listed node's device and both maps while it was under way |
| `OperatorProtocol.CompleteStays` | controllers/ptpoperatorconfig_controller.go:66-318 | what is complete for some nodes stays complete in any interleaving in which the other writers leave these objects alone |
| `OperatorProtocol.CompleteIsQuiet` | controllers/ptpoperatorconfig_controller.go:66-318 | once everything is there for the nodes ever listed, no interleaving of reconciles changes any object |
| `OperatorProtocol.UndisturbedIsReconciled` | controllers/ptpoperatorconfig_controller.go:66-123 | the calls of one reconcile, following each other, leave the objects that `Cluster.Reconcile` leaves |
| `Unstructured.Unstructured.SetNestedField` | vendor/k8s.io/apimachinery/pkg/apis/meta/v1/unstructured/helpers.go:206-230 | writes below a missing or an object field, fails below any other |
| `Unstructured.PutThenRead` | vendor/k8s.io/apimachinery/pkg/apis/meta/v1/unstructured/unstructured.go:274-423 | what a metadata setter writes its getter reads, every other field stays, and metadata that is no object is left as it is |
| `Unstructured.StringsRoundTrip` | vendor/k8s.io/apimachinery/pkg/apis/meta/v1/unstructured/unstructured.go:399-423 | annotations and labels read back as they were written, unless metadata is no object |
| `Merge.MergeStrings` | pkg/apply/merge.go:125-155 | the loop yields the right-biased join, for any walk of the map |
| `Merge.MergeDeploymentForUpdate` | pkg/apply/merge.go:54-77 | the desired annotations with the current revision |
| `Merge.MergeServiceForUpdate` | pkg/apply/merge.go:80-94 | the current cluster address, or the error of reading or writing it |
| `Merge.MergeServiceAccountForUpdate` | pkg/apply/merge.go:100-121 | the current lists, and how far the update got before an error |
| `Merge.MergeMetadataForUpdate` | pkg/apply/merge.go:12-23 | the five read-only fields, then the joined annotations and labels |
| `Merge.MergeObjectForUpdate` | pkg/apply/merge.go:28-47 | the updated object and the error as a function of both inputs; the current object is not modified |
| `Merge.IsObjectSupported` | pkg/apply/merge.go:160-178 | an error iff a service account has a malformed or non-empty list of secrets |
| `MergeLaws.MergeMeaning` | pkg/apply/merge.go:28-155 | field by field, for any two objects: the server's fields are the current ones, annotations and labels are joined with the revision kept, kind and name are the desired ones; metadata that is no object stays as it is |
| `MergeLaws.MergeFrame` | pkg/apply/merge.go:28-121 | every other field is the desired object's |
| `MergeLaws.MergedByKind` | pkg/apply/merge.go:28-121 | at most one of the three special steps applies to an object |
| `MergeLaws.MergeFailsIff` | pkg/apply/merge.go:28-121 | exactly when a merge fails |
| `MergeLaws.MetadataFixpoint` | pkg/apply/merge.go:12-23 | merging the metadata again changes nothing |
| `MergeLaws.MergeFixpoint` | pkg/apply/merge.go:28-155 | merging the same desired object into the merged one yields it again iff the fields it does not get from the current one are well-formed; otherwise that merge fails |
| `MergeLaws.MalformedAddressIsNoFixpoint` | pkg/apply/merge.go:80-94 | a current and a desired service for which the second merge fails although the first one succeeds |
| `MergeFields.GroupedKind` | vendor/k8s.io/apimachinery/pkg/runtime/schema/group_version.go:211-227 | `group/version` is taken apart at its slash |
| `MergeFields.CoreKind` | vendor/k8s.io/apimachinery/pkg/runtime/schema/group_version.go:211-227 | a version alone is one of the core group |
| `MergeFields.NoKind` | vendor/k8s.io/apimachinery/pkg/apis/meta/v1/unstructured/unstructured.go:430-437 | two slashes leave group, version and kind empty |
| `MergeFields.AccessorsRead` | vendor/k8s.io/apimachinery/pkg/apis/meta/v1/unstructured/helpers.go:54-76 | what the metadata accessors read from the JSON fields; one value that is no text spoils a map of texts |
| `MergeFields.MergedIdentity` | pkg/apply/merge.go:12-23 | the merged fields: UID, creation time, self link, version and generation are current, name and namespace desired |
| `MergeFields.OtherMetadataIsDesired` | pkg/apply/merge.go:12-23 | all other metadata is the desired object's |
| `MergeFields.MergedMapsAreWritten` | pkg/apply/merge.go:125-155 | annotations and labels are written even if they are empty |
| `MergeFields.DesiredTextsWin` | pkg/apply/merge.go:125-155 | desired annotations and labels win, and no current one is lost |
| `MergeFields.DeploymentKeepsRevision` | pkg/apply/merge.go:54-77 | an `apps/v1` Deployment keeps the revision that the current object is annotated with |
| `MergeFields.ServiceKeepsAddress` | pkg/apply/merge.go:80-94 | a `v1` Service keeps the current `clusterIP` |
| `MergeFields.ServiceFailsIff` | pkg/apply/merge.go:80-94 | which fields make the merge of a Service fail; a missing or null specification does not |
| `MergeFields.AccountKeepsLists` | pkg/apply/merge.go:100-121 | a `v1` ServiceAccount keeps both current lists |
| `MergeFields.AccountFailsIff` | pkg/apply/merge.go:100-121 | which fields make the merge of a ServiceAccount fail; no other kind but a Service can |
| `MergeFields.SupportedObjects` | pkg/apply/merge.go:160-178 | a `v1` ServiceAccount is supported iff its secrets are absent or an empty list, and every other kind or group is |
| `Apply.ApplyObject` | pkg/apply/apply.go:19-65 | get, create or merge and update: the store, the error and what the desired object is turned into, as a function of the store, the object and the failing call |
| `Apply.ApplyMeaning` | pkg/apply/apply.go:19-65 | when an apply fails, and that the object is otherwise stored as given or merged into the one there was |
| `Apply.KeysTellApart` | pkg/apply/apply.go:19-36 | objects are kept apart by group, version, kind, namespace and name |
| `Apply.MergeKeepsKey` | pkg/apply/apply.go:53-58 | the merged object is stored where the current one was |
| `Apply.ApplyFrame` | pkg/apply/apply.go:19-65 | an apply that errors leaves the store unchanged, and no apply touches another object |
| `Apply.ApplyExistingTwice` | pkg/apply/apply.go:53-61 | a second apply of the same object writes nothing, and errors iff the merge is no fixpoint |
| `Apply.TwoAppliesSettle` | pkg/apply/apply.go:19-65 | whatever was there, after two applies without error a third writes nothing |
| `Apply.RunProtects` | pkg/apply/apply.go:19-65 | over any run with any failures, UID, creation time, cluster address, secrets and revision of an existing object never change, and its labels and annotations only grow |
| `Apply.RunJoins` | pkg/apply/apply.go:19-65 | over any run, its labels and annotations are the right-biased join of all maps applied without error, a deployment's revision aside |
| `ApplyProtocol.WriteReplacesWhatItRead` | pkg/apply/apply.go:36-61 | in every reachable state, a write that goes through creates an absent object or replaces exactly the object its apply had read, by its merge |
| `ApplyProtocol.RunKeepsInvariant` | pkg/apply/apply.go:36-61 | in any interleaving, an object with the version that an apply has read is the object it has read |
| `ApplyProtocol.RunOwns` | pkg/apply/apply.go:19-65 | in any interleaving, what `Apply.RunProtects` says survives unless another writer changes it |
| `ApplyProtocol.UndisturbedIsApplied` | pkg/apply/apply.go:19-65 | undisturbed, read and write store what `ApplyObject` stores |
| `DeepCopy.CopyRule` | api/v1/zz_generated.deepcopy.go:49-61 | an equal rule whose pointers are new |
| `DeepCopy.CopyRecommend` | api/v1/zz_generated.deepcopy.go:579-598 | an equal entry of which everything reachable is new |
| `DeepCopy.CopyProfile` | api/v1/zz_generated.deepcopy.go:476-566 | an equal profile of which everything reachable is new |
| `DeepCopy.CopyPlugins` | api/v1/zz_generated.deepcopy.go:549-565 | an equal map of plugins, their slices of bytes included, nil entries staying nil, for any walk of the map |
| `DeepCopy.CopyProfiles` | api/v1/zz_generated.deepcopy.go:276-282 | an equal slice of profiles of which everything reachable is new |
| `DeepCopy.CopyRecommends` | api/v1/zz_generated.deepcopy.go:283-289 | an equal slice of entries of which everything reachable is new, no two sharing their rules |
| `DeepCopy.DeepCopyConfig` | api/v1/zz_generated.deepcopy.go:215-231 | an equal config of which everything reachable is new |
| `DeepCopy.MutateProfile` | test/pkg/ptphelper/ptphelper.go:348-360 | nothing that existed is modified; the index panic happens iff there is no profile, entry or rule; otherwise the result shares nothing with the argument and is the override that `Preemption` reasons about |
| `DeepCopy.RecommendFields` | api/v1/zz_generated.deepcopy.go:579-598 | what "equal" and "everything reachable" mean for an entry, pointer by pointer |
| `DeepCopy.ProfileFields` | api/v1/zz_generated.deepcopy.go:476-566 | what "equal" means for a profile: each of its fifteen fields is absent iff its pointer is nil, and otherwise what it points to |
| `DeepCopy.ProfilePointers` | api/v1/zz_generated.deepcopy.go:476-566 | every pointer of a profile, and every slice of bytes, is among what is reachable |
| `DeepCopy.ConfigFields` | api/v1/zz_generated.deepcopy.go:215-231 | what both mean for a config |

## Left out

- Text is a sequence of code points; encoding and invalid UTF-8 are not modelled.
- `strings.ToLower` is modelled on ASCII letters: no other code point has a lower case that occurs in `true` or `false`.
- The JSON text of a node's profiles is an arbitrary partial function of the profiles; nothing is assumed about which profiles share a text.
- `regexp.Compile` for `stdoutFilter` is a parameter; error messages and logging are dropped.
- DeepCopyConfig: the status and the metadata other than namespace and name are not in the object, since `MutateProfile` resets the metadata at once and no modelled code reads the status.
- MutateProfile: does not say that the status is copied, for the same reason.
- The fifteen pointers of a profile are grouped in nested structs, so that their copies can be proved group by group; the write through `out` is a result.
- A nil slice and an empty slice have the same value in `PtpConfig` and in a plugin, though `DeepCopy` keeps them apart on the heap.
- MergeMetadataForUpdate: the creation timestamp is copied as text; its parsing and reformatting by the metadata accessors is not modelled.
- Nested maps of a JSON object are values: the model does not capture aliasing between the desired object and values set in it, which the accessors copy.
- Defaulting and admission by the server: the store of `Apply` keeps what it is given, and that of `ApplyProtocol` changes the version alone.
- Informer cache lag: a List returns the state at the time of its step.
- Reconcile: the daemon synchronisation at its end is a flag that says whether it fails.
- The lists at the start of the PtpConfig reconcile appear only as steps of `ConfigMapProtocol`, not as a method.
- In `OperatorProtocol` a Create that loses a race fails; owner references are not in the objects.
- `syncLinuxptpDaemon`, the templates and the rendered manifests: what the daemon synchronisation applies is arbitrary input to `Apply`.
- The pod lookup at the end of `discoverMode`, and all helpers that talk to a cluster.
- Network constraint tables, the graph solver, version parsing and metric helpers of the tests: finite data or easy loops.
