# A verified model of the cluster-inspection server

The server answers questions about a Kubernetes cluster. This project models the parts of it
that hold state or decide something, and proves what they are for.

- **Result cache** (`LruOrder`, `ResultCaches`, `Flights`, `FlightOrder`). `LruOrder` is the
  specification: a recency-ordered list of keyed entries with a lifetime and a cap. `ResultCaches` is the
  imperative cache, a map into a doubly linked list with a root element, whose methods are
  proved to compute that specification. `Flights` is the concurrent `do`: any number of
  threads, where every lookup, join, recheck, call of the producer, store and leave is one
  step, and the clock moves in between; `FlightOrder` says what recency means there.
- **Redactor** (`Redaction`, `RedactInPlace`, `RedactionLaws`, `RedactionSecrets`,
  `RedactionSites`, `RedactionFixpoint`, `RedactionUrls`). `Redact` is one function on JSON
  trees and `Sites` the set of leaves it selects, which `RedactionSites` describes leaf by leaf. `RedactInPlace` walks
  map and slice cells on the heap, in whatever order the maps yield their keys, and is proved
  to leave exactly that tree and to count exactly those leaves.
- **Listing and disruption audit** (`Listing`, `PodScan`, `OwnerResolution`, `AuditOwners`,
  `Engines`, `DataServices`). Paged scans, the join of pods with disruption budgets, owner resolution
  over an unordered set, image-based detection and the fold of replica sets into masters.
- **Policy** (`Policy`, `PolicyMeaning`, `PolicyOmissions`, `ReportedConditions`,
  `PolicyReport`, `ReportedFindings`). The decision whether a rule applies, made from kind and namespace alone,
  and what is told with it, against the meaning of match and exclude for one object; and the
  counting, ranking and cutting of policy results.
- **Debug pods** (`OutputBuffer`, `Groups`). The bounded output buffer and the group cache.

`Text`, `JsonTree`, `Folds`, `Ordering`, `Workloads` and `Outcomes` hold what these share.
`dafny verify dfyconfig.toml` checks everything.

## Where the code falls short of a simple reading

Each of these is stated as an exact condition, with the input that shows it.

- Redacting twice is not always redacting once. It is, exactly when no object's `name` becomes
  sensitive by being rewritten (`FixpointExactly`). A URL name does that (`UrlCounterexample`,
  and `UrlCounterexampleHappens` with a library), and so does a flag-shaped name whose text
  normalises to a reference key (`FlagNameFlips`, `FlagCounterexample`).
- A selector that cannot be read is taken as matching. In a match filter that shows the rule,
  as the comment at `internal/mcp/policy.go:291` says; in an exclude filter it hides the rule.
  `FalseOmissionExactly` says, for every rule, when this loses one that could govern an object;
  `UnreadableExcludeHides` is a family of inputs.
- Without a kind, an exclude filter for one kind hides the rule for all kinds
  (`EmptyKindHides`). `EmptyKindSoundExactly` says, for every rule, when the answer is right
  all the same: finitely many kinds decide it.
- What is reported with a rule is less, or more, than what it asks. Users and the conditions
  of its exclusion are not reported (`UsersAreNotReported`, `ExcludedNamesAreNotReported`), and
  under `any`, where one match filter is enough, the conditions of all of them are reported
  together (`AnyIsReportedAsAll`). `ReportedConditionsAreExact` says, for every rule, when the
  reported conditions describe the governed objects: exactly when the match hits by filters
  that are readable and name no users, the exclude filters do not hit by kind and namespace,
  and all match filters must hold or the hit ones ask for the same.
- A secret inside a string leaves no trace in the redaction, except in a `name`, where it may
  decide whether the value beside it is redacted. `NameSecretExactly` is the exact condition,
  `NameSecretShows` an input.
- The API version of an owner that is not a known workload is the first one the set yields.
  `OwnerResolution.OrderIndependentExactly` says when that choice shows; `VersionDependsOnOrder`
  is an input.
- Two keywords of one length in one image: the first listed is the engine.
  `Engines.OrderIndependentExactly` says when the order shows, `OrderCanMatter` is an input from
  the server's own keywords.
- A custom listing that meets `NotFound` after a first page feeds that page and then the next
  version's items. `FedExactlyOnce` is the exact condition, `LateNotFoundFeedsTwice` an input.
- A replica set folded into a master whose image is not recognised disappears from the audit.
  `NothingLostExactly` is the exact condition, `ReplicasBalance` the exact difference and
  `ReplicaDisappears` an input.

## Model

| member | source | states |
|---|---|---|
| LruOrder.OperationsKeepOrder | internal/mcp/cache.go:40-78 | lookups and stores keep keys distinct and, after a store, at most `max` entries |
| LruOrder.GetLooksUp | internal/mcp/cache.go:40-54 | a lookup answers exactly the unexpired entry of its key, drops it if expired, and disturbs no other key |
| LruOrder.PutLooksUp | internal/mcp/cache.go:56-70 | after a store its key has the new value and lifetime, and any other key keeps its entry or is evicted |
| LruOrder.EvictsOnlyTail | internal/mcp/cache.go:65-69 | storing a new key removes nothing but the least recently used tail |
| LruOrder.DoRunsOnMiss | internal/mcp/cache.go:83-101 | alone, `do` runs the producer exactly on a miss, and an error changes nothing but an expired entry |
| LruOrder.CacheHoldsMostRecent | internal/mcp/cache.go:40-101 | after any successful calls, whatever the clock and lifetime, the keys are the first `max` in most-recently-used order |
| LruOrder.MostRecentIsEveryKey | internal/mcp/cache.go:40-101 | that most-recently-used order lists exactly the keys that were called |
| LruOrder.InclusionProperty | internal/mcp/cache.go:40-101 | on one trace, the smaller cache's key order is a prefix of the larger's, even under different lifetimes |
| ResultCaches.List.PushFront | internal/mcp/cache.go:65 | linking a new element at the front of the ring of nodes |
| ResultCaches.List.Remove | internal/mcp/cache.go:76 | unlinking one element keeps the ring and the order of the others |
| ResultCaches.List.MoveToFront | internal/mcp/cache.go:52 | an element moves to the front and the others keep their order |
| ResultCaches.ResultCache.constructor | internal/mcp/cache.go:31-38 | a new cache is empty and its map and list agree |
| ResultCaches.ResultCache.RemoveElement | internal/mcp/cache.go:72-78 | map and list lose the same entry and still agree |
| ResultCaches.ResultCache.Evict | internal/mcp/cache.go:67-69 | the eviction loop keeps exactly the first `max` entries |
| ResultCaches.ResultCache.Get | internal/mcp/cache.go:40-54 | map and list stay in bijection, and contents and answer are those of the specification |
| ResultCaches.ResultCache.Put | internal/mcp/cache.go:56-70 | map and list stay in bijection, and the contents are those of the specification |
| ResultCaches.ResultCache.Do | internal/mcp/cache.go:83-101 | the heap cache computes the specified `do` |
| Flights.StepKeepsInv | internal/mcp/cache.go:83-101 | every step of any thread keeps: distinct bounded cache, one leader per flight, waiters on live or finished flights, one busy thread per key |
| Flights.Reachable | internal/mcp/cache.go:83-101 | that invariant holds after every run |
| Flights.AtMostOneInFlight | internal/mcp/cache.go:80-97 | in every run at most one producer per key is running |
| Flights.NoCallerIsStuck | internal/mcp/cache.go:83-101 | every unfinished call can be moved forward, by its own step or its flight leader's |
| Flights.StepsMakeProgress | internal/mcp/cache.go:83-101 | every step of a call strictly decreases that call's remaining work and leaves other calls alone |
| Flights.EveryCallCanFinish | internal/mcp/cache.go:83-101 | every run can be continued, without a new call or a tick of the clock, until every call has returned |
| Flights.AloneIsDo | internal/mcp/cache.go:83-101 | the steps of one call with nothing beside it leave the cache and the answer of the sequential specification, no flight behind, and every other call where it was |
| Flights.RunsAreAccountedFor | internal/mcp/cache.go:80-101 | in every run, the producer's starts for a key equal its failures, plus the key's evictions and expiries, plus one if it is cached now, plus one if it is being produced now |
| Flights.RunsExactlyOnce | internal/mcp/cache.go:80-101 | if it neither fails nor the entry is lost, the producer starts at most once, and exactly once if any call for the key has finished, under any interleaving |
| Flights.CacheHoldsProduced | internal/mcp/cache.go:91-96 | every cached entry was stored by a successful producer for its own key: no error enters the cache |
| Flights.EveryCallIsExplained | internal/mcp/cache.go:83-101 | at any point of a run every call's phase and answer is traced to a hit, a producer or a shared flight in that run's past |
| Flights.HitsAreRecent | internal/mcp/cache.go:48-53 | a cache hit returns a value a successful producer made for that key, stored earlier in the run and no longer than the lifetime before |
| Flights.EveryAnswerIsJustified | internal/mcp/cache.go:83-101 | every returned value was unexpired in the cache at a moment of the caller's own lookup or its flight, or was produced by that flight; every error is the flight's own |
| FlightOrder.CacheIsByLastTouch | internal/mcp/cache.go:40-101 | under any interleaving the cached keys stand in strict order of the last step that touched them: a hit, a recheck that hits, or a store |
| FlightOrder.TouchedKeysAreTouched | internal/mcp/cache.go:40-101 | the order of last touches lists exactly the keys a run touched |
| FlightOrder.CacheHoldsLastTouched | internal/mcp/cache.go:40-101 | under any interleaving in which no lookup drops an expired entry, the cached keys are the first `max` in the order of last touches |
| FlightOrder.EvictedIsLeastRecent | internal/mcp/cache.go:65-69 | under any interleaving a key that a store evicts was touched before every key that stays |
| Redaction.NormalizeConcat | internal/mcp/redact.go:65-74 | normalisation distributes over concatenation |
| Redaction.NormalizeOne | internal/mcp/redact.go:65-74 | normalisation keeps lower-case letters and digits, lowers upper-case letters and drops every other character |
| Redaction.NormalizeKey | internal/mcp/redact.go:65-74 | the builder loop yields the lower-case letters and digits of the key, in order |
| Redaction.SensitiveKey | internal/mcp/redact.go:50-61 | true exactly for keys that, normalised, are none of the thirteen reference keys and contain one of the fifteen sensitive parts |
| RedactInPlace.EnvRule | internal/mcp/redact.go:86-93 | the environment rule writes one field and counts it |
| RedactInPlace.TlsRule | internal/mcp/redact.go:95-104 | the TLS rule writes one field and counts it |
| RedactInPlace.PreparedByRules | internal/mcp/redact.go:86-104 | the two rules touch different fields and neither changes what the other sees |
| RedactInPlace.VisitAfterRules | internal/mcp/redact.go:106-134 | visiting a field after the rules writes the pure function's value, and adds its leaves unless a rule already counted them |
| RedactInPlace.RedactMap | internal/mcp/redact.go:85-135 | in every visiting order the map cell ends as the pure tree function says, and the counter grows by the number of selected leaves |
| RedactInPlace.RedactSlice | internal/mcp/redact.go:137-151 | the slice is rewritten in place to the pure function's elements, and the counter grows by their selected leaves |
| RedactInPlace.RedactObject | internal/mcp/redact.go:79-83 | the whole tree on the heap becomes `Redact` of it, and the result is the exact number of selected leaves, none counted twice |
| RedactionLaws.ShapeKept | internal/mcp/redact.go:85-151 | at every path: same key sets, same lengths, same nesting, nulls stay null |
| RedactionLaws.NothingSurvives | internal/mcp/redact.go:86-134 | at every depth: scalars under a sensitive key end empty, null or as the marker, values named as sensitive and keys beside `termination` end as the marker |
| RedactionLaws.OnlySitesChange | internal/mcp/redact.go:85-198 | every unselected leaf at every depth is unchanged, and every selected one is redacted |
| RedactionSites.FlagExactly | internal/mcp/redact.go:185-198 | a flag is rewritten if and only if its name is sensitive and its value is not empty; the name stays |
| RedactionSites.UrlExactly | internal/mcp/redact.go:163-181 | a URL is rewritten if and only if the library reads a password in it; scheme, user and the rest are printed as read |
| RedactionSites.FieldSiteExactly | internal/mcp/redact.go:85-135 | for every field at every depth: it is counted if and only if it is hidden by a sensitive name beside it, by a TLS termination beside it or by its own sensitive key unless unset, or carries a secret flag or URL; and it becomes the marker, the rewritten string, or stays |
| RedactionSites.ItemSiteExactly | internal/mcp/redact.go:137-151 | for every list item at every depth: it is counted and rewritten if and only if it carries a secret flag or URL |
| RedactionSites.SitesAreLeaves | internal/mcp/redact.go:76-151 | nothing else is counted: every counted place is a scalar leaf of the tree |
| Text.TrimIs | internal/mcp/redact.go:186 | trimming takes all whitespace off both ends and nothing else |
| Text.SpaceIs | internal/mcp/redact.go:186 | whitespace is the space and the five control characters from tab to carriage return |
| Text.ReplaceFirstIs | internal/mcp/redact.go:179 | the first occurrence is replaced and the text around it stays |
| Text.ReplaceNothing | internal/mcp/redact.go:179 | without an occurrence the text stays |
| RedactionLaws.ZeroMeansUnchanged | internal/mcp/redact.go:76-83 | when no leaf is selected the object is unchanged |
| RedactionLaws.HiddenLeavesNoTrace | internal/mcp/redact.go:85-135 | two objects that differ only in a hidden value have the same redaction, wherever it sits |
| RedactionSecrets.FieldSecretLeavesNoTrace | internal/mcp/redact.go:163-198 | under any key but `name`, at any depth: two objects that differ only in the secret of a flag or in the password of a URL have the same redaction |
| RedactionSecrets.ItemSecretLeavesNoTrace | internal/mcp/redact.go:137-198 | so have two that differ only in such a secret of a list item |
| RedactionSecrets.NameSecretExactly | internal/mcp/redact.go:86-93 | under `name`, at any depth: they have the same redaction if and only if both names or neither are sensitive, or no value beside the name is at stake |
| RedactionSecrets.FlagNameSecret | internal/mcp/redact.go:185-198 | for flags both names or neither are sensitive exactly when both or neither spell a reference key |
| RedactionSecrets.NameSecretShows | internal/mcp/redact.go:86-93 | the names `-token=Secret` and `-token=abc` differ only in the secret, and the objects redact differently |
| RedactionFixpoint.FlagSettles | internal/mcp/redact.go:185-198 | redacting a redacted flag again changes nothing |
| RedactionFixpoint.FlagSensitivity | internal/mcp/redact.go:185-198 | a redacted flag is sensitive as a name; the original was, unless it normalises to a reference key |
| RedactionFixpoint.FixpointExactly | internal/mcp/redact.go:85-198 | redacting twice equals redacting once if and only if no object's name becomes sensitive by being rewritten |
| RedactionFixpoint.FlagNameFlips | internal/mcp/redact.go:88-93 | beside an unredacted value, a flag-shaped name flips exactly when its text normalises to a reference key |
| RedactionFixpoint.FlagCounterexample | internal/mcp/redact.go:86-93 | an object whose name is `-token=Secret` is not settled by one pass |
| RedactionFixpoint.UrlCounterexample | internal/mcp/redact.go:86-93 | an object whose name is a URL with user `beare` and a password is not settled by one pass |
| RedactionUrls.LocalFactsSettle | internal/mcp/redact.go:163-181 | a library that prints the escaped marker before the `@` of the user part and refuses a bracket there rewrites every URL once and for all |
| RedactionUrls.LocalFixpointExactly | internal/mcp/redact.go:85-198 | for such a library redacting twice equals redacting once if and only if no name flips |
| RedactionUrls.UrlCounterexampleHappens | internal/mcp/redact.go:86-93 | there is such a library, and with it a URL-named object that one pass does not settle |
| Listing.ListPages | internal/k8s/list.go:18-30 | follows continue tokens and delivers every item of the chain in order, ending with the chain's own error |
| Listing.DeliveredExactly | internal/k8s/list.go:18-30 | the delivered items are as many as the pages hold, and item `i` of page `j` stands where the earlier pages leave off |
| Listing.ChainIsUnique | internal/k8s/list.go:18-30 | the answers met when following tokens are determined by the server |
| Listing.ListCustom | internal/k8s/list.go:35-58 | feeds the callback and answers as trying the versions in order does |
| Listing.AnswerIsFirstServed | internal/k8s/list.go:35-58 | not installed exactly when every version is NotFound; otherwise the status of the first version that is not, and never success after a failed page |
| Listing.FedExactlyOnce | internal/k8s/list.go:40-56 | the callback gets exactly the first served version's items if and only if no earlier version delivered any |
| Listing.NotFoundFirstFeedsOnce | internal/k8s/list.go:40-56 | so it does when NotFound only comes on a first page |
| Listing.LateNotFoundFeedsTwice | internal/k8s/list.go:40-56 | there is a cluster where the first version ends with NotFound after one page, and listing feeds an item twice |
| PodScan.GroupByNamespace | internal/mcp/audit.go:214-217 | each namespace gets exactly its budgets, in listing order |
| PodScan.AddOverlaps | internal/mcp/audit.go:474-480 | each matched budget gains exactly the names of the other matched budgets |
| PodScan.RecordPod | internal/mcp/audit.go:446-481 | one pod adds to every budget its owner and its overlaps, or nothing |
| PodScan.ScanPage | internal/mcp/audit.go:441-482 | one answer of the server adds exactly the joins of its pods and passes on its continue token; a failed one adds nothing and passes on its error |
| PodScan.ScanPods | internal/mcp/audit.go:440-483 | over all pages, owners and overlaps grow by exactly the joins of the delivered pods; a failure keeps the pages before it |
| PodScan.AuditPods | internal/mcp/audit.go:214-223 | on fresh budgets, in the pods' own fields: the owners of a budget are the controllers of the unfinished pods it selects in its namespace, and those pods themselves where they have none; the overlaps are the names of the other budgets that share a running, not deleted pod with it |
| PodScan.OwnersExactly | internal/mcp/audit.go:464-470 | a selected pod with a controller brings in the controller with its version, one without brings in itself, and nothing else is an owner |
| PodScan.OverlapsExactly | internal/mcp/audit.go:472-480 | a name is an overlap exactly if another budget of that name shares a pod that is neither pending, finished nor being deleted |
| PodScan.NameTellsBudget | internal/mcp/audit.go:475-479 | with unique names, a reported name is a report about that one budget |
| PodScan.OverlapSymmetricIrreflexive | internal/mcp/audit.go:472-480 | reported overlap is symmetric and no budget overlaps itself |
| PodScan.PagingDoesNotMatter | internal/mcp/audit.go:440-483 | neither the order of the pods nor their split into pages matters |
| OwnerResolution.IndexWorkloads | internal/mcp/audit.go:229-232 | the loop builds `IndexOf` |
| OwnerResolution.IndexHoldsLast | internal/mcp/audit.go:229-232 | exactly the listed keys are indexed, each by the last workload listed under it |
| OwnerResolution.IndexIsWell | internal/mcp/audit.go:229-232 | with slash-free kinds and namespaces, every index key is that of its workload |
| OwnerResolution.ResolveOwners | internal/mcp/audit.go:485-513 | whatever order the set is visited in: ReplicaSets of a Deployment are told as the Deployment, every other reference as itself, nothing else is told, with the listed workload or else the reference's version, sorted by kind and name without duplicates |
| OwnerResolution.ReportedTells | internal/mcp/audit.go:487-504 | in every visiting order the list tells exactly that; a ReplicaSet is told only if it belongs to no Deployment |
| Ordering.LessIs | internal/mcp/audit.go:506-511 | strings are ordered by the first character in which they differ, and a proper prefix comes first |
| OwnerResolution.ReportedRepresents | internal/mcp/audit.go:485-513 | in every order: strictly sorted, no duplicates, every entry stands for a reference and every reference is represented under its resolved kind and name |
| OwnerResolution.ReportedExactly | internal/mcp/audit.go:485-513 | when versions agree, the list holds exactly the entries of the references |
| OwnerResolution.OrderIndependentExactly | internal/mcp/audit.go:487-504 | all visiting orders give one list if and only if references to one unindexed workload agree on the API version |
| OwnerResolution.VersionDependsOnOrder | internal/mcp/audit.go:495-504 | two such references with different versions make the list depend on the order |
| AuditOwners.ReportOwners | internal/mcp/audit.go:214-237 | scan, index and resolve together, from pods to report: each unfinished selected pod is told as its controller, as the Deployment its ReplicaSet belongs to, or as itself, and nothing else is told; when versions agree the list is exactly the entries of those owners |
| AuditOwners.OwnersTellPods | internal/mcp/audit.go:464-504 | so a list that tells the references of a budget tells its pods |
| AuditOwners.BudgetOrderIndependentExactly | internal/mcp/audit.go:485-513 | for the references of any one budget, the visiting order is irrelevant if and only if versions agree |
| AuditOwners.ReportIgnoresListings | internal/mcp/audit.go:214-237 | when versions agree, neither the order of pods and workloads nor that of the owners changes the report |
| Engines.ImageNameOfPrinted | internal/mcp/audit.go:605-613 | for any path, name, optional tag and optional digest with separators only where allowed, the image name is the lower-cased name |
| Engines.EveryImagePrints | internal/mcp/audit.go:605-613 | every string is such a printed reference, so printing defines the image name |
| Engines.DetectEngine | internal/mcp/audit.go:587-603 | the nested loops compute `Engine` |
| Engines.EngineIs | internal/mcp/audit.go:587-603 | the engine is the first of the longest keywords in a non-exporter image name, and empty exactly when there is none |
| Engines.EngineIsUnique | internal/mcp/audit.go:587-603 | that description leaves no choice |
| Engines.EngineIgnoresOrder | internal/mcp/audit.go:587-603 | when all longest keywords named are one string, order and repetition of images and keywords are irrelevant |
| Engines.OrderIndependentExactly | internal/mcp/audit.go:587-603 | every order of images and keywords gives one engine if and only if all longest keywords named by non-exporter images are one string |
| Engines.OrderCanMatter | internal/mcp/audit.go:587-603 | an image that names redis and kafka is detected as the one listed first |
| DataServices.JudgeIs | internal/mcp/audit.go:542-549 | a workload is recognised exactly when its longest keyword is a cache engine, or is any keyword and the workload is a StatefulSet, which alone can be a quorum system |
| DataServices.InstancesAre | internal/mcp/audit.go:538-560 | the instances are those of the shown workloads and nothing else |
| DataServices.InstancesTell | internal/mcp/audit.go:538-560 | each instance gives name, size, images and engine of a workload without a controller that is folded into no other, and size and name of the replica set folded into it |
| DataServices.MasterInstance | internal/mcp/audit.go:555-557 | a detected master's instance carries the size and name of its release's last replica set |
| DataServices.BitnamiReplicas | internal/mcp/audit.go:563-585 | the two loops compute `Fold` |
| DataServices.FoldIs | internal/mcp/audit.go:563-585 | a workload is a key exactly when it is the last master of a release that has a replica, and its value is the release's last replica |
| DataServices.FoldedPair | internal/mcp/audit.go:565-585 | a folded pair is a top-level StatefulSet labelled master and one labelled replica, of one release, and no master is itself folded away |
| DataServices.FoldExactly | internal/mcp/audit.go:563-585 | a workload is folded into another if and only if they are the last labelled replica and the last labelled master of one namespace, app name and non-empty instance |
| DataServices.FoldInjective | internal/mcp/audit.go:571-585 | no replica is folded into two masters, and a release has at most one pair |
| DataServices.FoldComplete | internal/mcp/audit.go:571-585 | a release with a master and a replica has a pair |
| DataServices.CoveringPdbs | internal/mcp/audit.go:515-525 | the names of the budgets whose selector matches, in order |
| DataServices.CoveringCoversPods | internal/mcp/audit.go:515-525 | the names reported for a template are those of the budgets that cover an unfinished pod made from it, when no budget there selects by what the pod carries beyond the template |
| DataServices.ImageInstances | internal/mcp/audit.go:527-561 | the loop lists the instances of shown workloads in order |
| DataServices.NothingLostExactly | internal/mcp/audit.go:527-561 | every detected workload is an instance or the recorded replica of exactly one master, if and only if no detected replica is folded into an undetected master |
| DataServices.ReplicaDisappears | internal/mcp/audit.go:527-561 | a redis replica set folded into a master with an unknown image is on no instance, and nothing is listed |
| DataServices.ReplicasBalance | internal/mcp/audit.go:553-556 | replicas plus read replicas over instances differ from the detected workloads' replicas by exactly the lost and the gained ones, with any duplicate masters and replicas |
| DataServices.SameVerdictsConserve | internal/mcp/audit.go:553-556 | so when every folded pair gets one verdict the two sums are equal |
| Policy.StrSlice | internal/mcp/policy.go:531-540 | the strings of a list, in order; anything else is skipped |
| Policy.StringsJoin | internal/mcp/policy.go:531-540 | lists are read element by element and in order: a string as itself, anything else as nothing |
| Policy.UniqueKeepsMembers | internal/mcp/policy.go:542-552 | deduplication keeps the members and has no repeats |
| Policy.FlattenFilter | internal/mcp/policy.go:229-245 | non-empty resource fields, overridden by the user fields present |
| Policy.ResourceFilters | internal/mcp/policy.go:198-227 | the non-empty filters of all, else any, else the legacy block, and whether all must hold |
| Policy.IsEmptyMeans | internal/mcp/policy.go:359-371 | null, the empty object, the empty list and the empty string are no value; zero and false are |
| Policy.FlattenReads | internal/mcp/policy.go:229-245 | a filter's user fields come from the filter itself, every other field from its resources, where an empty value counts as absent |
| Policy.FiltersAre | internal/mcp/policy.go:198-227 | the filters are the non-empty ones under all if there are any, else those under any, else the block itself if it names resources; only any is a choice |
| Policy.KindMatches | internal/mcp/policy.go:247-267 | names, match and autogen of one filter |
| Policy.NsMatches | internal/mcp/policy.go:269-298 | true exactly if the filter lists no namespace or a pattern that fits, and its selector, if it has one, selects the labels or cannot be read |
| Policy.RuleApplies | internal/mcp/policy.go:146-196 | the loops compute the decision, the kinds, the autogen note and the text of the conditions |
| PolicyMeaning.AppliesExactly | internal/mcp/policy.go:146-196 | for every rule and query, in the filters' own fields: reported if and only if the match filters, all or some, fit by kind and namespace, and the exclude filters do not, with no condition and no user |
| PolicyMeaning.AppliesWithin | internal/mcp/policy.go:269-281 | a reported rule has a hit match filter, and under all only such, that lists no namespace or a pattern that fits |
| PolicyMeaning.CoversKindMeans | internal/mcp/policy.go:247-267 | a filter covers a kind if it lists none, or `*`, or the kind up to case, or Pod for a generated kind, each with or without a group before the last slash |
| PolicyMeaning.ConditionsAre | internal/mcp/policy.go:301-318 | the conditions of a filter are its names, label selector, annotations and operations, each if present |
| PolicyMeaning.HasSubjectsMeans | internal/mcp/policy.go:320-327 | a filter asks for users if one of its three user fields is a non-empty list |
| Policy.TextOfPreconditions | internal/mcp/policy.go:178-180 | the text for preconditions |
| Policy.TextOfEverything | internal/mcp/policy.go:301-318 | the text for a filter that asks for all four, word by word |
| Policy.ToldIsComplete | internal/mcp/policy.go:178-195 | that text joins the texts of exactly the reported conditions, once each, and is empty exactly when there are none |
| Policy.FilterTextIsEmpty | internal/mcp/policy.go:301-318 | a filter is described by the empty text exactly when it has no condition on the object |
| PolicyMeaning.AutogenMeans | internal/mcp/policy.go:256-262 | the autogen mark is set exactly when a filter for pods hits for a generated kind it does not name itself |
| PolicyMeaning.KindsAreNamed | internal/mcp/policy.go:157-196 | the reported kinds are those the match filters name |
| PolicyMeaning.FilterBounds | internal/mcp/policy.go:163-189 | one filter's hit over-approximates, and its blanket form under-approximates, what the filter means for each object |
| PolicyMeaning.GovernedIsMatched | internal/mcp/policy.go:153-196 | whatever conditions, users and unreadable selectors mean, a rule that governs an object is matched and not excluded by what can be read |
| PolicyMeaning.NoFalseOmission | internal/mcp/policy.go:146-196 | with a kind and readable exclude selectors, an omitted rule governs no object of the kind in the namespace, by any user |
| PolicyOmissions.GovernableExactly | internal/mcp/policy.go:146-196 | for every rule: it can govern an object if and only if some way to be matched is possible and its own conditions, users and selectors do not already imply the exclusion |
| PolicyOmissions.FalseOmissionExactly | internal/mcp/policy.go:181-195 | for every rule: it is left out though it could govern, if and only if it is excluded and yet passes that test; with a kind this takes an unreadable exclude selector |
| PolicyOmissions.UnconditionalOmissionExactly | internal/mcp/policy.go:181-195 | for a match that asks nothing of the object, that is: matched, and excluded only by unreadable selectors; with readable ones the answer is yes exactly if the rule could govern |
| ReportedConditions.ReportedConditionsSuffice | internal/mcp/policy.go:163-196 | for every rule, asked with a kind: to meet all reported conditions is enough to be governed, whatever users and unreadable selectors are, if and only if the match hits by readable filters that name no users and the exclude filters do not hit |
| ReportedConditions.UnconditionalAnswerIsExact | internal/mcp/policy.go:153-196 | for every rule with no condition to report, asked with a kind: it governs every object of the kind if and only if the same holds |
| ReportedConditions.ReportedConditionsAreNeeded | internal/mcp/policy.go:163-180 | for every rule: to be governed takes all reported conditions if and only if all match filters must hold, or every filter by which alone the rule can govern asks for all that is reported of the hit ones |
| ReportedConditions.ReportedConditionsAreExact | internal/mcp/policy.go:163-196 | for every rule, asked with a kind: the reported conditions describe exactly the governed objects if and only if the match hits by readable filters that name no users, the exclude filters do not hit, and all match filters must hold or the hit ones ask for the same |
| ReportedConditions.PlainRuleMeans | internal/mcp/policy.go:163-196 | when the match names no users and is readable and the exclude asks nothing of the object: a reported rule governs exactly the objects that meet the conditions of every hit match filter under all, of some hit filter under any, and the preconditions |
| ReportedConditions.PlainReportIsExact | internal/mcp/policy.go:163-196 | under the same three hypotheses: the report is enough, and exact if and only if all match filters must hold or the hit ones ask for the same |
| ReportedConditions.AnyIsReportedAsAll | internal/mcp/policy.go:163-166 | a rule for objects named a or b is reported as if it needed both names |
| ReportedConditions.UsersAreNotReported | internal/mcp/policy.go:157-172 | a rule for one user is reported with no condition, though it need not govern another user's object |
| ReportedConditions.ExcludedNamesAreNotReported | internal/mcp/policy.go:181-195 | a rule that excludes one name is reported with no condition, though it need not govern every object |
| ReportedConditions.AlwaysGovernsExactly | internal/mcp/policy.go:146-196 | for every rule, asked with a kind: it governs every object by any user if and only if its match hits by filters that ask nothing, its exclude filters do not hit and it has no preconditions |
| ReportedConditions.DecidesExactly | internal/mcp/policy.go:146-196 | for every rule, asked with a kind: the answer is the object-level meaning for every object if and only if a yes leaves nothing to the object and a no leaves no way to govern |
| ReportedConditions.DecidesTheRule | internal/mcp/policy.go:146-196 | so it is when match and exclude are readable and ask nothing of the object and there are no preconditions |
| PolicyOmissions.EmptyKindSoundWhen | internal/mcp/policy.go:256-258 | an omission for the empty kind is right for every kind when nothing matches or filters for every kind exclude |
| PolicyOmissions.KindStandsFor | internal/mcp/policy.go:247-267 | the generated kinds, the spellings of the named ones and one other kind stand for all kinds: no filter of the rule tells a kind from the one that stands for it |
| PolicyOmissions.EmptyKindSoundExactly | internal/mcp/policy.go:256-258 | for every rule: left out for the empty kind though it could govern some kind, if and only if it is excluded and could govern one of those finitely many kinds |
| PolicyOmissions.CatchAllSoundExactly | internal/mcp/policy.go:256-258 | for rules that match every kind, that is: no match filter hits, or filters for every kind exclude |
| PolicyOmissions.UnreadableExcludeHides | internal/mcp/policy.go:288-294 | an unreadable exclude selector hides a rule that governs every object of the kind |
| PolicyOmissions.EmptyKindHides | internal/mcp/policy.go:256-258 | asked about every kind, an exclude for one kind hides a rule that governs another |
| PolicyOmissions.SuchRulesExist | internal/mcp/policy.go:199-227 | rules of the form used by the two families exist |
| PolicyReport.ReadReports | internal/mcp/policy.go:488-515 | counts every well-formed result by outcome and lists those that are neither pass nor skip, in order |
| ReportedFindings.ListedExactly | internal/mcp/policy.go:488-515 | a finding is listed if and only if a result of a report, neither passed nor skipped, has its fields, and is about its object: the first resource, else the scope of the report |
| ReportedFindings.CountedExactly | internal/mcp/policy.go:488-501 | an outcome is counted if and only if a result has it |
| ReportedFindings.ReportsAddUp | internal/mcp/policy.go:488-515 | reports are read one after the other: findings follow in order and counts add up |
| PolicyReport.TotalsSumUp | internal/mcp/policy.go:488-501 | the totals sum to the number of well-formed results |
| PolicyReport.ListedCount | internal/mcp/policy.go:501-515 | before the cut, the list has the total minus pass minus skip entries |
| PolicyReport.PolicyReport | internal/mcp/policy.go:482-528 | totals, and the list cut at 200 with failures before errors before warnings; the mark is set exactly when something was cut |
| PolicyReport.WorstFirstIsStable | internal/mcp/policy.go:517-520 | the order ascends in rank and keeps equals in input order, with unknown outcomes ranked as failures |
| PolicyReport.StableOrderIsUnique | internal/mcp/policy.go:517-520 | any stable sort by rank gives that list |
| PolicyReport.CutKeepsTheWorst | internal/mcp/policy.go:517-524 | nothing dropped ranks ahead of anything kept, and of equal rank the earlier are kept |
| OutputBuffer.LimitBuffer.Write | internal/debugpod/debugpod.go:441-455 | the buffer holds the first `max` bytes of everything written, counts the rest, and reports the whole slice as written |
| OutputBuffer.LimitBuffer.String | internal/debugpod/debugpod.go:457-464 | shows the kept prefix, followed by the notice with their number exactly when bytes were dropped |
| OutputBuffer.NoticeIs | internal/debugpod/debugpod.go:460-461 | the notice, word by word around the number |
| OutputBuffer.DecimalIs | internal/debugpod/debugpod.go:461 | the number is in decimal digits without a leading zero |
| OutputBuffer.ShownTellsExactly | internal/debugpod/debugpod.go:441-464 | two outputs are shown alike if and only if they have one length and agree on the bytes kept |
| OutputBuffer.WriteAll | internal/debugpod/debugpod.go:441-455 | after any serialised writes the buffer holds the bounded prefix of their concatenation |
| OutputBuffer.CountsIgnoreInterleaving | internal/debugpod/debugpod.go:441-455 | how much is kept and dropped is the same for every interleaving of the same writes |
| Groups.ParseGroups | internal/debugpod/debugpod.go:501-520 | the nested loops compute the inverted table, empty for unreadable data |
| Groups.InverseIsMemberships | internal/debugpod/debugpod.go:515-519 | the table is the inverse of the listing, with order and multiplicity |
| Groups.InverseRelation | internal/debugpod/debugpod.go:515-519 | a user is told a group exactly when a group of that name lists the user |
| Groups.GroupCache.GroupsFor | internal/debugpod/debugpod.go:489-499 | one call fetches exactly after expiry, keeps the old table on failure, and answers from the table |
| Groups.FetchesAreApart | internal/debugpod/debugpod.go:489-499 | over every run with a monotone clock each fetch starts more than the lifetime after the one before ended, and every call is within a lifetime of the last fetch |
| Groups.AnswersAreLastGood | internal/debugpod/debugpod.go:489-520 | after any calls each user is told the groups of the last successful fetch |

## Left out

- Kubernetes, dynamic-client, HTTP and tool-protocol calls: they are servers, clusters and call records given as parameters.
- The summary handlers, server wiring, environment parsing, schemas and certificate reading: field copying without an invariant of its own.
- Debug pod creation, waiting, exec and cleanup: their guarantees rest on the job controller and the cluster.
- A negative cache cap: with one, the eviction loop would never end, because removing from an empty list does nothing (`internal/mcp/cache.go:67-74`); the cap is a natural number here.
- A producer that panics inside a flight.
- `container/list`, `singleflight` and `sort` internals: the list is written out as a ring with a root, a flight is one leader per key whose result all joiners get and which ends with the closure, and a sort is its unique result.
- Text outside ASCII: case folding and trimming follow ASCII; image names and keys are ASCII in practice.
- `net/url`: the parser and printer are any functions on an already split URL; percent-encoding is theirs.
- RedactionFixpoint.FixpointExactly: assumes of the URL library that a rewritten URL is not a flag and is not rewritten again; `RedactionUrls` derives this from how the library prints and parses the user part, where a bracket is not valid.
- JSON values that share one map or slice at two places: the heap tree of the redactor has no aliases, as decoded JSON has none.
- `filepath.Match` and label selectors: any relation and any predicate; a selector may also have no reading.
- The table of ReplicaSets and their Deployments: any map; filling it is a filter over one more paged list.
- Kinds, namespaces and label values with a slash in them: Kubernetes allows none, and the owner keys, workload keys and release keys rely on it (`OwnerResolution.PlainRefs`, `DataServices.PlainLabels`).
- The audit's operator-managed instances, namespace owners, `OverlapsWith` sorting and the final instance sort: field copying and one more sort.
- Rendering: the text of other notes and the truncated check. The JSON text of selectors and the cut JSON text of preconditions are any functions.
- `exemptions`, `failureAction`, `autogenControllers`, `ruleType` and the sort of listed rules: easy members beside the decision; the autogen kinds are a parameter.
- The meaning of match and exclude covers the fields the code reads; other Kyverno fields are not part of this model, and conditions are independent of each other: that one name pattern covers another is not known.
- Groups.GroupCache.GroupsFor: the clock readings and what a fetch would answer are parameters of the call, and the lock makes calls atomic; the copy of the answer is a value.
- Integer widths: replica counts, totals, times and byte counts are unbounded.
