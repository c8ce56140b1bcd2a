# HAProxy Ingress: proofs about its incremental core

HAProxy Ingress keeps a model of the proxy in memory: hosts with their paths, backends with their endpoints.
The model follows the cluster by small steps, and the running proxy follows the model by commands on its socket
or by a reload. Most of the controller's difficulty is in fast or incremental code that has to agree with a
simple form. This project states that agreement, component by component, and proves it.

| part | files | what is proved |
|---|---|---|
| dependency tracker | `LinkTracker` | a query returns exactly what is reachable, on any graph, and removes exactly that |
| partial sync | `SyncModel`, `SyncSpec`, `IngressSync` | any run of full and partial syncs leaves the hosts and backends of one full sync, and what that builds: the first writer of a link wins |
| match files | `PathPrecedence`, `MatchPlacement`, `MatchAssembly`, `MatchLookup`, `MatchBuild`, `MatchHosts`, `HostsMaps` | every entry is in exactly one file; whatever the order of the hosts, the first match is the longest one if and only if a condition on the paths holds |
| dynamic update | `Endpoints`, `AddressSpec`, `SlotBook`, `DynUpdate`, `SlotAlignment`, `UpdateCycle`, `Decimal` | slots and server names are conserved, and over any run the servers of the proxy are those of the addresses of the service |
| containers | `ChangeTracking`, `Backends`, `Hosts` | over any run the items are the committed ones without those deleted, with those added; shards and counters are right; what is only bookkeeping is not seen in the items |
| allocators | `AuthProxy`, `ProxyIds`, `RateLimiter`, `Weights`, `Arithmetic` | ports, server ids, schedule, weights |

`Ordering`, `Sets` and `Model` hold what the parts share. State that the program changes in place is a class or
an array here too, and each method is proved against functions of the state before. `dafny verify dfyconfig.toml`
checks the project.

## What does not hold, and when it does

- Longest path first (`pkg/haproxy/types/maps.go:200-349`). An entry remembers only the last overlapping entry, so a sibling
  can undo what a longer path established: `PathPrecedence.SIBLINGS` is a host with six paths where a request for `/ac` is
  answered by `/a`. Whether the paths of a host are in order also depends on the type of the first priority file, which
  is the type of the entry that the hosts move first, in the order in which Go happens to visit them. For
  `PathPrecedence.DEPENDENT` the answer is right or wrong depending on another host. The exact conditions: a host is right
  in every order of the hosts of its map if and only if it satisfies `LongerFirst` for each type that a host of the map
  moves first, and it is right in every map if and only if it satisfies it for both types. Paths that are pairwise
  prefixes of each other always do.
- One event per ingress in a batch (`pkg/converters/ingress/ingress.go:242-250`). Objects notified as added are synced as they
  were notified, even if they are gone or replaced since. The partial sync then builds exactly the cluster in which they
  still stand, and the hosts served are those of the real cluster if and only if there are no stray hosts: every host of
  an object that is gone is a host of the cluster anyway, and no host is lost to an object that was replaced.
- One listing per link (`pkg/converters/ingress/ingress.go:391-429`). The test for redeclarations looks for the link with the
  header match of the ingress, but a redirect is listed without it, and for the root path of a passthrough host it looks for a
  root path without header match. A link is listed twice if and only if two accepted declarations write it and the later one
  has a header match together with a redirect or a passthrough root. `SyncSpec.Repeating` is such an ingress.
- Removing what was just acquired (`pkg/haproxy/types/backends.go:286-300`, `pkg/haproxy/types/host.go:67-75`). The
  accounting survives a removal if and only if none of the names was added since the last commit.
- Clearing the backends (`pkg/haproxy/types/backends.go:59-71`). The loop that should flag the shards in use looks at the
  new shards, all empty, and flags none. What is flagged is right afterwards if and only if there are no shards or
  nothing was committed.
- The passthrough counter (`pkg/haproxy/types/host.go:353-363`). It stays right if and only if the host is live or the value
  does not change.

## Model

| member | source | states |
|---|---|---|
| LinkTracker.Tracker.TrackRefs | pkg/converters/tracker/tracker.go:54-60 | adds exactly the link and its inverse; the graph stays symmetric |
| LinkTracker.Tracker.UpdateOutput | pkg/converters/tracker/tracker.go:78-97 | the recursive traversal ends on any graph, with cycles and self links, and collects only what is reachable from the inputs and everything next to what it collects |
| LinkTracker.Tracker.CollectOutput | pkg/converters/tracker/tracker.go:78-101 | on any graph, the collected set is exactly what is reachable by one or more links |
| LinkTracker.Tracker.RemoveRef | pkg/converters/tracker/tracker.go:120-128 | the resource and everything reachable from it lose their links, and nothing outside a closed set that holds the resource changes |
| LinkTracker.Tracker.QueryLinks | pkg/converters/tracker/tracker.go:78-114 | sorted lists, without repetition, of exactly the reachable resources; with removal these lose all their links, every other resource keeps its own and symmetry is kept, without it nothing changes |
| LinkTracker.ReachableIsComponents | pkg/converters/tracker/tracker.go:78-114 | on a symmetric graph what is reachable is the union of the components of the inputs that have a link |
| LinkTracker.RepeatedQueryIsEmpty | pkg/converters/tracker/tracker.go:103-112 | after a removing query the same query returns nothing |
| LinkTracker.RemovalKeepsSymmetry | pkg/converters/tracker/tracker.go:120-128 | removing whole components leaves no half link |
| SyncModel.IngressOrder | pkg/converters/ingress/ingress.go:348-357 | creation time, then full name, is a total order on ingresses |
| SyncModel.ViewOfList | pkg/converters/ingress/ingress.go:359-429 | what a sync of a list makes of one host depends only on that host and the rules for it |
| SyncModel.RunListOnHost | pkg/converters/ingress/ingress.go:384-429 | ingresses without a rule on a host can be left out without a change to it |
| SyncModel.AgreeList | pkg/converters/ingress/ingress.go:413-424 | a host depends only on the services that its rules try, and on whether these resolve |
| SyncModel.CleanHostKept | pkg/converters/ingress/ingress.go:222-270 | a host outside the dirty closure is the same in a full sync of the old and the new cluster |
| SyncModel.DirtyHostRebuilt | pkg/converters/ingress/ingress.go:241-270 | a dirty host rebuilt from the partial list is the one of a full sync |
| SyncModel.CleanHostUntouched | pkg/converters/ingress/ingress.go:241-270 | syncing the partial list does not change a clean host |
| SyncModel.PartialEqualsFull | pkg/converters/ingress/ingress.go:201-270 | for any dirty closure, dropping the dirty hosts and syncing the dirty and added ingresses in order gives the hosts of a full sync |
| SyncSpec.FullSyncBuilds | pkg/converters/ingress/ingress.go:348-429 | a full sync in terms of what is declared: the ingresses by creation and name, a host for every rule, and for each host the accepted declarations, each once, with link and target, by descending path; redirects and passthrough included |
| SyncSpec.FirstWriterWins | pkg/converters/ingress/ingress.go:391-429 | without redirects and passthrough: a link is listed if and only if it is declared with a service that resolves, once, with the backend of the first such declaration in ingress, rule and path order, by descending path |
| SyncSpec.ListedTwiceIff | pkg/converters/ingress/ingress.go:405-416 | a link is listed twice if and only if two accepted declarations write it and the later one evades the test for redeclarations |
| SyncSpec.RedirectListedTwice | pkg/converters/ingress/ingress.go:410-416 | a full sync of an ingress that redirects a path with a header match, and declares it twice, lists it twice |
| IngressSync.QueryIsDirtyClosure | pkg/converters/ingress/ingress.go:222-231 | what the tracker returns for a batch holds every ingress with a rule on a dirty host, every changed ingress, and no clean host needs a changed service |
| IngressSync.OneEventEachIsConsistent | pkg/converters/ingress/ingress.go:242-250 | batches with one event per ingress satisfy what the partial sync needs |
| IngressSync.AccountedEffective | pkg/converters/ingress/ingress.go:242-250 | a batch whose added objects need not be current is a correct batch for the cluster in which these objects stand |
| SyncModel.ListServes | pkg/converters/ingress/ingress.go:384-391 | a sync of a list serves exactly the hosts of its rules |
| IngressSync.ServedIffNoStray | pkg/converters/ingress/ingress.go:248-250 | the hosts served after a batch are those of a full sync if and only if there are no stray hosts |
| IngressSync.StrayWhenGone | pkg/converters/ingress/ingress.go:245-250 | if the added objects that are not current are gone, that means: every host of such an object is a host of the cluster |
| IngressSync.AddedThenDeletedIsServed | pkg/converters/ingress/ingress.go:245-250 | through SyncPartial: after an ingress was added and deleted in one batch exactly its hosts are served, though a full sync serves none |
| IngressSync.BacksUnique | pkg/converters/ingress/ingress.go:768-830 | the backends are determined by the hosts that lead to them |
| IngressSync.Converter.AddBackend | pkg/converters/ingress/ingress.go:768-800 | service and endpoints, resolvable or not, are linked with the host; a backend is returned if and only if the service resolves, and is then linked with the ingress |
| IngressSync.Converter.AddHost | pkg/converters/ingress/ingress.go:721-724 | acquires the host and links it with the ingress |
| IngressSync.Converter.SyncOnePath | pkg/converters/ingress/ingress.go:391-429 | one declaration is added or dropped, redirects and unusable services included, and what is used is linked; which declarations are listed in the end is stated by the two rows of `SyncSpec` above |
| IngressSync.Converter.SyncIngress | pkg/converters/ingress/ingress.go:374-429 | one ingress adds its rules in order; hosts and backends stay consistent and everything used is linked |
| IngressSync.Converter.TrackAddedIngress | pkg/converters/ingress/ingress.go:287-313 | added and updated ingresses are linked with their hosts and with the existing backends of their paths before the query, and no link is lost |
| IngressSync.Converter.MergeIngresses | pkg/converters/ingress/ingress.go:241-267 | the sorted list of the dirty ingresses that still exist and of the added ones |
| IngressSync.Converter.RemoveDirty | pkg/converters/ingress/ingress.go:222-238 | the query returns what is reachable from the batch, exactly the dirty hosts are removed, and backends stay consistent with the hosts left |
| IngressSync.Converter.SyncFull | pkg/converters/ingress/ingress.go:201-216 | the hosts are those of the sorted ingress list |
| IngressSync.Converter.SyncPartial | pkg/converters/ingress/ingress.go:218-274 | builds the hosts of a full sync of the new cluster with the objects of the batch as notified; equal to a full sync of the new cluster if these are current; serves the same hosts if and only if there are no stray hosts |
| IngressSync.Converter.Run | pkg/converters/ingress/ingress.go:201-313 | after any run of full and partial syncs the hosts are those of a full sync of the last cluster, and so are the backends |
| PathPrecedence.LevelType | pkg/haproxy/types/maps.go:312-349 | the priority file of an entry has the type of the entry |
| PathPrecedence.MatchesNest | pkg/haproxy/types/maps.go:109-126 | of two begin or prefix paths that match a request the shorter one is a prefix of the longer one, and matches it |
| PathPrecedence.NestedLongerFirst | pkg/haproxy/types/maps.go:220-251 | paths that are pairwise prefixes of each other satisfy `LongerFirst`, whatever type comes first |
| PathPrecedence.SiblingsBreakOrder | pkg/haproxy/types/maps.go:312-320 | six sibling paths do not, for either type |
| PathPrecedence.DependentInOrder | pkg/haproxy/types/maps.go:312-349 | seven paths satisfy `LongerFirst` if the first priority file holds begin paths |
| PathPrecedence.DependentNotInOrder | pkg/haproxy/types/maps.go:312-349 | the same paths do not if it holds prefix paths |
| MatchPlacement.PlaceAlternates | pkg/haproxy/types/maps.go:322-349 | the priority files alternate between the two types, whatever is placed |
| MatchPlacement.PairSound | pkg/haproxy/types/maps.go:220-251 | processing a pair keeps each placed entry in exactly one file of its type and filter |
| MatchPlacement.PairProgress | pkg/haproxy/types/maps.go:220-251 | after each pair the place of every entry is the one that the overlaps seen so far determine |
| MatchPlacement.PlacedAtLevel | pkg/haproxy/types/maps.go:322-349 | an overlapping entry is found or created in the file of its level |
| MatchPlacement.HostPlacement | pkg/haproxy/types/maps.go:205-251 | all filtered entries of a host are placed and, without filters, exactly the overlapping ones, each at its level; nothing else moves |
| MatchPlacement.HostHead | pkg/haproxy/types/maps.go:312-335 | the first priority file keeps its type, and the first host with an entry to move gives it that of its first such entry |
| MatchAssembly.AssembledOnce | pkg/haproxy/types/maps.go:253-296 | for a match order that is a permutation of the four types, priority and default files hold each entry once |
| MatchAssembly.AssembledFit | pkg/haproxy/types/maps.go:253-296 | every entry is in a file of its own type and filter |
| MatchLookup.KeyOrder | pkg/haproxy/types/maps.go:153-178 | keys of different hosts are different, and compare as the host names do |
| MatchLookup.SortFileOrder | pkg/haproxy/types/maps.go:373-412 | within a file longer paths of a host come first |
| MatchLookup.SortFileIsOrdered | pkg/haproxy/types/maps.go:373-412 | in a sorted file longer regexes come first, equal lengths by key; exact keys ascend; begin and prefix entries go by host and then longer paths first; equal keys go by order |
| MatchLookup.LookupFirst | pkg/haproxy/types/maps.go:193-198 | a lookup answers with the first entry, in file order and then in-file order, that matches |
| MatchLookup.LongerFirstSuffices | pkg/haproxy/types/maps.go:200-296 | under `LongerFirst` the first match of every request is the longest configured path that matches it, exact paths included |
| MatchLookup.LongerFirstNeeded | pkg/haproxy/types/maps.go:200-296 | without it some request is answered by a shorter path |
| MatchLookup.LongestMatchIffLongerFirst | pkg/haproxy/types/maps.go:200-349 | both directions, for hosts of distinct begin and prefix paths and for either type of the first priority file |
| MatchLookup.SiblingsAnsweredWrong | pkg/haproxy/types/maps.go:312-320 | the six sibling paths get a wrong answer |
| HostsMaps.HostsMap.AddTarget | pkg/haproxy/types/maps.go:128-151 | appends the entry with host and begin path in lower case and with the map key of its type, character by character, and keeps the lists per host and per type consistent |
| HostsMaps.HostsMap.ProcessHost | pkg/haproxy/types/maps.go:205-251 | the pair loops compute the placement of a host |
| HostsMaps.Shrink | pkg/haproxy/types/maps.go:361-371 | the in-place swap-remove leaves the result of its specification |
| MatchBuild.SwappedOutCount | pkg/haproxy/types/maps.go:361-371 | that result has every entry not placed elsewhere, as often as before, and no other |
| HostsMaps.PathTypeOrder | pkg/converters/ingress/annotations/global.go:136-161 | the match order is always a permutation of the four types: the configured one if it is one, the default otherwise |
| MatchBuild.FilteredFirst | pkg/haproxy/types/maps.go:207-219 | the entries of a host: those with a filter first, and longer paths first among those of the same filter, if there is at most one filter |
| MatchBuild.FinalConserved | pkg/haproxy/types/maps.go:253-296 | sorted files included, every entry is in exactly one file, of its type and filter |
| MatchBuild.BuildConserves | pkg/haproxy/types/maps.go:200-296 | the same for the files built from the entries of a map, in whatever order the hosts are visited |
| MatchBuild.BuildOrders | pkg/haproxy/types/maps.go:373-412 | every file that is built is in the order of its type |
| MatchAssembly.AssembledNames | pkg/haproxy/types/maps.go:270-292 | no two files get the same name: of the files named without their position there is one of a type at most |
| MatchBuild.OneOrder | pkg/haproxy/types/maps.go:200-349 | for one order of the hosts: the longest path is found if and only if `LongerFirst` holds for the type moved first in that order, or nothing is moved |
| MatchBuild.AlwaysLongestIff | pkg/haproxy/types/maps.go:207-251 | the longest path is found in every order of the hosts if and only if `LongerFirst` holds for each type that a host of the map moves first |
| MatchBuild.AlwaysLongestAlone | pkg/haproxy/types/maps.go:207-251 | `LongerFirst` for both types is enough for a host in any map, exact paths included |
| MatchHosts.LongestInEveryMapIff | pkg/haproxy/types/maps.go:200-349 | the longest path is found in every map that has the host, and in every order, if and only if `LongerFirst` holds for both types |
| MatchHosts.DependsOnOtherHost | pkg/haproxy/types/maps.go:207-251 | a map of two hosts where the seven paths are answered right if their host is visited first, and wrong otherwise |
| MatchHosts.SiblingsAlwaysWrong | pkg/haproxy/types/maps.go:312-320 | the six sibling paths get a wrong answer in every map that has them and in every order of the hosts |
| HostsMaps.HostsMap.RebuildMatchFiles | pkg/haproxy/types/maps.go:200-296 | the files are those of the build function for the order in which the hosts are visited; conservation; different names; every file in the order of its type; and for every host without filters and regexes, with lower-case paths, the precedence result in terms of the entries and that order |
| Decimal.SrvNameInjective | pkg/haproxy/types/backend.go:80-82 | zero-padded server names of different numbers are different |
| Decimal.SrvNameIs | pkg/haproxy/types/backend.go:80-82 | a server name is `srv` and at least three decimal digits, padded with zeros, that read as the number |
| Endpoints.SlotNameIs | pkg/haproxy/types/backend.go:69-94 | the name by each policy: the last part of the pod reference, IP and port, or the sequential name, which is also what the others fall back to |
| Endpoints.TargetInjective | pkg/haproxy/types/backend.go:84-92 | different IPs or ports give different targets |
| Endpoints.Backend.FindEndpoint | pkg/haproxy/types/backend.go:39-46 | the first endpoint of a target, if there is one |
| Endpoints.Backend.AcquireEndpoint | pkg/haproxy/types/backend.go:49-55 | at most one endpoint per target; a new one is appended; sequential names stay sequential |
| Endpoints.Backend.AddEndpoint | pkg/haproxy/types/backend.go:69-94 | appends an enabled endpoint named by the naming policy |
| Endpoints.Backend.AddEmptyEndpoint | pkg/haproxy/types/backend.go:58-67 | appends a disabled endpoint with a cookie |
| Endpoints.NextNameIsFree | pkg/haproxy/types/backend.go:80-82 | the name of an added slot is not that of a live one |
| Endpoints.SequentialDistinct | pkg/haproxy/types/backend.go:80-82 | names srv001 to srvN are pairwise different |
| SlotBook.SlotsBalance | pkg/haproxy/dynupdate.go:293-303 | there are at least as many free slots as endpoints that wait for one, so the list of empty slots is never indexed past its end |
| SlotBook.FilledPermuted | pkg/haproxy/dynupdate.go:305-308 | at the end every old slot is used exactly once |
| SlotBook.OutcomeKept | pkg/haproxy/dynupdate.go:248-308 | same number of slots, same multiset of server names, same endpoints in the same order, survivors keep their server |
| DynUpdate.ScanSlots | pkg/haproxy/dynupdate.go:248-259 | splits the old slots into targets in use and empty ones |
| DynUpdate.Updater.ReuseSlots | pkg/haproxy/dynupdate.go:261-271 | endpoints whose target is served take the name of its slot; the others are listed |
| DynUpdate.Updater.CheckEndpointPair | pkg/haproxy/dynupdate.go:313-331 | if it succeeds the server serves the new endpoint, which needs no other label or preserved cookie than the old one, and no other server changed; no command for endpoints equal up to the source IP, and none if a cookie to preserve differs |
| DynUpdate.Updater.ExecDisable | pkg/haproxy/dynupdate.go:417-440 | the server is in maintenance at 127.0.0.1:1023, or the group failed |
| DynUpdate.Updater.ExecEnable | pkg/haproxy/dynupdate.go:442-468 | the server has address, port, state and weight of the endpoint, or the group failed |
| DynUpdate.Updater.UpdateSlot | pkg/haproxy/dynupdate.go:277-292 | one slot is updated, taken over or freed; the bookkeeping and the agreement of the proxy are kept |
| DynUpdate.Updater.EnableAdded | pkg/haproxy/dynupdate.go:293-303 | the endpoints left take free slots, in order, never past the end |
| DynUpdate.Updater.CopyEmpty | pkg/haproxy/dynupdate.go:305-308 | the free slots left become empty endpoints under their names |
| DynUpdate.Updater.AssignSlots | pkg/haproxy/dynupdate.go:248-310 | slots conserved; if the proxy agreed with the old backend and the result is true it agrees with the new one, and no server changes its label, nor its cookie if cookies are preserved; without labels, cookies to preserve or failing commands the result is true |
| DynUpdate.Updater.CheckBackendPair | pkg/haproxy/dynupdate.go:198-310 | the same for all branches: changed configuration, missing slots, DNS resolver, dynamic scaling off |
| SlotAlignment.AlignedMeans | pkg/haproxy/dynupdate.go:340-365 | aligned, in terms of the settings: a multiple of the block size, or of one if that is less than one, with as many free slots as asked for, and not empty if none is asked for |
| SlotAlignment.AlignSlots | pkg/haproxy/dynupdate.go:333-380 | appends the least number of empty slots such that enough are free and the number is a multiple of the configured block size, one block at least if no free slot is asked for; nothing if that holds already |
| SlotAlignment.LastBlockFree | pkg/haproxy/dynupdate.go:360-365 | the slots missing to the least multiple of the block size that is not less than the length |
| UpdateCycle.SortEndpoints | pkg/haproxy/types/backend.go:107-120 | a sorted rearrangement by name or IP |
| UpdateCycle.ShuffleEndpoints | pkg/haproxy/types/backend.go:122-127 | a rearrangement, whatever the random choices, whose last endpoint is the one chosen |
| UpdateCycle.RearrangedHealthy | pkg/haproxy/types/backend.go:107-127 | reordering keeps distinct targets, empty slots and sequential names |
| UpdateCycle.UpdatedHealthy | pkg/haproxy/dynupdate.go:248-308 | a dynamic update keeps them |
| UpdateCycle.LoadedAgrees | rootfs/etc/templates/haproxy/haproxy.tmpl:801-803 | after a reload the servers agree with the endpoints written |
| AddressSpec.ShowsNext | pkg/converters/ingress/ingress.go:968-979 | one address more: the endpoints are still exactly those of the addresses, each with the settings of the last address of its IP and port |
| AddressSpec.ShowsCount | pkg/converters/ingress/ingress.go:968-979 | there are as many endpoints as different addresses |
| AddressSpec.AgreesShows | pkg/haproxy/dynupdate.go:198-310 | if the proxy agrees with such endpoints, it has one server not in maintenance for each address, with its IP, port and weight, and no other |
| UpdateCycle.Parse | pkg/converters/ingress/ingress.go:968-979 | a new backend with the settings given, one enabled endpoint for each different address and no other, named in sequence |
| UpdateCycle.Finish | pkg/haproxy/instance.go:313-322 | alignment, reordering and reload of a backend, whether or not it was the one to ask for it; its addresses and the agreement of the proxy are kept |
| UpdateCycle.Instance.Apply | pkg/haproxy/instance.go:311-322 | a backend that changed, was added or did not change, with a reload that it or anything else asks for: settings and endpoints are those of the specification it was last parsed from, names stay sequential and the proxy in agreement, so its servers are those of the addresses; a dynamic update needs equal settings and a slot for each address, and is enough if there is nothing that asks for a reload |
| UpdateCycle.Instance.Run | pkg/haproxy/dynupdate.go:65-72 | over any run of updates, with reloads for any reason, names are srv001 to srvN, settings and endpoints are those of the last specification and, without resolvers, the servers not in maintenance are exactly those of its addresses |
| ChangeTracking.RemovalBalanced | pkg/haproxy/types/backends.go:286-300 | a removal keeps the accounting if and only if the item was not added since the commit |
| ChangeTracking.ClearBalanced | pkg/haproxy/types/backends.go:59-71 | clearing keeps the accounting if and only if nothing changed since the commit |
| ChangeTracking.RemoveSeqBalance | pkg/haproxy/types/host.go:67-75 | a list of removals keeps the accounting if and only if none of the names was added since the commit |
| Backends.BackendsMatch | pkg/haproxy/types/backends.go:110-141 | true if and only if all but paths and endpoints is equal and the sets of non-empty endpoints are equal |
| Backends.TrackedIsFlagged | pkg/haproxy/types/backends.go:97-105 | if the shard of every change is listed, a shard not listed has what it had at the last commit |
| Backends.ClearedTracked | pkg/haproxy/types/backends.go:59-71 | after clearing the flags are right if and only if there are no shards or nothing was committed |
| Backends.RemovedTracked | pkg/haproxy/types/backends.go:286-300 | after a list of removals what is tracked is right if and only if none of the items was added since the commit |
| Backends.Container.AcquireBackend | pkg/haproxy/types/backends.go:241-254 | finds or adds the backend, without endpoints and in the shard of its hash; shards partition the items, accounting kept |
| Backends.Container.RemoveAll | pkg/haproxy/types/backends.go:286-300 | exactly the named items move to the deleted ones; tracked if and only if none was just added |
| Backends.Container.Shrink | pkg/haproxy/types/backends.go:75-105 | exactly the new backends that match the deleted one, and need no more slots, are replaced by it; accounting, shards and flags kept |
| Backends.Container.Commit | pkg/haproxy/types/backends.go:144-148 | nothing is pending and the items are the committed ones |
| Backends.Container.Clear | pkg/haproxy/types/backends.go:59-71 | all items are deleted, with the exact condition for the flags |
| Backends.Container.AlignAll | pkg/haproxy/dynupdate.go:333-380 | every dynamic backend is aligned, and a backend whose shard is not flagged has its content |
| Backends.Container.Run | pkg/haproxy/types/backends.go:75-174 | over any run of cycles that remove first and align last: shards partition the items, items are committed minus deleted plus added, shards not listed have the same backends with the same content; settings and live endpoints are those that the acquires and removals give, whatever was shrunk, aligned and committed |
| Hosts.Container.AcquireHost | pkg/haproxy/types/host.go:51-59 | finds or adds the host; accounting and counter kept |
| Hosts.Container.RemoveAll | pkg/haproxy/types/host.go:67-75 | exactly the named hosts move to the deleted ones and the counter follows; tracked if and only if none was just added |
| Hosts.Container.Shrink | pkg/haproxy/types/host.go:103-113 | exactly the hosts added again with the same content are restored; accounting and counter kept |
| Hosts.Container.SetSSLPassthrough | pkg/haproxy/types/host.go:353-363 | the counter stays right if and only if the host is live or the value does not change |
| Hosts.Container.HasSSLPassthrough | pkg/haproxy/types/host.go:202-204 | true if and only if a live host has passthrough set |
| Hosts.Container.Run | pkg/haproxy/types/host.go:51-120 | over any run of cycles the counter is the number of live hosts with passthrough set, and the hosts are those that the operations give, whatever was shrunk and committed |
| AuthProxy.Frontend.FindBind | pkg/haproxy/types/frontend.go:26-35 | the bind of the backend, or the smallest free port |
| AuthProxy.Frontend.AcquireAuthBackendName | pkg/haproxy/types/frontend.go:25-52 | stable for a bound backend, otherwise the smallest free port; fails if and only if all the range is taken |
| AuthProxy.Frontend.RemoveAuthBackendExcept | pkg/haproxy/types/frontend.go:55-65 | keeps exactly the binds whose name is in use, in order |
| AuthProxy.Frontend.RemoveAuthBackendByTarget | pkg/haproxy/types/frontend.go:68-78 | keeps exactly the binds whose backend, as namespace, name and port, is not listed, in order |
| AuthProxy.KeptMeans | pkg/haproxy/types/frontend.go:55-78 | what the in-place compaction keeps is exactly what satisfies the filter |
| AuthProxy.NamesDistinct | pkg/haproxy/types/frontend.go:39-44 | different binds have different names |
| AuthProxy.Frontend.Run | pkg/haproxy/types/frontend.go:25-78 | over any run binds are strictly sorted, in range, unique per port and backend, with names and sockets of their ports, and each operation did what it says |
| RateLimiter.Limiter.When | pkg/controller/reconciler/ratelimiter.go:42-63 | the delay is between zero and the greater of wait and delta |
| RateLimiter.WindowHolds | pkg/controller/reconciler/ratelimiter.go:42-63 | times that are pairwise equal or delta apart: at most n distinct ones in a window of n times delta |
| RateLimiter.Limiter.Run | pkg/controller/reconciler/ratelimiter.go:42-63 | for any nondecreasing clock: bounded delays, scheduled times delta apart, every window bounded |
| Arithmetic.Gcd | pkg/converters/utils/lbweight.go:89-95 | a common divisor that every common divisor divides |
| Arithmetic.Lcm | pkg/converters/utils/lbweight.go:98-100 | a common multiple that divides every common multiple |
| Weights.LcmOfLengths | pkg/converters/utils/lbweight.go:27-41 | the least common multiple of the lengths that are not zero, zero if there are none |
| Weights.ShareExact | pkg/converters/utils/lbweight.go:49 | the division by the length is exact, and the share is zero if and only if the weight is |
| Weights.MeasureShares | pkg/converters/utils/lbweight.go:42-64 | a common divisor, the least and the greatest of the shares |
| Weights.WeightIs | pkg/converters/utils/lbweight.go:65-85 | the common divisor cancels out: the result is the share times one scale, rounded down, but not to zero |
| Weights.RebalanceWeight | pkg/converters/utils/lbweight.go:26-86 | weights in 0..256, zero exactly where they were, order per endpoint kept, and one factor k such that every cluster total is within its length of k times its weight; exactly: the least cluster gets the initial weight if the greatest then gets 256 at most, otherwise the greatest gets 256, and all others follow in proportion, rounded down, but not to zero |
| ProxyIds.Probe | pkg/converters/ingress/ingress.go:938-947 | ends whenever fewer than 2^31-1 ids are in use, with the first free id |
| ProxyIds.SyncEndpointHashes | pkg/converters/ingress/ingress.go:906-951 | endpoints with a TargetRef get pairwise distinct ids in 1..2^31-1, for any hash; no other endpoint changes |
| ProxyIds.IdsUnique | pkg/converters/ingress/ingress.go:920-951 | the ids are determined by the hashes and the order of TargetRefs |
| ProxyIds.OrderIndependent | pkg/converters/ingress/ingress.go:912-919 | with distinct TargetRefs the id of a pod does not depend on how the endpoints are listed |

## Left out

- Kubernetes clients, listers, leader election, status and metrics: input and output. The cluster is a parameter.
- HAProxy processes, sockets, templates, ACME: only the effect of `set server` groups is modelled. A group is accepted, or it fails and leaves its server in any state; a reload always succeeds.
- Annotations: only ssl-passthrough, header match and redirect of a path, and the path type order, are modelled; the others would add easy members.
- TLS hosts, spec.defaultBackend, TCP services, userlists and storages in syncPartial: host names of the first two are not tracked before a partial sync, so these are outside the law.
- Hash of a path link: links are compared by their fields.
- MD5, FNV and SHA hashes: uninterpreted functions.
- SyncModel.PartialEqualsFull: covers hosts and their paths; the endpoints and annotations of a backend are not part of it.
- IngressSync.Converter.SyncPartial: needs that the batch names what changed and brings the current version of it; if a service changes, host names must not have a colon, which marks TCP services in the tracker. The exact condition for objects that are not current is about the hosts served, not about their paths.
- HostsMaps.HostsMap.RebuildMatchFiles: is about the first build after all adds. A second build of the same map would find the entries placed already. Precedence needs host names without characters up to `#` in the whole map, and prefix paths in lower case, because begin paths are compared in lower case and prefix paths are not.
- MatchLookup.LongestMatchIffLongerFirst: is for hosts without header filters and regex paths, because the order of entries with different filters is not an ordering; conservation covers them.
- MatchBuild.FilteredFirst: with several filters in one host the comparison is not an ordering, and what `sort.Slice` then leaves is open.
- DynUpdate.Updater.CheckBackendPair: with a DNS resolver no command is sent, so agreement of the proxy is not claimed; labels of blue/green deployments only force a reload. Repeated targets in one backend are excluded.
- UpdateCycle.Instance.Run: is for sequence naming. Names from IP and port or from pods may repeat. It follows one backend; what the rest of the configuration asks for is a parameter of each step.
- UpdateCycle.SortEndpoints: keeps the order of equal endpoints, which the program leaves open; no result depends on it.
- Source IPs of endpoints: filled in after the update and ignored by it.
- Backends.Container.Run: excludes Clear and late removals, for which the exact conditions are stated apart, and shrinking after slots were aligned, which would recalculate the flags without them; the program aligns last. The default backend and the auth backends of the container are not modelled.
- Hosts: ordering and removal of paths of a host object, TLS and redirects would add easy members; the order of paths is part of the sync model.
- Weights.RebalanceWeight: float32 is read as exact rationals; for a cluster without endpoints the program converts an infinity, and the model takes any number there. Integers do not overflow.
- RateLimiter.Limiter.When: clock and durations are unbounded integers; the mutex makes calls a sequence.
- Writing of files: which shard files are written, and whether they are, is not modelled.
