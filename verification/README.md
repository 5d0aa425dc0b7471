# Verification of the Kubernetes agent for Nuage VSP

The agent watches Kubernetes pods, namespaces and services and mirrors them in the VSD: a zone per namespace, subnets carved
from the cluster prefix, a container with one address per pod, a network macro group per namespace and a macro per service. It keeps
all of its address management in memory and rebuilds it from the VSD after a restart. Which agent is active is decided by
leases in etcd. This project models those three parts in Dafny and proves what they are meant to guarantee -- and, where the code does
not guarantee it, exactly when it does.

**Address management.** `Ipam` is a labelled transition system over the VSD and the agent's memory, one event per range operation or
VSD request, so that crashes, namespace loading, administrators and the nodes' own clean-up may come in between. A request may be
done, refused, or done but reported as failed, and a list may be cut at its first page. `IpamSafety` has two invariants: `Sound`,
which every step keeps, and `Inv` -- no address held twice, and every range has allocated exactly the addresses of its live
containers, the one in hand and those of containers whose record has left the VSD -- which a step keeps exactly when it is
`Harmless`. `IpamTheorems` has the results for whole runs, `Recovery` those on loading and restarts, `Handlers` what the pod
handlers' runs do. `Services` holds the in-memory range and the VSD server as classes, `Agent` the handlers as methods over the
agent's maps, subnet lists and shared ranges; each method's contract says which run of the system it is. `Serving` runs the handlers
over any list of events, changes by others and process deaths. `Labels` is the interpretation of the "nuage.io/" labels.

**Leader election.** `Etcd` is the lease protocol as a timed transition system with any number of processes; `EtcdSafety` proves
what it guarantees with and without a premise on timing, and `EtcdTiming` derives that premise from the renewal loops, the etcd
client's attempts and timeouts, and how long the phases of a request and a sleep take. `EtcdClient` holds the source's own loops,
driven by arbitrary server answers, and `EtcdLink` shows that their requests are the protocol's steps and that they go through its
phases.

**Objects found by name.** `Directory` and `VsdClient` model zones, groups and macros: caches, fetch by name, create, and the
policy element that is applied when a group is made -- under requests that are refused, or done but reported as failed, lists of
groups cut at their first page, and crashes between any two requests.

**CIDR arithmetic.** `Base`, `Ipv4`, `Cidr` and `FreePool` model `initCIDRs`, `ipToInt` and `intToIP` with Go's integer widths: 64-bit
counts, shifts past the word size, int32 that wraps, addresses as four octets and as dotted-decimal text.

## What turned out

- A container create that takes effect and is reported as failed -- the VSD client does so on a broken connection or an unreadable
  reply -- makes `case2create` and `case3create` release the address of a live container, and the next pod is given it, too
  (`LostCreateDuplicates`). `PodCreated` keeps the invariant exactly when no container was made and reported as failed
  (`CreationKeepsIff`). A subnet made and reported as failed does no harm: it is as if an administrator had made it
  (`AdminSubnetKeeps`, `ReserveNew`).
- `PodDeleted` goes by what the CNI agent says of the container, whether or not the VSD still has its record. It keeps the invariant
  exactly when no live container holds the address it frees (`DeletionKeepsIff`). When it goes by the VSD's record, this means that
  the record is gone afterwards -- the error of `Delete` is dropped -- or the subnet was never loaded (`OwnRecordKeepsIff`). A
  container this process has known since it had its address is safe to delete once its record is gone (`TrueAnswerKeeps`); but after
  a restart in between, the address may be another pod's, and freeing it gives it to a third (`StaleDeletionDuplicates`). The
  process dies exactly when neither the CNI agent nor the VSD yields the container.
- A list request yields one page of fifty objects: the VSD client never asks for a second
  (vendor/github.com/nuagenetworks/go-bambou/bambou/session.go:151, 394-424), and reports no error. So `Zone.Subnets` reserves the
  addresses of at most fifty containers of a subnet. Loading keeps the invariant exactly when every subnet listed has at most fifty
  -- none, if listing its interfaces failed, an error that is dropped (`AnsweredKeepsIff`, `NamespaceCreated`). With more, a restart
  whose requests all succeed and one more pod can end in a duplicate, whichever pod is missing from the list
  (`CrowdLeadsToDuplicate`; a run from an empty VSD is `FiftyOneDuplicate`). A /27 or smaller never has that many
  (`SmallSubnetFits`). Subnets beyond the fiftieth of a zone do no harm, but stay unknown, and their prefixes cannot be obtained
  (`UnlistedIsOutOfReach`). Recovery is exact while zones and subnets fit a page (`RecoveryIsWhole`).
- These are all the ways to lose the invariant: a step keeps it exactly when it is none of the three (`StepKeepsIff`), and each of
  the three can be followed by a duplicate (`HarmLeadsToDuplicate`). Until that has happened a restart repairs everything, exactly
  if the subnets it lists have at most fifty containers (`RestartHealsIff`).
- Loading a namespace a second time in the same process makes all of its subnets custom, so that case 3 no longer uses any of them
  (`ReloadMakesCustom`).
- `Zone.Subnets` recognises cluster subnets by network address alone. A subnet it takes for non-custom lies inside the cluster
  prefix exactly when its mask is at least as long as the cluster's (`NonCustomInsideIff`); an administrator's 10.0.0.0/8 is a
  counterexample for a cluster prefix 10.0.0.0/16 (`WideSubnetTakenForCluster`).
- `initCIDRs` only logs an oversized mask. At /32 the pool is still the intended one; beyond, all prefixes become one entry with a
  nil mask (`InitCIDRs`, `CountIsRightIffFits`). The prefixes partition the cluster prefix exactly when SubnetLength is at most 11.
- The comment at vsd-client/vsd-client.go:131 says that prefixes leave `FreeCIDRs` when subnets are created; `case3create` never
  removes one. The model follows the code: what keeps subnets apart is that the VSD refuses overlaps.
- `case2create` yields no container for a pod that is already scheduled, so `PodCreated` goes on to case 3, takes a second address,
  is refused the second container and gives the address back (`AtMostOneContainer`, `PodCreated`).
- `case3create` dereferences nil when no address can be had; on a pool of well-formed prefixes the process dies exactly then
  (`Case3Create`, `PodCreated`). On the nil-mask entry of an oversized mask it also dies, at k8s-client/pod.go:409, as soon as it
  tries it; the handlers are modelled on a well-formed pool (`GoodPool`), which a configuration whose mask fits always yields
  (`PoolIsGood`).
- Settings read from labels are independent of Go's map order exactly when no two labels that agree after their first "nuage.io/"
  differ in value (`OrderIrrelevantIff`).
- `RenewKey` sleeps the larger of one second and a third of the TTL, although its comment says the smaller. While no renewal is
  answered with an etcd error other than a missing key, there is never more than one leader exactly when the longest phases add up
  to less than six seconds: one response header, one body, the overrun of a sleep, and an attempt per endpoint, where the client
  gives up a header after a second but waits for a body without limit (`SixSecondsIff`). With up to four endpoints the timeout makes
  the election safe on any network in which bodies and sleeps are quick enough (`FewEndpointsAreSafe`). One renewal that is refused
  is enough for two leaders, however fast everything is (`RefusalIsUnsafe`): the error `RenewKey` returns is dropped, and the agent
  stays a leader in its own eyes (`StalledLeaderStays`).
- The client searches for a group in the first fifty. A handler keeps group names unique and the policy element applied at most once
  per group exactly when it does not make a group that is there already (`StepKeepsIff` in `Directory`), which takes more than fifty
  groups (`FewNamesAreSeen`); then, after a restart, a group can be made and its policy applied again (`LastGroupIsMadeAgain`,
  `FiftyOneGroups`) -- unless the VSD refuses taken names. The element is never applied later if the call that made the group could
  not apply it (`RunKeepsCount`, `CountAfterMaking`).
- Macros are named by service name only: a service's group gets a macro with the service's address exactly when no macro of that
  name with another address was there (`AssignedAddressIff`).

## Premises

The VSD refuses subnets that overlap and container names that are taken, and keeps subnets; it lists a page of fifty objects, or all if
there are no more, in any order. Otherwise its answers, the CNI agent's, and the moments at which records leave and administrators
make subnets, are arbitrary. VSD subnets are aligned to their masks, and no
mask is shorter than /2, for which `ipallocator` panics. Every container has exactly one interface; netmasks are contiguous.
`NamespaceCreated` runs once per namespace and process (see `ReloadMakesCustom`). Pod handlers run one after another, as the pod
informer calls them; namespace loading, crashes and the rest may come between their steps. The agent is the only writer of zones,
groups and macros. Each etcd request is atomic, with nothing in flight from a dead process or an attempt that was given up, and etcd
never drops a key before its expiry; the timing premises of `EtcdSafety` are written out as `HostTimely`, `LeaderTimely` and `Paced`.

Addresses are integers outside `Ipv4` and `FreePool`; `KeyInjective`, `NetmaskText` and `MapIsPool` justify reading the source's string
keys and string comparisons that way.

## Model

| member | source | states |
|---|---|---|
| IpamSafety.StepKeepsIff | k8s-client/pod.go:58-140 | a step keeps the invariant exactly when it is no lost create, no release of a live container's address and no load with a container missing from the lists |
| IpamSafety.RunIsSound | k8s-client/pod.go:58-140 | every run, harmful steps included, keeps subnets apart, containers on their subnets, flags right and prefixes accounted for |
| IpamSafety.RunKeeps | k8s-client/pod.go:58-140 | every harmless run keeps the invariant: no address twice, ranges equal to live, departed and pending addresses |
| IpamTheorems.NoAddressTwice | k8s-client/pod.go:58-80 | over any harmless run, no two live pods hold one address |
| IpamTheorems.NothingLeaks | k8s-client/pod.go:66-80 | with nothing in hand, each loaded subnet has allocated exactly the addresses of its live and its departed containers |
| IpamTheorems.HarmLeadsToDuplicate | k8s-client/pod.go:458-463 | each harmful step, also with an address in hand, can be followed by a run to two live pods with one address |
| IpamTheorems.LostCreateDuplicates | k8s-client/pod.go:458-463 | a concrete run: a create that takes effect and is reported as failed ends in two pods with one address |
| IpamTheorems.StaleDeletionDuplicates | k8s-client/pod.go:96-140 | a concrete run: a record leaves, the agent restarts, and a late deletion frees the address of another pod |
| IpamTheorems.AnswersStayTrue | k8s-client/pod.go:96-116 | without a restart no other pod gets a known container's address before it is freed, whether or not the record has left |
| IpamTheorems.SubnetsStayApart | k8s-client/pod.go:399-439 | over any run, loaded subnets stay disjoint; each generated prefix is free or the address of a loaded non-custom subnet |
| Recovery.AnsweredKeepsIff | vsd-client/zone.go:61-108 | loading keeps the invariant exactly when every subnet on the first page has at most fifty containers, none if its list failed |
| Recovery.AnsweredIs | vsd-client/zone.go:61-108 | a list has fifty entries or all there are: of the zone's subnets, and of the containers on each of them |
| Recovery.CrowdLeadsToDuplicate | vsd-client/zone.go:97-104 | for any pod on a subnet with more than fifty containers: a restart with first pages only, two steps, and its address is another pod's too |
| Recovery.FiftyOneDuplicate | vsd-client/zone.go:97-104 | a run from an empty VSD: fifty-one pods on a /24, a restart and one more pod |
| Recovery.SmallSubnetFits | vsd-client/zone.go:97-104 | a subnet with a mask of at least /27 never has more containers than fit a page |
| Recovery.UnlistedIsOutOfReach | vsd-client/zone.go:67-74 | a subnet beyond the first page stays unknown, its prefix free but never obtainable |
| Recovery.RestartRebuilds | k8s-client/namespace.go:39-43 | the memory after a restart is determined by the VSD and what was listed, whatever the order of loading |
| Recovery.RecoveryRefines | vsd-client/zone.go:61-108 | for every listed subnet known before, the same allocated set and flag, less addresses in hand, departed or not listed |
| Recovery.RecoveryIsWhole | vsd-client/zone.go:61-108 | if zones and subnets fit a page, nothing known is forgotten and no prefix becomes free |
| Recovery.RestartHealsIff | k8s-client/namespace.go:39-43 | from any sound state without a duplicate, a restart restores the invariant exactly when the listed subnets have at most fifty containers |
| IpamTheorems.HarmIsLatent | k8s-client/pod.go:458-463 | no single step, harmful or not, makes a duplicate address: what it breaks a restart can still repair |
| IpamTheorems.NonCustomInsideIff | vsd-client/zone.go:77-86 | a non-custom subnet lies inside the cluster prefix exactly when its mask is at least as long |
| IpamTheorems.WideSubnetTakenForCluster | vsd-client/zone.go:78-80 | a concrete run in which a subnet wider than the cluster prefix is taken for non-custom |
| IpamTheorems.ReloadMakesCustom | vsd-client/zone.go:77-86 | loading a namespace twice makes all its subnets custom, and case 3 sees none of them |
| IpamTheorems.PoolIsGood | vsd-client/vsd-client.go:214-247 | the generated pool meets what the address management needs of it |
| IpamSafety.UnloadedPrefixIsFree | vsd-client/zone.go:77-86 | a subnet not loaded yet has its prefix in the pool exactly when it is a cluster prefix |
| IpamSafety.ReservedIsUnused | k8s-client/pod.go:318-347 | a reserved address belongs to no live container of any subnet |
| IpamSafety.LoadKeepsIff | vsd-client/zone.go:97-104 | loading any of the zone's subnets keeps the invariant exactly when none of their containers is missing from the interface lists |
| IpamSafety.AdminSubnetKeeps | k8s-client/pod.go:420-424 | a subnet the agent is not told of, its own lost one included, keeps the invariant |
| Ipam.ContainerNameInjective | k8s-client/pod.go:25-27 | container names tell pods apart |
| Ipam.ContainerNameIs | k8s-client/pod.go:25-27 | pod name, underscore, namespace |
| Handlers.CreationKeeps | k8s-client/pod.go:58-80 | creating a pod changes no other container, no existing subnet and no free prefix |
| Handlers.AtMostOneContainer | k8s-client/pod.go:66-80 | a pod never gets a second container; each further attempt ends with a release |
| Handlers.CreationKeepsIff | k8s-client/pod.go:342-347 | creating a pod keeps the invariant exactly when no container was made and reported as failed |
| IpamTheorems.ReleaseFindsItsSubnet | k8s-client/pod.go:118-131 | masking an allocated address gives its own subnet's address and no other loaded subnet's |
| Handlers.DeletionKeepsIff | k8s-client/pod.go:118-140 | deleting a pod keeps the invariant exactly when no live container holds the freed address afterwards |
| Handlers.OwnRecordFindsHome | k8s-client/pod.go:120-131 | for a container the VSD has, the release loop finds its own subnet, if loaded, and no other |
| Handlers.OwnRecordKeepsIff | k8s-client/pod.go:103-140 | deleting by the VSD's record keeps the invariant exactly when the record is gone or its subnet was never loaded |
| Handlers.TrueAnswerKeeps | k8s-client/pod.go:96-140 | without a restart, what the CNI agent says finds the right subnet and frees an address nobody holds |
| Services.Range.Allocate | vendor/k8s.io/kubernetes/pkg/registry/core/service/ipallocator/allocator.go:132-146 | takes a given address unless it is taken or outside the range |
| Services.Range.AllocateNext | vendor/k8s.io/kubernetes/pkg/registry/core/service/ipallocator/allocator.go:148-160 | takes some free address; fails only when full |
| Services.VsdServer.CreateSubnet | vsd-client/zone.go:111-122 | made exactly when not refused and nothing overlaps; told only if the answer is fine |
| Labels.SettingsAre | k8s-client/pod.go:253-261 | the settings are exactly those the labels name, with the labels' values |
| Labels.OrderIrrelevantIff | k8s-client/pod.go:253-261 | the settings do not depend on iteration order exactly when no two labels conflict |
| Labels.SettingIs | k8s-client/pod.go:255-258 | the setting a label is about is what follows its first "nuage.io/", unless that is empty |
| Labels.NoSetting | k8s-client/pod.go:255-258 | a label without "nuage.io/" is about no setting |
| Labels.ParseLabels | k8s-client/pod.go:253-261 | the loop computes the settings for some order of visiting the labels |
| Agent.Agent.ReserveExisting | k8s-client/pod.go:384-397 | first fit: an address of the first non-custom subnet that is not full, none exactly when all are full |
| Agent.Agent.ReserveNew | k8s-client/pod.go:399-439 | a new subnet whenever some prefix can be obtained, in any iteration order; prefixes made subnets without notice on the way |
| Agent.Agent.Settle | k8s-client/pod.go:342-347 | the container is made and told of, or the address is given back to its range -- also when it was made and not told of |
| Agent.Agent.Case3Create | k8s-client/pod.go:367-479 | its run, result and cache: first fit, then container, lost container or release; dies exactly when no address can be had |
| Agent.Agent.ChooseNetwork | k8s-client/pod.go:277-299 | the first custom subnet whose name is the "Subnet" setting, if there is one; the address the "IPAddress" setting spells, none if it has anything but digits and dots; in any order of settings |
| Agent.Agent.Case2Create | k8s-client/pod.go:236-363 | its run for every set of labels: it takes an address only of the first custom subnet of the name asked for, and the address spelled if one is; result and cache |
| Agent.Case2Is | k8s-client/pod.go:277-330 | when there is such a subnet, case 2 takes nothing exactly if the address given is outside it or taken or, without one, if it is full |
| Agent.Agent.CreateContainerFor | k8s-client/pod.go:66-80 | cases 2 and 3 as one run, exactly: when case 3 follows, and how it ends after case 2 has made a container |
| Agent.Agent.PodCreated | k8s-client/pod.go:30-84 | how each attempt ends, when the process dies, and what is cached, all by answers, lists and records: a container the agent was told of for a pod without a node, and nothing else; when a container is lost and the invariant with it; what survives |
| Agent.FirstFitIs | k8s-client/pod.go:384-397 | the existing subnet case 3 of a `PodCreated` takes from is the first non-custom one in the list with an address left |
| Agent.SubnetNameIs | k8s-client/pod.go:407 | the name of a new subnet: namespace, dash, the number of its subnets so far in decimal |
| Agent.Agent.RangesMatchContainers | k8s-client/pod.go:66-80 | between handlers every range object has allocated exactly the addresses of its live and departed containers |
| Agent.Agent.ReleaseIn | k8s-client/pod.go:118-140 | the first subnet with the masked address gets the address back, no other range changes |
| Handlers.FindsIff | k8s-client/pod.go:120-131 | the release loop finds a subnet exactly if it is one of the namespace whose address is the container's with its host bits cleared |
| Agent.Agent.PodDeleted | k8s-client/pod.go:86-157 | for any answer of the CNI agent, record there or not: when the process dies, when the record goes, which one address leaves which one range, and when the invariant survives |
| Agent.Agent.PodUpdated | k8s-client/pod.go:159-191 | the container is submitted and leaves the cache exactly when the pod has become scheduled and submitting succeeds |
| Serving.CreateThenSchedule | k8s-client/pod.go:159-191 | a pod created without a node and scheduled later: exactly the container the agent was told of is submitted, and the cache is as before; without one, nothing is |
| Agent.Agent.ZoneSubnets | vsd-client/zone.go:61-108 | the first page of the zone's subnets, ranges filled with the first page of each interface list, prefixes out of the pool |
| Agent.Agent.NamespaceCreated | k8s-client/namespace.go:17-50 | one load with the pages the VSD yields, under the VSD's names; other lists stay; keeps the invariant exactly when every subnet listed has at most fifty containers, none if its list failed |
| Serving.Handle | k8s-client/pod.go:30-191 | for one event of any kind, which steps are taken, whether the process dies, and the lists and the cache afterwards; the invariant survives exactly when all steps are harmless, and whenever the call is mild |
| Serving.Serve | k8s-client/pod.go:30-191 | over any events, answers, changes by others and deaths each call does just that, and all of it is a run; if it is harmless or all calls are mild, no two pods share an address and ranges are exact |
| EtcdTiming.TimedRunIsPaced | etcd-client/etcd-leader-election.go:197-216 | renewal loops with bounded phases give runs in which every key was set at most a period and the longest phases ago |
| EtcdTiming.SixSecondsIff | etcd-client/etcd-leader-election.go:197-257 | while no renewal is refused: never two leaders exactly when header (a second at most), body, overrun and one attempt per endpoint (a second at most each) take less than six seconds |
| EtcdTiming.FewEndpointsAreSafe | etcd-client/etcd-leader-election.go:254-258 | one to four endpoints are safe on any network in which bodies and overruns are short enough |
| EtcdTiming.RefusalIsUnsafe | etcd-client/etcd-leader-election.go:197-202 | one refused renewal of the leader key, however fast the network, and there are two leaders |
| EtcdTiming.ShortPhasesAreSafe | etcd-client/etcd-leader-election.go:197-216 | below six seconds: one leader, holding the key under its host's name, and one process per host |
| EtcdSafety.ElectionIsSafe | etcd-client/etcd-leader-election.go:197-216 | with keys set at most a period and six seconds ago: one leader, one process per host |
| EtcdSafety.OneLeader | etcd-client/etcd-leader-election.go:241-308 | at most one live leader, and the leader key holds its hostname |
| EtcdSafety.RenewsOwnLeaseOnly | etcd-client/etcd-leader-election.go:163-168 | one process per host, and each successful renewal extends a lease of the same process |
| EtcdSafety.ValueStays | etcd-client/etcd-leader-election.go:76-83 | without any premise, a key never changes value without having been absent in between |
| EtcdSafety.StalledLeaderStays | etcd-client/etcd-leader-election.go:199-202 | a run with two leaders once one leader's renewals stall; its failed renewal only ends its loop |
| EtcdSafety.RenewsAnothersLease | etcd-client/etcd-leader-election.go:163-168 | a run in which a process that outlived its host key extends another's leader lease |
| EtcdSafety.SlackIff | etcd-client/etcd-leader-election.go:205-213 | the renewal period is below the TTL exactly when the TTL exceeds a second and there are at least two clients |
| EtcdClient.SuccessIff | etcd-client/etcd-leader-election.go:100-158 | `BlockforKey` succeeds exactly when its last create did; all earlier ones found the key taken |
| EtcdClient.AttemptsCount | etcd-client/etcd-leader-election.go:131-136 | one create request plus one per "delete" and one per "expire" notice consumed |
| EtcdClient.AnswerDecides | etcd-client/etcd-leader-election.go:100-152 | what each answer to a create leads to: success, waiting for error 105, failure for any other etcd error, death for the rest |
| EtcdClient.GoneCreatesAgain | etcd-client/etcd-leader-election.go:131-136 | after "delete" or "expire", one more create and the outcome of the remaining answers and notices |
| EtcdClient.SwapChangesNothing | etcd-client/etcd-leader-election.go:137-138 | "compareAndSwap" changes nothing |
| EtcdClient.OtherNoticesKill | etcd-client/etcd-leader-election.go:124-147 | any other action, or an error of the watch, is the death of the process without another create |
| EtcdClient.SwapsCostNothing | etcd-client/etcd-leader-election.go:137-138 | compareAndSwap notices change neither outcome nor attempts |
| EtcdClient.LeadsIff | etcd-client/etcd-leader-election.go:270-304 | the agent leads exactly when its host was registered and its last attempt at the leader key succeeded |
| EtcdClient.Myetcdclient.BlockforKey | etcd-client/etcd-leader-election.go:100-158 | the nested loops with their jump do what the simple loop does, which the rows above describe by answers and names of notices, and send exactly its create requests |
| EtcdClient.Myetcdclient.CASKey | etcd-client/etcd-leader-election.go:161-194 | one compare-and-swap request with old value, new value and TTL; missing key or foreign error fatal, other etcd errors returned |
| EtcdClient.Myetcdclient.RenewKey | etcd-client/etcd-leader-election.go:197-216 | swaps of the value for itself until the first failure, three seconds of sleep after each success; how it ends |
| EtcdClient.RenewEndsQuietlyIff | etcd-client/etcd-leader-election.go:180-202 | a renewal loop ends with the process living on exactly when its first failure is an etcd error other than 100 |
| EtcdClient.Myetcdclient.LeaderElection | etcd-client/etcd-leader-election.go:241-308 | outcome, requests, renewal loops started and sleep, for all server answers |
| EtcdLink.StepIsRequest | etcd-client/etcd-leader-election.go:76-194 | the protocol's steps are the client's create and compare-and-swap requests, and processes go by the answers |
| EtcdLink.PhaseIsOutcome | etcd-client/etcd-leader-election.go:100-158 | among any other processes, a process leads, watches or tries exactly as its `BlockforKey` call stands |
| Directory.RunKeeps | k8s-client/service.go:43-87 | over any run with crashes in which no group is made that is there: each name once, caches agree, policy element at most once per group |
| Directory.StepKeepsIff | vsd-client/network-macro-group.go:16-49 | a handler keeps names unique, caches right and policies applied once exactly when it makes no group that is there already |
| Directory.FewNamesAreSeen | vsd-client/network-macro-group.go:35-46 | with at most fifty group names ever wanted, no group is overlooked |
| Directory.LastGroupIsMadeAgain | vsd-client/network-macro-group.go:35-46 | with more than fifty groups, the last one is made again after a restart and its policy element applied once more |
| Directory.FiftyOneGroups | vsd-client/network-macro-group.go:35-46 | the failing input: fifty-one groups |
| Directory.FilterIsSearchIff | vsd-client/network-macro-group.go:32-46 | filtering and searching find the same object exactly unless it is beyond the first page |
| Directory.EnsureKeepsIff | vsd-client/zone.go:18-57 | fetch-or-create keeps names unique and the cache right exactly unless an object is overlooked and another one made |
| Directory.ReplayCreatesNothing | k8s-client/service.go:43-87 | an event handled before creates nothing and applies nothing when handled again, as long as no group is overlooked |
| Directory.RunKeepsCount | k8s-client/service.go:52-67 | once a group exists its policy element is never applied any more, as long as no group is overlooked |
| Directory.CountAfterMaking | k8s-client/service.go:52-67 | the call that makes a group applies the element exactly when both requests take effect and the creation is reported |
| Directory.AssignedAddressIff | k8s-client/service.go:69-90 | the macro is assigned to the group, nothing else is; it has the service's address exactly when no macro of that name with another address was there |
| VsdClient.Client.Serve | k8s-client/service.go:19-94 | the imperative handlers, over any list of events and deaths, end in the state of the run, in order if no group is overlooked; the rows below say how each handler of it ends and what it leaves |
| Directory.NamespaceEnds | k8s-client/namespace.go:17-31 | done, failed or dead, by the two answers and by what is cached and there; which zone is made and what is cached |
| Directory.ServiceEnds | k8s-client/service.go:43-90 | done, failed or dead, by the six answers and by what is cached and there: dead exactly if the first request it cannot make is one the process dies before |
| Directory.CachesStay | k8s-client/service.go:19-94 | a process that lives forgets no zone, group or macro, whatever is refused or lost; one that dies leaves empty caches |
| Directory.EnsureLeaves | vsd-client/zone.go:18-57 | fetch-or-create makes an object exactly if none was found and the VSD made one, and caches exactly what it was told of |
| FreePool.InitCIDRs | vsd-client/vsd-client.go:214-247 | for every cluster prefix and every 64-bit SubnetLength, what the map holds afterwards, and how many entries: 2^SubnetLength or 2048, or the one of an oversized mask |
| FreePool.CountIsRightIffFits | vsd-client/vsd-client.go:227-231 | the map has as many entries as configured exactly when the resulting mask is at most 32 |
| FreePool.PoolIsWellFormed | vsd-client/vsd-client.go:233-244 | the pool has 2^SubnetLength prefixes, or 2048 if SubnetLength is above 11, aligned, disjoint, inside the cluster prefix |
| FreePool.PoolHas | vsd-client/vsd-client.go:239-241 | the i-th prefix starts i blocks above the cluster prefix and has a mask SubnetLength longer |
| FreePool.PoolIndex | vsd-client/vsd-client.go:239-241 | there are no other prefixes |
| FreePool.HighestPrefix | vsd-client/vsd-client.go:239 | above length 11 the highest prefix starts 2047 blocks above the cluster prefix |
| FreePool.PoolPartitionsIffShort | vsd-client/vsd-client.go:239 | the prefixes partition the cluster prefix exactly when SubnetLength is at most 11 |
| FreePool.MapIsPool | vsd-client/vsd-client.go:54-55 | the string-keyed map is the pool of prefixes under the text of their addresses |
| Ipv4.IntRoundTrip | vsd-client/vsd-client.go:249-259 | `ipToInt` and `intToIP` undo each other on every address and every int32 |
| Ipv4.OctetsSpelled | vsd-client/vsd-client.go:249-252 | the first octet counts most: the value of an address from its octets |
| Ipv4.WrappingAdditionIsExact | vsd-client/vsd-client.go:240 | int32 addition that wraps gives the same address as unbounded addition, also from 128.0.0.0 up |
| Ipv4.PrintParse | k8s-client/pod.go:121-125 | parsing the dotted-decimal text of an address gives it back |
| Ipv4.TextSpelled | k8s-client/pod.go:121-125 | the text of an address: four decimal numbers with dots between them |
| Ipv4.DecimalSpelled | k8s-client/pod.go:121-125 | such a number has no leading zeros, only digits, and their value |
| Ipv4.OnlyDigitsAndDots | k8s-client/pod.go:291 | text that is accepted as an address has only digits and three dots |
| Ipv4.TenZeroZeroOne | k8s-client/pod.go:121-125 | "10.0.0.1" is 0x0a000001 |
| Ipv4.KeyInjective | vsd-client/vsd-client.go:241 | two addresses have the same map key exactly when they are equal |
| Ipv4.NetmaskText | k8s-client/pod.go:409 | netmask text can be parsed back and determines the mask length |
| Cidr.OverlapIsSharing | vsd-client/zone.go:76 | prefixes overlap exactly when they share an address |
| Cidr.HasIffMasked | k8s-client/pod.go:125-131 | an address lies in a prefix exactly when masking it yields the prefix's address |
| Cidr.NestedIffNotLarger | vsd-client/zone.go:76-86 | a block that starts inside another lies inside it exactly when it is not larger |

## Left out

- Election liveness: a watch opened at the current index can miss an expiry just before it, so nothing is claimed about a waiter winning in the end.
- TLS, YAML, flags, kubeconfig and HTTP setup, and finding or creating the enterprise and the domain: input and output only.
- Network policies, `policies.go` and the contents of policy elements: only that the allow-services element was applied is kept, as a count.
- `GenerateMAC`, container UUIDs, log output, `Myetcdclient.Resp`, `GetKey`, and the stubs for deleted and updated namespaces and services: no behaviour that matters here.
- Containers with no or several interfaces: excluded by the premise above, including the early return of `PodDeleted` for leftovers.
- Pools with a nil-mask entry, beyond `FreePool`: `Agent` runs on well-formed pools only (see above).
- A second `NamespaceCreated` for the same namespace in one process: only its effect on the flags is stated, in `ReloadMakesCustom`.
- The ten-second wait for a namespace in `PodCreated` and `ServiceCreated`: modelled as whether the namespace is loaded.
- Goroutines that touch a Go map at the same moment: loading a namespace is one step of `Ipam`, and so is each range operation and VSD request.
- Pointer sharing between a cached zone, group or macro and its users: objects are values in `Directory`, as nothing changes them after they are cached.
- IPv4-mapped IPv6 text, which `net.ParseIP` also accepts for a custom address.
- What the VSD does with a macro's earlier group when it is assigned to another: assignments are kept as a set of requests.
- Agent.Agent.PodCreated: whether the container of an already scheduled pod reaches the CNI agent server has no result of its own; nothing the agent keeps depends on it.
- EtcdLink.PhaseIsOutcome: a process that ended is not distinguished by the reason it ended for.
- Services.VsdServer.CreateSubnet: subnet identifiers are some unused number instead of the VSD's UUIDs.
