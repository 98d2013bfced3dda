# Verification of Tennison

Tennison watches a software-defined network. Switches export flow records (IPFIX) and mirror
traffic to Snort; a coordinator compares what arrives with thresholds and answers by mirroring,
redirecting or blocking traffic through the ONOS controller. This project models the parts of it
in which state, protocols and arithmetic meet, and proves what they are for.

- **Snort tunnels** (`Network.dfy`, `SnortTunnel.dfy`). Every switch keeps the number of hops to
  its nearest Snort and a bucket that sends a packet one link closer. An incremental, pruned
  breadth-first search per Snort keeps both. Hop counts are exact distances, no bucket write ever
  creates a loop, and packets are delivered in exactly as many links as the count says.
- **Snort rules** (`SnortRules.dfy`, `SnortManager.dfy`). Registering and removing Snorts, pending
  mirror and redirect rules, drop rules against duplicated traffic, as an automaton over elementary
  calls; the class is proved to be runs of it. What the rules do to packets, and what is registered,
  awaited and tunnelled, is stated by tables, groups and the positions of calls in a run.
- **Thresholds** (`PythonValues.dfy`, `ThresholdMatching.dfy`, `IpfixHandler.dfy`,
  `ThresholdFile.dfy`, `Watson.dfy`, `Coordinator.dfy`). An index by field names over objects
  that the northbound interface changes in place, rebuilt when a shallow copy compares unequal:
  its look-ups are those of a scan, exactly as long as no update changes field names that matter.
  Each of the nine metrics is judged exactly by the messages so far. Saving and loading is the
  identity exactly for thresholds without an `id` entry.
- **Rates and statistics** (`FlowRates.dfy`, `OnlineStatistics.dfy`, `Flows.dfy`,
  `FlowTimeline.dfy`, `ThresholdUpdater.dfy`). Per-flow averages, Welford's algorithm inside a
  session machine, and smoothed thresholds learnt in windows, against unbounded histories; which
  records count, and the gaps and rates between them, by their positions alone.
- **OpenFlow channel** (`OpenFlowChannel.dfy`, `OpenFlowHandler.dfy`, `OpenFlowDelivery.dfy`). The
  handshake of sections 6.3.1 and 7.3.1 of the OpenFlow Switch Specification 1.3 with the
  sub-handshake of the HP driver, and the conservation, in order, of every kind of message that is
  for the switch.
- **IPFIX encoding** (`Bytes.dfy`, `IpfixTemplates.dfy`, `IpfixRecords.dfy`,
  `IpfixDataRecords.dfy`). Templates and data records, decoded by a reader written from sections
  3.2, 3.4.1, 3.4.3, 7 and 8.1 of RFC 7011.
- **Alert relay** (`PigRelay.dfy`) and **distributed attacks** (`DdosTracker.dfy`). Reframing a
  byte stream, and counting sources over a sliding window.

Classes keep the fields of the source's objects; ghost fields hold the history that the fields are
measured against. `dafny verify dfyconfig.toml` checks everything.

## Where the code and its description differ

The model follows the code. These are proved, with the exact condition under which the description
holds and, for most, a concrete run in which it does not:

- Updating a threshold in place so that its field names change leaves the index stale, because the
  shallow copy holds the same object and still compares equal
  (`Coordinator.Tennison.UpdateIpfixThreshold`, `Coordinator.UpdateHidesAThreshold`).
- A threshold on the valid metric `time_diff` raises a TypeError, because a number is compared with
  a time difference (`FlowRates.TimeDifferenceRaisesIff`).
- Removing a Snort threshold does not write the file, so that a restart brings it back
  (`Watson.WatsonNBI.RemoveSnort`).
- Saving overwrites an `id` entry of a threshold and loading deletes it
  (`ThresholdFile.SaveLoadIsIdentityIff`, `ThresholdFile.OwnIdIsLost`).
- The fields called standard deviations hold sample variances (`Flows.Flow.TimesAreExact`). A zero
  time gap advances the counter without a rate (`Flows.Flow.RatesAreExact`,
  `Flows.ZeroGapHasNoRate`). An `ipfix` record without octets during an idle gap spoils the idle
  mean (`Flows.Flow.IdleIsExact`, `Flows.NothingLostIff`, `Flows.LostRecordSpoilsTheMean`).
- With a minimum step of zero or less the updater takes the same values again
  (`ThresholdUpdater.RunTilesIff`, `ThresholdUpdater.TwoUpdatesOverlapIff`), and it raises on a flow
  without rates (`ThresholdUpdater.Updater.UpdateThresholds`).
- Port-status messages that arrive during the driver's sub-handshake are given to the driver; the
  handler that would buffer them is never reached (`OpenFlowChannel.AllPortStatusesArriveIff`,
  `OpenFlowChannel.PortStatusLost`). HP's driver cannot be started for version 1.0
  (`OpenFlowHandler.OpenFlowSwitch.StartDriverHandshake`).
- Removing one of two Snorts on a port removes the drop rule of both, and a Snort that moves leaves
  its old drop rule behind (`SnortRules.AgreeThroughoutIff`, `SnortRules.SharedPortLosesDropRule`).
  Deleting a rule takes one of possibly several pending entries off the list
  (`SnortRules.WithdrawnTrafficReturnsIff`). A mirror and a redirect rule for the same traffic have
  the same key: they replace and delete each other (`SnortRules.RuleStaysOverRunIff`,
  `SnortRules.MirrorDeletionDeletesRedirect`). Once the last Snort of a device was removed, no rule
  can be added or deleted on it, nor on the devices listed after it
  (`SnortManagers.SnortManager.AddRule`, `SnortManagers.SnortManager.DeleteRule`).
- An address of version 6 in a field for version 4 is cut without an error
  (`IpfixDataRecords.Ipv4RecordDecodes`).
- The list of possible attacks is never filled, so every further sighting above the threshold
  installs the mirror again (`DdosTracker.IPFIXDDoS.Count`).

## Model

| member | source | states |
|---|---|---|
| SnortTunnels.HopsAreExact | onos-tennison-apps/snort/src/main/java/org/onosproject/snort/SnortTunnel.java:89-139 | Whenever no search is running, the recorded count of a device is its distance to the nearest Snort set up since the last reset, and -1 exactly when none can be reached. |
| SnortTunnels.PacketsReachTheNearestSnort | onos-tennison-apps/snort/src/main/java/org/onosproject/snort/SnortTunnel.java:101-138 | A packet at a device with a count follows the buckets over exactly that many links and leaves by the port of a nearest Snort. |
| SnortTunnels.NoLoopAfterAnyWrite | onos-tennison-apps/snort/src/main/java/org/onosproject/snort/SnortTunnel.java:104-110 | After every single bucket write, also in the middle of a search, forwarding ends at a Snort port after at most as many links as the count says. |
| SnortTunnels.DownhillDelivers | onos-tennison-apps/snort/src/main/java/org/onosproject/snort/SnortTunnel.java:101-138 | The invariant behind it: if every bucket leads to a smaller count, every packet is delivered, along a path of links. |
| SnortTunnels.DeliveryIsUnique | onos-tennison-apps/snort/src/main/java/org/onosproject/snort/SnortTunnel.java:124-132 | The route of a packet has one length, one exit and one exit port. |
| SnortTunnels.WrittenStatesAreDownhill | onos-tennison-apps/snort/src/main/java/org/onosproject/snort/SnortTunnel.java:110-132 | Every state recorded at a bucket write has the downhill property. |
| SnortTunnels.NoShorterPath | onos-tennison-apps/snort/src/main/java/org/onosproject/snort/SnortTunnel.java:122-124 | No path of links to a Snort is shorter than the recorded count: pruning on the old counts is the triangle inequality. |
| SnortTunnels.OrderDoesNotMatter | onos-tennison-apps/snort/src/main/java/org/onosproject/snort/SnortTunnel.java:67-69 | Two states set up from the same Snorts have the same counts, whatever the order in which the map yielded them. |
| SnortTunnels.StartIsSearch | onos-tennison-apps/snort/src/main/java/org/onosproject/snort/SnortTunnel.java:91-113 | Putting a new Snort on its device into a settled network starts the search invariant. |
| SnortTunnels.ImproveKeepsSearch | onos-tennison-apps/snort/src/main/java/org/onosproject/snort/SnortTunnel.java:121-135 | Lowering a count and queueing its device keeps the search invariant: what is unseen still gets its best offer first. |
| SnortTunnels.ImproveKeepsDownhill | onos-tennison-apps/snort/src/main/java/org/onosproject/snort/SnortTunnel.java:124-132 | The write of a new bucket keeps every bucket pointing to a smaller count. |
| SnortTunnels.ImproveKeepsRecord | onos-tennison-apps/snort/src/main/java/org/onosproject/snort/SnortTunnel.java:124-135 | Whoever enters the queue got closer to a Snort and enters it once, in order of counts. |
| SnortTunnels.SnortTunnel.Event | onos-tennison-apps/snort/src/main/java/org/onosproject/snort/SnortTunnel.java:53-71 | A device event updates the known Snorts and recomputes everything from them; other events change nothing. |
| SnortTunnels.SnortTunnel.Recompute | onos-tennison-apps/snort/src/main/java/org/onosproject/snort/SnortTunnel.java:62-70 | After a recomputation the sources of the counts are exactly the known Snorts. |
| SnortTunnels.SnortTunnel.AddSnort | onos-tennison-apps/snort/src/main/java/org/onosproject/snort/SnortTunnel.java:73-77 | Adds one source and restores all invariants incrementally. |
| SnortTunnels.SnortTunnel.RemoveSnort | onos-tennison-apps/snort/src/main/java/org/onosproject/snort/SnortTunnel.java:79-82 | Forgets a Snort without touching counts or buckets. |
| SnortTunnels.SnortTunnel.ClearSnort | onos-tennison-apps/snort/src/main/java/org/onosproject/snort/SnortTunnel.java:84-87 | Forgets all Snorts without touching counts or buckets. |
| SnortTunnels.SnortTunnel.SetupSnortTunnel | onos-tennison-apps/snort/src/main/java/org/onosproject/snort/SnortTunnel.java:89-139 | One search: keeps all invariants, queues and writes each device at most once in order of counts, and touches exactly the devices that got closer. |
| SnortTunnels.SnortTunnel.Spread | onos-tennison-apps/snort/src/main/java/org/onosproject/snort/SnortTunnel.java:112-138 | The search proper terminates and leaves neighbouring counts at most one apart. |
| SnortTunnels.SnortTunnel.PrepareSearch | onos-tennison-apps/snort/src/main/java/org/onosproject/snort/SnortTunnel.java:91-99 | Every known device starts unseen and has a count, without changing any. |
| SnortTunnels.SnortTunnel.LookAtLink | onos-tennison-apps/snort/src/main/java/org/onosproject/snort/SnortTunnel.java:119-136 | One link: at most one improvement, and either an unseen device is seen or nothing changes. |
| SnortTunnels.SnortTunnel.LookAtLinks | onos-tennison-apps/snort/src/main/java/org/onosproject/snort/SnortTunnel.java:117-137 | All links of one device: the termination measure of the search decreases. |
| SnortRules.RunsAreConsistent | onos-tennison-apps/snort/src/main/java/org/onosproject/snort/SnortManager.java:168-311 | In every run no device has both a Snort and a pending list, the recorded drop rules are exactly those installed, tunnels end at ports of registered Snorts, and no address is awaited twice. |
| SnortRules.AgreeThroughoutIff | onos-tennison-apps/snort/src/main/java/org/onosproject/snort/SnortManager.java:168-311 | Over whole runs: every registered port keeps its drop rule throughout if and only if no Snort is removed while another uses its port; and no drop rule outlives its Snort if and only if, besides, none moves off a port it had to itself. |
| SnortRules.StaysProtectedIff | onos-tennison-apps/snort/src/main/java/org/onosproject/snort/SnortManager.java:248-311 | One call keeps all registered ports protected exactly if it is not such a removal. |
| SnortRules.StaysLeanIff | onos-tennison-apps/snort/src/main/java/org/onosproject/snort/SnortManager.java:168-217 | One call leaves no drop rule without a Snort behind exactly if it is not such a move. |
| SnortRules.SharedPortLosesDropRule | onos-tennison-apps/snort/src/main/java/org/onosproject/snort/SnortManager.java:248-260 | The concrete run: two Snorts on one port, one removed, and the other port is unprotected. |
| SnortRules.PendingIsInstalled | onos-tennison-apps/snort/src/main/java/org/onosproject/snort/SnortManager.java:194-211 | When a Snort appears, the traffic of every pending selector of its device reaches group 500 on VLAN 500 for 10 seconds, and goes on in table 20 if it is mirrored only; a redirect overwrites a mirror, and the lists are gone. |
| SnortRules.PendingRuleIsInstalled | onos-tennison-apps/snort/src/main/java/org/onosproject/snort/SnortManager.java:182-211 | Over runs: traffic asked for on a device without a Snort is sent, as asked, once a Snort appears there, whatever calls come in between, unless one asked to delete it. |
| SnortRules.StaysPendingOverRun | onos-tennison-apps/snort/src/main/java/org/onosproject/snort/SnortManager.java:445-470 | A pending selector stays pending over every run without a Snort for its device and without its own deletion. |
| SnortRules.RuleStaysOverRunIff | onos-tennison-apps/snort/src/main/java/org/onosproject/snort/SnortManager.java:487-501 | Over runs: an installed rule of either kind stays, unchanged, if and only if no call deletes a rule of either kind for the same traffic while its device can be served. |
| SnortRules.MirrorDeletionDeletesRedirect | onos-tennison-apps/snort/src/main/java/org/onosproject/snort/SnortManager.java:657-691 | The concrete run: a redirect rule replaces the mirror rule, so that the traffic only reaches Snort, and deleting the mirror rule deletes the redirect, which stays pending. |
| SnortRules.WithdrawnTrafficReturnsIff | onos-tennison-apps/snort/src/main/java/org/onosproject/snort/SnortManager.java:487-501 | After deleting both kinds of rule on all devices, a Snort appearing on a device brings the rule back if and only if its selector was pending at least twice: deleting takes one occurrence. |
| SnortRules.WithdrawTakesOne | onos-tennison-apps/snort/src/main/java/org/onosproject/snort/SnortManager.java:534-537 | Deleting on all devices removes their tunnel rules and one occurrence from each pending list. |
| SnortRules.UnsendAllTakesOne | onos-tennison-apps/snort/src/main/java/org/onosproject/snort/SnortManager.java:394-406 | The same for one kind of rule. |
| SnortRules.PendingCountsEveryMention | onos-tennison-apps/snort/src/main/java/org/onosproject/snort/SnortManager.java:445-470 | A device without a Snort gets one pending entry for each of its matching flows. |
| SnortRules.SendingInstalls | onos-tennison-apps/snort/src/main/java/org/onosproject/snort/SnortManager.java:618-691 | On every chosen device that can be served the traffic reaches group 500 on VLAN 500; mirrored traffic goes on in table 20, redirected traffic goes nowhere else; for the time asked for if it is positive, else for good. |
| SnortRules.LastWordCounts | onos-tennison-apps/snort/src/main/java/org/onosproject/snort/SnortManager.java:445-501 | Over runs: the last request about some traffic decides, in these terms, what happens to it, until a later call on that traffic. |
| SnortRules.TunnelRuleSends | onos-tennison-apps/snort/src/main/java/org/onosproject/snort/SnortManager.java:618-691 | A mirror rule lets the packet go on in table 20, a redirect rule does not; both bring it to the group of the Snorts. |
| SnortRules.BlockingDrops | onos-tennison-apps/snort/src/main/java/org/onosproject/snort/SnortManager.java:515-532 | Blocking drops the traffic on every chosen device, in table 100, for the time asked for if it is positive, and leaves tunnel rules, drop rules for Snort ports and pending lists alone. |
| SnortRules.UnblockingLifts | onos-tennison-apps/snort/src/main/java/org/onosproject/snort/SnortManager.java:549-557 | Lifting a block takes away exactly the block rules of the devices. |
| SnortRules.SameSelectorIff | onos-tennison-apps/snort/src/main/java/org/onosproject/snort/SnortManager.java:567-609 | Two requests give the same selector exactly if they agree, up to ports of unnamed protocols and ICMP fields modulo 256. |
| SnortRules.SelectorMeans | onos-tennison-apps/snort/src/main/java/org/onosproject/snort/SnortManager.java:567-609 | A selector asks for each address and port that the request gives as a number, ICMP type and code as signed bytes, and for nothing that it leaves open; there is none exactly if something that is looked at cannot be read. |
| SnortRules.TunnelsAreKept | onos-tennison-apps/snort/src/main/java/org/onosproject/snort/SnortManager.java:189-192 | Every tunnel keeps ending at a port of a registered Snort. |
| SnortRules.RegistrationsByPosition | onos-tennison-apps/snort/src/main/java/org/onosproject/snort/SnortManager.java:182-279 | After any run a Snort has on a device exactly the port it was last registered at, unless it was removed or all were cleared since. |
| SnortRules.TunnelsByPosition | onos-tennison-apps/snort/src/main/java/org/onosproject/snort/SnortManager.java:189-279 | After any run a device has a tunnel to the port last registered there, exactly if no Snort of the device was removed and none were cleared since. |
| SnortRules.AwaitedByPosition | onos-tennison-apps/snort/src/main/java/org/onosproject/snort/SnortManager.java:168-279 | An address is awaited exactly if it has been named, and neither removed nor cleared since. |
| SnortRules.KnownByPosition | onos-tennison-apps/snort/src/main/java/org/onosproject/snort/SnortManager.java:182-279 | A device stays known from its first Snort until all are cleared, also when no Snort is left on it. |
| SnortRules.HasPortIff | onos-tennison-apps/snort/src/main/java/org/onosproject/snort/SnortManager.java:759-764 | A rule for a device fails exactly if it is known and none of its Snorts is left. |
| SnortRules.AgreeMeans | onos-tennison-apps/snort/src/main/java/org/onosproject/snort/SnortManager.java:290-311 | What protection means for packets: what comes in by the port of a registered Snort is dropped in table 100, for good; and, when nothing is left over, by no other port. |
| SnortRules.ExclusionIsKept | onos-tennison-apps/snort/src/main/java/org/onosproject/snort/SnortManager.java:194-211 | A device with a Snort never gets a pending list. |
| SnortManagers.SnortManager.AddSnortInstance | onos-tennison-apps/snort/src/main/java/org/onosproject/snort/SnortManager.java:168-217 | Awaits the address and registers it at every place it was seen, in order. |
| SnortManagers.SnortManager.RegisterAt | onos-tennison-apps/snort/src/main/java/org/onosproject/snort/SnortManager.java:182-211 | One place: port map, drop rule, tunnel, then both pending lists. |
| SnortManagers.SnortManager.InstallPending | onos-tennison-apps/snort/src/main/java/org/onosproject/snort/SnortManager.java:194-201 | Installs all selectors of a list and drops the list. |
| SnortManagers.SnortManager.HostAdded | onos-tennison-apps/snort/src/main/java/org/onosproject/snort/SnortManager.java:225-240 | A new host is looked up exactly for those of its addresses that are awaited. |
| SnortManagers.SnortManager.RemoveSnortInstance | onos-tennison-apps/snort/src/main/java/org/onosproject/snort/SnortManager.java:248-260 | Takes the Snort, its drop rules and its tunnels off every device, leaving an emptied entry. |
| SnortManagers.SnortManager.ClearSnortInstances | onos-tennison-apps/snort/src/main/java/org/onosproject/snort/SnortManager.java:266-279 | Removes the drop rules of all Snorts and forgets them. |
| SnortManagers.SnortManager.SnortDuplicationBlock | onos-tennison-apps/snort/src/main/java/org/onosproject/snort/SnortManager.java:290-311 | Installs or removes one drop rule, in the record and in the switch alike. |
| SnortManagers.SnortManager.GetSuitableSnortDevices | onos-tennison-apps/snort/src/main/java/org/onosproject/snort/SnortManager.java:775-792 | Removing first occurrences from a copied list leaves exactly the devices with a Snort, in order and multiplicity. |
| SnortManagers.SnortManager.AddRule | onos-tennison-apps/snort/src/main/java/org/onosproject/snort/SnortManager.java:420-473 | Sends the rule to the chosen devices in turn, stopping at one whose last Snort was removed; a request that cannot be read changes nothing. |
| SnortManagers.SnortManager.SendFrom | onos-tennison-apps/snort/src/main/java/org/onosproject/snort/SnortManager.java:445-470 | One device: installed, and pending too if there is no Snort. |
| SnortManagers.SnortManager.DeleteRule | onos-tennison-apps/snort/src/main/java/org/onosproject/snort/SnortManager.java:487-501 | Deletes on all devices up to the first one that throws. |
| SnortManagers.SnortManager.AddBlockRule | onos-tennison-apps/snort/src/main/java/org/onosproject/snort/SnortManager.java:515-537 | Blocks, then deletes redirect and mirror rules, each as far as no exception stops it. |
| SnortManagers.SnortManager.DeleteBlockRule | onos-tennison-apps/snort/src/main/java/org/onosproject/snort/SnortManager.java:549-557 | Lifts the block on all devices. |
| SnortManagers.TargetsAre | onos-tennison-apps/snort/src/main/java/org/onosproject/snort/SnortManager.java:433-443 | A rule goes to the devices with a matching flow that have a Snort, if any; else to those with a matching flow, if any; else to all; each as often as it matches. |
| SnortManagers.RuleOutcomeIff | onos-tennison-apps/snort/src/main/java/org/onosproject/snort/SnortManager.java:445-470 | A request fails exactly for what cannot be read, if it is meant for any device, or for one that lost its last Snort. |
| SnortManagers.AddedRuleSends | onos-tennison-apps/snort/src/main/java/org/onosproject/snort/SnortManager.java:445-470 | After adding a rule the traffic is sent as asked on every device up to one without a port. |
| SnortManagers.DeletedRuleIsGone | onos-tennison-apps/snort/src/main/java/org/onosproject/snort/SnortManager.java:487-501 | After deleting it nothing is sent on any of the devices up to one without a port. |
| SnortManagers.HostCallsIff | onos-tennison-apps/snort/src/main/java/org/onosproject/snort/SnortManager.java:225-240 | A host event asks again for exactly the awaited addresses of the host, each at all its places. |
| ThresholdMatching.TestMatchSimilarity | coordinator/core/messagehandler.py:326-374 | Testing field by field succeeds exactly if all fields match, and raises only for a field that cannot be tested. |
| ThresholdMatching.OutcomeIsMatch | coordinator/core/messagehandler.py:333-342 | The order of the fields plays no part in a match. |
| ThresholdMatching.MaskIsRightIffNamesAgree | coordinator/core/messagehandler.py:193-199 | For all messages that have some given keys, a threshold is judged rightly through a stored mask if and only if the mask is its set of field names, apart from those keys. |
| ThresholdMatching.SameEntriesFireAlike | coordinator/core/messagehandler.py:213-215 | Thresholds that Python finds equal match the same messages and have the same priority. |
| ThresholdMatching.LackingFieldRaises | coordinator/core/messagehandler.py:333-341 | A message that lacks a field of an otherwise matching threshold raises a KeyError. |
| ThresholdMatching.TypeErrorIff | coordinator/core/messagehandler.py:280-304 | Checking raises a TypeError exactly for a threshold on the time difference when there is one. |
| ThresholdMatching.CheckJudges | coordinator/core/messagehandler.py:269-304 | For each of the nine metrics: exceeded exactly if its own statistic is there and greater than the threshold; always without a metric or a threshold; never for an unknown metric, and never for the time difference, which raises if there is one. |
| ThresholdMatching.FieldPassesIff | coordinator/core/messagehandler.py:333-374 | A field passes exactly if the message has an accepted value: the protocol by the numbers 1, 6, 17 and 58, an address by membership if a slash is in it and by equality if not, anything else by equality; only a missing name or an unknown protocol number raises. |
| ThresholdMatching.FiresIff | coordinator/core/messagehandler.py:333-388 | A threshold fires exactly if all its fields pass and the subtypes do not differ where both sides have one. |
| PythonValues.LowerByLetter | coordinator/core/messagehandler.py:355 | Lower case replaces each capital by its small letter and nothing else. |
| PythonValues.SameDictIff | coordinator/core/messagehandler.py:213 | Nested dictionaries compare equal exactly if they give the same names the same values, in whatever order. |
| IpfixHandler.IPFIX.CreateInitialMasks | coordinator/core/messagehandler.py:182-191 | Rebuilds the index from the shared dictionary, object for object. |
| IpfixHandler.IPFIX.AddMask | coordinator/core/messagehandler.py:193-199 | Appends one threshold under its mask and moves no other. |
| IpfixHandler.IPFIX.FindMaskMatch | coordinator/core/messagehandler.py:306-323 | Finds each indexed threshold that its mask and its tests select, once; raises if and only if some threshold under a mask of the message cannot be tested, stale masks included. |
| IpfixHandler.IPFIX.MatchesUnder | coordinator/core/messagehandler.py:318-322 | The same for the thresholds under one mask. |
| IpfixHandler.IPFIX.LookUpIsExact | coordinator/core/messagehandler.py:306-323 | If no mask is stale beyond the keys that every such message has, and the copy compares equal, the matches are exactly the live thresholds that fire, although the objects may be older ones. |
| IpfixHandler.SameMultisetAsScan | coordinator/core/messagehandler.py:317-322 | As multisets, what is found does not depend on the order of the scan. |
| IpfixHandler.IPFIX.FindHighestPriorityMatch | coordinator/core/messagehandler.py:50-60 | The first of the matches with the largest priority. |
| IpfixHandler.IPFIX.HighestIsOfLive | coordinator/core/messagehandler.py:256-258 | The picked match has the largest priority of all live thresholds that fire, not only of the list. |
| IpfixHandler.IPFIX.ReloadIfChanged | coordinator/core/messagehandler.py:212-215 | After the comparison with the shallow copy, index and dictionary agree in contents, and names too unless a stale mask went unnoticed. |
| IpfixHandler.IPFIX.React | coordinator/core/messagehandler.py:256-304 | The reaction is to a match of highest priority, judged metric by metric; it is treated with its own fields if it has any, else with the whole message. |
| IpfixHandler.IPFIX.Handle | coordinator/core/messagehandler.py:201-304 | One message: rates recorded, the index refreshed, and exactly the reaction that the masks call for; the picked threshold is treated if and only if the value that its metric has, in terms of this message and those before it, is greater; with no stale mask it is the one that the live thresholds call for, and a KeyError is due to the message. |
| IpfixHandler.IPFIX.ReactsAnswers | coordinator/core/messagehandler.py:256-267 | A reaction that suits what the masks select answers for the live thresholds, if no mask is stale. |
| IpfixHandler.SuitsDecides | coordinator/core/messagehandler.py:223-304 | The same in terms of the messages alone, for each metric: totals, differences to the last message of the flow, rates over whole seconds, and the mean of all rates. |
| IpfixHandler.SameFlowIff | coordinator/core/messagehandler.py:223 | Two messages are of one flow exactly if they agree on both addresses and both ports. |
| IpfixHandler.NeededKeys | coordinator/core/messagehandler.py:217-228 | A message is recognised exactly if it has both addresses and both ports, and looked up exactly if it has its counters besides. |
| IpfixHandler.PriorityIsEntry | coordinator/core/messagehandler.py:50-60 | The priorities compared are the entries of that name. |
| FlowRates.RecordKeepsRefines | coordinator/core/messagehandler.py:223-249 | One message changes the tables of its own flow only, and keeps them equal to the history: last message, and totals of exactly the samples with a positive number of seconds. |
| FlowRates.ByteDiffsTelescope | coordinator/core/messagehandler.py:230-238 | The byte differences of a flow add up to its last count less its first, in any interleaving. |
| FlowRates.TotalCounts | coordinator/core/messagehandler.py:240-254 | The stored count is the number of samples, so it is never zero. |
| FlowRates.AddRateKeepsTotals | coordinator/core/messagehandler.py:240-249 | Totals are started by the first sample and extended by each later one. |
| FlowRates.TimeDifferenceRaisesIff | coordinator/core/messagehandler.py:230-304 | A threshold on the time difference raises a TypeError for exactly the messages of a flow seen before. |
| FlowRates.ReportsJudge | coordinator/core/messagehandler.py:225-304 | What is decided about a threshold follows, metric by metric, from the history: a rate exceeds a limit exactly if the difference exceeds the limit times the seconds, and a mean exactly if the sum exceeds the limit times the number of rates. |
| FlowRates.SamplesByPosition | coordinator/core/messagehandler.py:228-249 | The rates of a flow are those at exactly the positions where a message comes a full second or more after the one before it of the same flow; each rate times the seconds is the difference of its own counter. |
| FlowRates.LastByPosition | coordinator/core/messagehandler.py:228-238 | The message compared with is the latest earlier one of the same flow. |
| FlowRates.TotalsAdd | coordinator/core/messagehandler.py:240-249 | The totals are sums, of octets and of packets apart. |
| FlowRates.SecondsOfDifference | coordinator/core/messagehandler.py:232 | The seconds are whole ones, without the full days of the difference. |
| FlowRates.RateTables.Record | coordinator/core/messagehandler.py:227-254 | Takes in one message and reports differences, rate and the mean of all samples of the flow. |
| FlowRates.RateTables.Differences | coordinator/core/messagehandler.py:227-236 | Differences to the last message of the same flow. |
| FlowRates.RateTables.Averages | coordinator/core/messagehandler.py:251-254 | The averages are the means of all samples so far. |
| ThresholdFile.SaveLoadIsIdentityIff | coordinator/core/watson.py:445-465 | Loading what was saved gives the same thresholds if and only if none carries an `id` entry of its own. |
| ThresholdFile.LoadAfterSave | coordinator/tennison.py:66-85 | Loading a saved file gives every threshold back under its id, without an `id` entry, in whatever order the file lists them. |
| ThresholdFile.OwnIdIsLost | coordinator/core/watson.py:453-461 | A concrete threshold with an `id` entry that comes back without it. |
| ThresholdFile.ExtractThresholds | coordinator/tennison.py:66-85 | Ids come from the entries or from the position; the entry is taken out. |
| ThresholdFile.ExtractByPosition | coordinator/tennison.py:66-85 | An id is loaded exactly if some entry has it as its own, or by the prefix and its position; the last such entry counts, less its id. |
| ThresholdFile.NoneIsLost | coordinator/tennison.py:66-85 | Of a list without ids every entry is loaded, each under an id of its own. |
| ThresholdFile.DefaultIdsDiffer | coordinator/tennison.py:73-74 | The ids made for two positions are different. |
| ThresholdFile.DecimalReadsBack | coordinator/tennison.py:73-74 | The decimal digits of a position stand for it. |
| ThresholdFile.ThresholdsToFile | coordinator/core/watson.py:449-461 | The list holds each live threshold once, tagged with its id; the live ones are unchanged. |
| Watson.WatsonNBI.Add | coordinator/core/watson.py:331-354 | Answers 200, adds a new object under a new id and saves, exactly for a new id and a request with all keys asked for; else answers 400 and changes nothing. |
| Watson.WatsonNBI.Update | coordinator/core/watson.py:356-373 | Overwrites entries of the stored object in place and saves. |
| Watson.WatsonNBI.RemoveIpfix | coordinator/core/watson.py:375-386 | Removes and saves. |
| Watson.WatsonNBI.RemoveSnort | coordinator/core/watson.py:388-398 | Removes without saving: if the file was current, a restart brings the threshold back. |
| Watson.WatsonNBI.ThresholdToFile | coordinator/core/watson.py:445-465 | After saving, a restart would load what is live. |
| Coordinator.Tennison.AddIpfixThreshold | coordinator/core/watson.py:331-354 | Puts a new object with the request under the new id and nothing else; cannot make a mask stale. |
| Coordinator.Tennison.UpdateIpfixThreshold | coordinator/core/watson.py:356-373 | Overwrites entries of the stored object; all masks stay right if and only if the field names stay, apart from those every looked-up message has, or the object is not in the index. |
| Coordinator.Tennison.RemoveIpfixThreshold | coordinator/core/watson.py:375-386 | The id is gone and nothing else; removing, and adding again later, cannot make a mask stale. |
| Coordinator.Tennison.Handle | coordinator/core/messagehandler.py:201-304 | Between any such requests, a message is answered as a direct scan of the live thresholds would, with the largest priority among all that fire, and treated exactly if that threshold is exceeded by the messages so far. |
| Coordinator.UpdateHidesAThreshold | coordinator/core/watson.py:366-371 | A concrete run: after an update in place a live threshold fires, and the handler finds none. |
| OnlineStatistics.WelfordIsExact | coordinator/apps/ipfix-threshold-app/Flow.py:99-106 | Welford's update computes the mean and the sum of squared deviations from it, for every sequence of reals. |
| OnlineStatistics.RunningMeanIsMean | coordinator/apps/ipfix-threshold-app/Flow.py:77-79 | The incremental mean is the mean. |
| OnlineStatistics.DeviationsExpand | coordinator/apps/ipfix-threshold-app/Flow.py:104 | The squared deviations are the sum of squares less what the mean takes off. |
| Flows.RatesLagByZeroGaps | coordinator/apps/ipfix-threshold-app/Flow.py:73-97 | Rates are as many as gaps if and only if no gap was zero. |
| Flows.ZeroGapHasNoRate | coordinator/apps/ipfix-threshold-app/Flow.py:73-97 | A concrete record with a zero gap: counted, and without a rate. |
| Flows.LostIffWithoutOctets | coordinator/apps/ipfix-threshold-app/Flow.py:138-153 | An `ipfix` record is lost for the idle statistics if and only if it carries no octets and finds an idle gap pending. |
| Flows.NothingLostIff | coordinator/apps/ipfix-threshold-app/Flow.py:108-153 | Over runs: nothing is lost if and only if no `ipfix` record without octets arrives while an idle gap is pending. |
| Flows.PendingBaselineIsZero | coordinator/apps/ipfix-threshold-app/Flow.py:150-156 | While an idle gap is pending, any record with octets ends it. |
| Flows.IdleCount | coordinator/apps/ipfix-threshold-app/Flow.py:108-150 | The session count is the number of idle samples, plus one while a gap is pending, plus the lost records. |
| Flows.IdleFoldIsWelford | coordinator/apps/ipfix-threshold-app/Flow.py:108-117 | Without lost records the idle accumulators are Welford's on the idle gaps. |
| Flows.LostRecordSpoilsTheMean | coordinator/apps/ipfix-threshold-app/Flow.py:108-153 | A concrete run with a lost record whose mean idle time comes out as half of its only gap. |
| Flows.Flow.TimesAreExact | coordinator/apps/ipfix-threshold-app/Flow.py:95-106 | On every run the mean gap and its squared deviations are exact; the field called a standard deviation holds the sample variance. |
| Flows.Flow.RatesAreExact | coordinator/apps/ipfix-threshold-app/Flow.py:73-97 | The counter is the length of the rate lists if and only if no gap was zero, and then the averages are their means. |
| Flows.Flow.IdleIsExact | coordinator/apps/ipfix-threshold-app/Flow.py:108-151 | The session count is right if and only if no record was lost, and then the idle statistics are exact. |
| FlowTimeline.TimesOfFlow | coordinator/apps/ipfix-threshold-app/Flow.py:68-106 | On every run the gaps averaged are, in order, those of the records with news; each is the end of its record less the end of the latest earlier one that had news or was `ipfix`, or less the start if there is none. Without `ipfix` records, mean times number is the last end less the start. |
| FlowTimeline.GapsByPosition | coordinator/apps/ipfix-threshold-app/Flow.py:68-72 | The same for histories, by positions. |
| FlowTimeline.GapsTelescope | coordinator/apps/ipfix-threshold-app/Flow.py:72-96 | Without `ipfix` records the gaps add up to the end of the last news less the start of the flow. |
| FlowTimeline.CountsIffNews | coordinator/apps/ipfix-threshold-app/Flow.py:68-156 | A record counts exactly if it has more octets than the record before it, or than zero after an `ipfix` record, or than the flow was created with. |
| FlowTimeline.RatesOfFlow | coordinator/apps/ipfix-threshold-app/Flow.py:69-84 | On every run the rates recorded are, in order, those of the news whose gap is not zero; rate times gap is what the reading differs from the difference before it in the session, or the reading itself at first. |
| FlowTimeline.DiffsByPosition | coordinator/apps/ipfix-threshold-app/Flow.py:69-70 | These differences, octets and packets apart, by positions. |
| FlowTimeline.RatesByPosition | coordinator/apps/ipfix-threshold-app/Flow.py:73-84 | The rates over the gaps, by positions. |
| FlowTimeline.IdleOfFlow | coordinator/apps/ipfix-threshold-app/Flow.py:108-151 | On every run the idle gaps are those of the first news after each end of a session, from that end; without lost records the idle statistics are exact for them. |
| FlowTimeline.PendingByPosition | coordinator/apps/ipfix-threshold-app/Flow.py:108-151 | An idle gap is pending exactly if some `ipfix` record has been followed by neither news nor another one. |
| Flows.Flow.Update | coordinator/apps/ipfix-threshold-app/Flow.py:65-156 | One record: every field remains the function of the history it stands for. |
| Flows.Flow.TakeRates | coordinator/apps/ipfix-threshold-app/Flow.py:69-84 | The rates; a zero gap leaves the averages and the lists alone. |
| Flows.Flow.TakeGap | coordinator/apps/ipfix-threshold-app/Flow.py:95-106 | The gap statistics. |
| Flows.Flow.TakeIdleGap | coordinator/apps/ipfix-threshold-app/Flow.py:108-117 | The idle statistics. |
| Flows.Flow.Finish | coordinator/apps/ipfix-threshold-app/Flow.py:138-156 | The end of a record, and of a session. |
| ThresholdUpdater.UpdateKeepsSound | coordinator/apps/ipfix-threshold-app/thresholdUpdater.py:124-153 | For any settings an update keeps every commit the estimate of its window and the cutoff the end of the last one; with smoothing in [0, 1] the threshold stays between estimates and the loaded value; with a step of at least one the windows tile. |
| ThresholdUpdater.UpdateTakesIff | coordinator/apps/ipfix-threshold-app/thresholdUpdater.py:126-153 | A flow changes exactly if it has enough new values and their estimate is not its threshold already; then all values are used up, and the threshold goes the smoothed part of the way to the estimate, or all of it if there was none. |
| ThresholdUpdater.AddsIffFirst | coordinator/apps/ipfix-threshold-app/thresholdUpdater.py:134-153 | Over runs: a request adds a threshold exactly if none was loaded and no earlier update took anything; it is sent at most once. |
| ThresholdUpdater.PostSends | coordinator/apps/ipfix-threshold-app/thresholdUpdater.py:134-153 | A request is sent exactly if the flow changes, carries its new threshold cut towards zero, and adds or updates accordingly. |
| ThresholdUpdater.NothingLoggedIff | coordinator/apps/ipfix-threshold-app/thresholdUpdater.py:124-153 | Nothing is logged over a run exactly if no update took anything. |
| ThresholdUpdater.RunsAreSound | coordinator/apps/ipfix-threshold-app/thresholdUpdater.py:65-153 | All this holds after every run of new rates and updates, from any loaded threshold. |
| ThresholdUpdater.RunTilesIff | coordinator/apps/ipfix-threshold-app/thresholdUpdater.py:124-153 | The windows of a run tile the consumed rates if and only if no update took values although there were no new ones. |
| ThresholdUpdater.StaysTiledIff | coordinator/apps/ipfix-threshold-app/thresholdUpdater.py:127-153 | An update goes on tiling if and only if there are new rates. |
| ThresholdUpdater.TwoUpdatesOverlapIff | coordinator/apps/ipfix-threshold-app/thresholdUpdater.py:127-153 | From a loaded threshold, one rate and two updates: the same window is taken twice if and only if the step is zero or less, the estimate was news and smoothing is not one. |
| ThresholdUpdater.GrowthKeepsSound | coordinator/apps/ipfix-threshold-app/thresholdUpdater.py:127-131 | New rates at the end of the list keep that. |
| ThresholdUpdater.SmoothIsBetween | coordinator/apps/ipfix-threshold-app/thresholdUpdater.py:136 | Exponential smoothing stays between the estimate and the previous threshold. |
| ThresholdUpdater.Updater.UpdateThreshold | coordinator/apps/ipfix-threshold-app/thresholdUpdater.py:126-153 | One flow: threshold, cutoff, commit and request are those of its new values; the request adds exactly if nothing was loaded or taken before; no other flow is touched; without any rate and with a step of zero or less it raises. |
| ThresholdUpdater.Updater.UpdateThresholds | coordinator/apps/ipfix-threshold-app/thresholdUpdater.py:124-153 | All flows, each once, in the order of the dictionary up to one that raises; the requests are exactly those of the flows updated, with their values, in that order. |
| ThresholdUpdater.Updater.Observe | coordinator/apps/ipfix-threshold-app/thresholdUpdater.py:65-73 | A record updates its flow, or lets a new one in with it, and every flow stays sound. |
| OpenFlowChannel.ActiveMilestones | tools/dev/misc/HPCustomPipeline/OFChannelHandler.java:153-579 | Every run that reaches ACTIVE received Hello, features reply, for 1.3 a final port description, configuration reply and description, in this order. |
| OpenFlowChannel.ConfigMilestones | tools/dev/misc/HPCustomPipeline/OFChannelHandler.java:185-342 | The same for runs that wait for the configuration reply. |
| OpenFlowChannel.NeverBackwards | tools/dev/misc/HPCustomPipeline/OFChannelHandler.java:157-664 | The phase of the channel never moves backwards. |
| OpenFlowChannel.ProgressIsConsistent | tools/dev/misc/HPCustomPipeline/OFChannelHandler.java:185-579 | Version, features reply and driver are known exactly from the phase that settles them on; the sub-handshake is reached with version 1.3 only. |
| OpenFlowChannel.PortStatusConservation | tools/dev/misc/HPCustomPipeline/OFChannelHandler.java:279-664 | The port-status messages received are, in order, those buffered for the switch, those the sub-handshake swallows, and those dispatched in ACTIVE. |
| OpenFlowChannel.AllPortStatusesArriveIff | tools/dev/misc/HPCustomPipeline/OFChannelHandler.java:552-556 | All port-status messages reach the switch if and only if none arrives during the sub-handshake. |
| OpenFlowChannel.SubHandshakeLosesPortStatus | tools/dev/misc/HPCustomPipeline/OFChannelHandler.java:514-556 | One that arrives then is lost for good: the handler written for it is never reached. |
| OpenFlowChannel.PortStatusLost | tools/dev/misc/HPCustomPipeline/OFChannelHandler.java:514-579 | A concrete handshake in which it happens. |
| OpenFlowChannel.NothingDispatchedBefore | tools/dev/misc/HPCustomPipeline/OFChannelHandler.java:185-579 | Nothing is dispatched to the switch before ACTIVE, and nothing swallowed before the sub-handshake. |
| OpenFlowDelivery.HandledByPosition | tools/dev/misc/HPCustomPipeline/OFChannelHandler.java:279-664 | After any run into ACTIVE the switch has been given exactly, in order, the port-status messages received in the four phases before the sub-handshake, and the messages of seven kinds received in ACTIVE. |
| OpenFlowDelivery.HandledOfKind | tools/dev/misc/HPCustomPipeline/OFChannelHandler.java:581-664 | Kind by kind: packet-ins, removed flows, barrier replies, errors, statistics and features replies handed over are, in order, those received in ACTIVE; port status those buffered besides; of every other kind none. |
| OpenFlowDelivery.AdvancesIff | tools/dev/misc/HPCustomPipeline/OFChannelHandler.java:157-579 | A phase ends with exactly the message it waits for, by the numbers of the protocol and of the driver; where it leads and what is learnt from it. |
| OpenFlowDelivery.OthersChangeNothing | tools/dev/misc/HPCustomPipeline/OFChannelHandler.java:157-664 | Any other message leaves phase, version, features and driver alone; one that raises is neither buffered nor collected; one that only a controller sends raises in every phase but the sub-handshake. |
| OpenFlowDelivery.RaisesIff | tools/dev/misc/HPCustomPipeline/OFChannelHandler.java:157-664 | Kind by kind, which messages raise in which phase, and how. |
| OpenFlowDelivery.AskedBefore | tools/dev/misc/HPCustomPipeline/OFChannelHandler.java:185-401 | Each answer awaited was asked for: the requests sent by then, under the ids -1, -2 and so on; a configuration is set exactly if the switch has buffers, and ports are asked for exactly in version 1.3. |
| OpenFlowDelivery.FeaturesByPosition | tools/dev/misc/HPCustomPipeline/OFChannelHandler.java:249-664 | The features of the switch are those of the latest reply received while awaited or in ACTIVE. |
| OpenFlowDelivery.PortsGrow | tools/dev/misc/HPCustomPipeline/OFChannelHandler.java:290-401 | Port descriptions add up until the configuration is known; in ACTIVE the latest stands alone. |
| OpenFlowDelivery.RefusedIff | tools/dev/misc/HPCustomPipeline/OFChannelHandler.java:558-579 | The switch counts as a duplicate exactly if the registry refused it when it became active. |
| OpenFlowHandler.OpenFlowSwitch.StartDriverHandshake | tools/dev/misc/HPCustomPipeline/HPSwitchHandshaker.java:44-72 | Starts once, with three consecutive transaction ids; fails for version 1.0, which has no table features; a driver without sub-handshake is done at once. |
| OpenFlowHandler.OpenFlowSwitch.IsDriverHandshakeComplete | tools/dev/misc/HPCustomPipeline/HPSwitchHandshaker.java:74-80 | Raises if the handshake was not started. |
| OpenFlowHandler.OpenFlowSwitch.ProcessDriverHandshakeMessage | tools/dev/misc/HPCustomPipeline/HPSwitchHandshaker.java:82-110 | Completes exactly on the final reply to the checking request or an error about one of the last two requests. |
| OpenFlowHandler.OFChannelHandler.OnHello | tools/dev/misc/HPCustomPipeline/OFChannelHandler.java:185-240 | Follows the automaton; sends Hello and the features request unless the version is too old. |
| OpenFlowHandler.OFChannelHandler.OnFeatures | tools/dev/misc/HPCustomPipeline/OFChannelHandler.java:249-286 | Follows the automaton; asks for configuration or for ports. |
| OpenFlowHandler.OFChannelHandler.OnPortDesc | tools/dev/misc/HPCustomPipeline/OFChannelHandler.java:290-337 | Follows the automaton; collects descriptions up to the final one. |
| OpenFlowHandler.OFChannelHandler.OnConfig | tools/dev/misc/HPCustomPipeline/OFChannelHandler.java:344-401 | Follows the automaton; still collects late descriptions. |
| OpenFlowHandler.OFChannelHandler.OnDescription | tools/dev/misc/HPCustomPipeline/OFChannelHandler.java:422-493 | Follows the automaton; binds the switch and its driver, and fails for HP on version 1.0. |
| OpenFlowHandler.OFChannelHandler.OnSubHandshake | tools/dev/misc/HPCustomPipeline/OFChannelHandler.java:503-579 | Follows the automaton; the driver is never found complete on entry. |
| OpenFlowHandler.OFChannelHandler.OnActive | tools/dev/misc/HPCustomPipeline/OFChannelHandler.java:581-664 | Follows the automaton; the switch is handed every packet-in, removed flow, barrier reply, error, statistics reply, features reply and port status, and nothing else (see `OpenFlowDelivery.HandledByPosition`). |
| OpenFlowHandler.OFChannelHandler.HandlePendingPortStatusMessages | tools/dev/misc/HPCustomPipeline/OFChannelHandler.java:782-816 | Hands all buffered messages over in order and empties the buffer. |
| OpenFlowHandler.OFChannelHandler.ProcessOFMessage | tools/dev/misc/HPCustomPipeline/OFChannelHandler.java:864-947 | In whatever phase: state, buffers, requests sent and switch stay those of the messages received; how each message ends is determined, and the driver exceptions never occur. |
| OpenFlowHandler.OFChannelHandler.MessageReceived | tools/dev/misc/HPCustomPipeline/OFChannelHandler.java:1163-1176 | A list of messages is processed in order and ends exactly with the first exception. |
| OpenFlowHandler.OFChannelHandler.SendSetConfig | tools/dev/misc/HPCustomPipeline/OFChannelHandler.java:1268-1304 | Configuration, barrier and request, under descending transaction ids. |
| Bytes.ValueOfBigEndian | onos-tennison-apps/ipfix/src/main/java/org/onosproject/ipfix/packet/TemplateRecord.java:104-107 | Reading back a big-endian number gives it modulo the size of its field, negative numbers included. |
| Bytes.FourOctets | pig-relay/alert.py:71-88 | The most significant octet stands first. |
| Bytes.ArrayCopy | onos-tennison-apps/ipfix/src/main/java/org/onosproject/ipfix/DataRecordRfwdIpv4.java:168 | A copy into an array replaces exactly the addressed stretch. |
| IpfixTemplates.TemplateDecodesIff | onos-tennison-apps/ipfix/src/main/java/org/onosproject/ipfix/packet/TemplateRecord.java:101-119 | The bytes of a template decode back, by RFC 7011, if and only if ids and lengths fit, no id sets the enterprise bit, there is a field, and the count set by hand is their number. |
| IpfixTemplates.TemplateLayout | onos-tennison-apps/ipfix/src/main/java/org/onosproject/ipfix/packet/TemplateRecord.java:101-119 | Octet by octet: identifier and count, then identifier and length of each field in turn, each in two octets, most significant first. |
| IpfixTemplates.ElementsDecode | onos-tennison-apps/ipfix/src/main/java/org/onosproject/ipfix/packet/InformationElement.java:82-94 | Any list of field specifiers decodes back, whatever follows. |
| IpfixRecords.RecordDecodesByItsTemplate | onos-tennison-apps/ipfix/src/main/java/org/onosproject/ipfix/packet/TemplateRecord.java:101-119 | A decoder that knows only the bytes of the template finds every field of the record, and nothing is left over. |
| IpfixRecords.FieldsDecode | onos-tennison-apps/ipfix/src/main/java/org/onosproject/ipfix/packet/Ie.java:22-46 | Splitting a record by the lengths of the table gives back its fields. |
| IpfixRecords.NumberIsRecoveredIff | onos-tennison-apps/ipfix/src/main/java/org/onosproject/ipfix/packet/Ie.java:22-46 | A number is recovered if and only if it is in the range of its field. |
| IpfixRecords.OctetsAreRecoveredIff | onos-tennison-apps/ipfix/src/main/java/org/onosproject/ipfix/packet/Ie.java:22-46 | An address is recovered if and only if it is as long as its field. |
| IpfixRecords.InformationElement.GetBytes | onos-tennison-apps/ipfix/src/main/java/org/onosproject/ipfix/packet/InformationElement.java:82-94 | Fills its four octets. |
| IpfixRecords.TemplateRecord.GetBytes | onos-tennison-apps/ipfix/src/main/java/org/onosproject/ipfix/packet/TemplateRecord.java:101-119 | Fills header and specifiers at an advancing offset. |
| IpfixRecords.TemplateRecord.GetLength | onos-tennison-apps/ipfix/src/main/java/org/onosproject/ipfix/packet/TemplateRecord.java:69-71 | The length is that of the bytes. |
| IpfixRecords.TemplateRecord.SetInformationElements | onos-tennison-apps/ipfix/src/main/java/org/onosproject/ipfix/packet/TemplateRecord.java:64-67 | Setting the list sets the count. |
| IpfixDataRecords.DataRecordRfwdMac.GetBytes | onos-tennison-apps/ipfix/src/main/java/org/onosproject/ipfix/DataRecordRfwdMac.java:102-124 | Each hand-written offset is where the fields before it end, and the record is exactly 76 octets of fields. |
| IpfixDataRecords.DataRecordRfwdIpv4.GetBytes | onos-tennison-apps/ipfix/src/main/java/org/onosproject/ipfix/DataRecordRfwdIpv4.java:163-191 | The same for 90 octets. |
| IpfixDataRecords.DataRecordRfwdIpv6.GetBytes | onos-tennison-apps/ipfix/src/main/java/org/onosproject/ipfix/DataRecordRfwdIpv6.java:164-194 | The same for 118 octets. |
| IpfixDataRecords.MacTemplateRecord | onos-tennison-apps/ipfix/src/main/java/org/onosproject/ipfix/DataRecordRfwdMac.java:131-153 | The template lists the elements of the record, in its order, and their number. |
| IpfixDataRecords.Ipv4TemplateRecord | onos-tennison-apps/ipfix/src/main/java/org/onosproject/ipfix/DataRecordRfwdIpv4.java:198-226 | The same for IPv4. |
| IpfixDataRecords.Ipv6TemplateRecord | onos-tennison-apps/ipfix/src/main/java/org/onosproject/ipfix/DataRecordRfwdIpv6.java:201-230 | The same for IPv6. |
| IpfixDataRecords.MacRecordDecodes | onos-tennison-apps/ipfix/src/main/java/org/onosproject/ipfix/DataRecordRfwdMac.java:102-153 | From the bytes of template 331 a collector finds the twelve fields, under the numbers that IANA gave them, each with the value of the record; no number occurs twice. |
| IpfixDataRecords.Ipv4RecordDecodes | onos-tennison-apps/ipfix/src/main/java/org/onosproject/ipfix/DataRecordRfwdIpv4.java:163-226 | The same for template 332 and its eighteen fields: source address under 8, destination under 12, ports under 7 and 11 as 16-bit values; each of the three IPv4 addresses comes back exactly if it is of version 4. |
| IpfixDataRecords.Ipv6RecordDecodes | onos-tennison-apps/ipfix/src/main/java/org/onosproject/ipfix/DataRecordRfwdIpv6.java:164-230 | The same for template 333 and its nineteen fields. |
| SnortAlerts.PartsTileTheFrame | pig-relay/alert.py:92-126 | Parsing succeeds exactly on at least one frame of 65863 octets, reads nothing past it, and loses nothing of it. |
| SnortAlerts.AlertIsReadIff | pig-relay/alert.py:92-126 | An alert as Snort lays it out is read back if and only if its numbers fit 32 bits and its message does not end in zeros. |
| SnortAlerts.AlertByOffsets | pig-relay/alert.py:39-126 | Every number is read from its own four octets of the frame, most significant first, and the packet from 292 on. |
| SnortAlerts.MessageByOffsets | pig-relay/alert.py:92-98 | The message is what stands in the first 256 octets up to the last one that is not zero. |
| SnortAlerts.HeaderReads | pig-relay/alert.py:69-88 | The packet header is read back exactly if it fits. |
| SnortAlerts.EventReads | pig-relay/alert.py:39-66 | The event is read back exactly if it fits. |
| SnortAlerts.StrippedComesBack | pig-relay/alert.py:98 | Stripped zeros are recovered by padding. |
| PigRelay.FramesAreTheOnlyCut | pig-relay/pigrelay.py:133-142 | The frames and the residue are the one way to cut the stream into whole blocks and a shorter rest. |
| PigRelay.FramesGoOn | pig-relay/pigrelay.py:131-142 | Continuing from the residue gives the frames of the whole stream. |
| PigRelay.AlertsAreOfFrames | pig-relay/pigrelay.py:135-139 | One alert is sent for each frame: the one parsed from it. |
| PigRelay.ParsedSnortRelay.SendLoopConsumer | pig-relay/pigrelay.py:127-142 | However the stream is split into queue items, what is sent and what is kept depend on the stream alone. |
| PigRelay.ParsedSnortRelay.CutFrames | pig-relay/pigrelay.py:133-142 | The inner loop sends the alerts of all whole frames and keeps the residue. |
| DdosTracker.SlidingWindow | coordinator/apps/ipfix-ddos-app/ipfix_ddos.py:64-72 | With a clock that never runs back, right after a clean-up a destination has exactly the sources whose last sighting is at most the period old. |
| DdosTracker.WindowHoldsLastSightings | coordinator/apps/ipfix-ddos-app/ipfix_ddos.py:54-72 | For any clock: a source is held exactly if its last sighting outlived every later clean-up, and with the time of that sighting. |
| DdosTracker.SurvivorsAndNewcomers | coordinator/apps/ipfix-ddos-app/ipfix_ddos.py:38-62 | What is counted after some messages is what survived the clean-up together with what was seen since. |
| DdosTracker.MirrorsOfRun | coordinator/apps/ipfix-ddos-app/ipfix_ddos.py:49-62 | On every run the mirrors installed are, in order, those of the sightings after which more sources of their destination were live than the threshold. |
| DdosTracker.CrowdedIff | coordinator/apps/ipfix-ddos-app/ipfix_ddos.py:58-60 | A destination exceeds the threshold exactly if there is a set of more sources than that, all of them live. |
| DdosTracker.SightingsByPosition | coordinator/apps/ipfix-ddos-app/ipfix_ddos.py:41-53 | A batch counts exactly its messages with destination, source and port, in order and with the clock of their turn, up to one that raises. |
| DdosTracker.IPFIXDDoS.SourcesCleanUp | coordinator/apps/ipfix-ddos-app/ipfix_ddos.py:64-72 | Removes exactly the sources that are too old; emptied destinations stay. |
| DdosTracker.IPFIXDDoS.Count | coordinator/apps/ipfix-ddos-app/ipfix_ddos.py:49-62 | A mirror is installed exactly when the destination now has more sources than the threshold, each time again. |
| DdosTracker.IPFIXDDoS.Track | coordinator/apps/ipfix-ddos-app/ipfix_ddos.py:41-62 | A message without an address is skipped; one without a transport port raises. |
| DdosTracker.IPFIXDDoS.SourceTracker | coordinator/apps/ipfix-ddos-app/ipfix_ddos.py:38-62 | One batch: a clean-up, then the messages in turn up to one that raises. |

## Left out

- SnortTunnels.SnortTunnel.Event: a change of links that comes without a device event is not modelled; the service does not listen to links, and counts stay those of the topology it last computed them for.
- SnortTunnels.SnortTunnel.RemoveSnort: exactness is stated for the Snorts set up since the last reset, because removing one recomputes nothing.
- SnortManagers.SnortManager.AddRule: which devices have a matching flow entry is given as a list, with one mention for each entry; the matching of flow entries against the request is not modelled. The methods for mirror and for redirect rules are one, by kind, and so are their pending dictionaries.
- SnortManagers.SnortManager.AddSnortInstance: the walk over devices, ports, hosts and addresses is its outcome, the list of places at which the address is connected.
- SnortManagers.SnortManager.SnortDuplicationBlock: the flow table is what the controller last commanded; expiry of temporary rules, failures reported by switches and the identifiers of rules beyond device, table, priority and selector are left out.
- Coordinator.Tennison.UpdateIpfixThreshold: requests that make a threshold ill-typed (fields that are no dictionary, a priority that is no number) are left out.
- IpfixHandler.IPFIX.Handle: only the IPFIX handler; messages of Snort, of sFlow and of IPv6 flows, and the treatments themselves, are left out. Subnet membership is an arbitrary predicate.
- FlowRates.RateTables.Record: the two clock readings for one message are one, and division is over the reals.
- Watson.WatsonNBI.Add: a request without a content type, queries of single thresholds and the HTTP and YAML texts are left out; saving and loading exchange values.
- ThresholdFile.ExtractThresholds: ids in a file are strings, as the paths of requests make them; the list handed in is a value, although the source also takes the `id` out of the loaded objects themselves.
- Flows.Flow.Update: `byte_total_avg` and `packet_total_avg` are left out, since their division depends on the version of Python; so is the wait for a key press after an error message, and times before the epoch.
- ThresholdUpdater.Updater.UpdateThresholds: mean and standard deviation of a window are one arbitrary function of it; the addresses and ports in a request are those of the flow and not modelled.
- ThresholdUpdater.Updater.Observe: the hash of a flow is its key; records with a key missing, which the source skips, are left out.
- OpenFlowHandler.OFChannelHandler.ProcessOFMessage: the registry's answers, role handling and the choice of a driver are inputs; time-outs, the closing of the channel after an exception and the contents of the table features are left out. That version 1.0 has no table-features requests is a fact of the protocol library, which is not part of this model. Each message is one step, so the repeated passes over a buffer that grows meanwhile are one pass.
- IpfixDataRecords.DataRecordRfwdIpv6.GetBytes: message and set headers, sampling and option templates, and the exporter's own parsers are left out; addresses are the octets they serialise to, never null. The first twelve fields, which the three records repeat, are one datatype.
- PigRelay.ParsedSnortRelay.SendLoopConsumer: sockets, the queue itself and failures of sending, which are logged and passed over, are left out.
- DdosTracker.IPFIXDDoS.SourcesCleanUp: the clock is read once for a clean-up and once for a message; the source reads it again for every source.
- DdosTracker.IPFIXDDoS.Count: the two requests that install a mirror are one call.
- Floating point is modelled by real numbers throughout.
- Requests and messages are atomic steps: interleavings inside one handler, between threads, are left out.
- The LLT forecasts and the anomaly-detection script are numerics of libraries and left out, as are the graphical interface, the Mininet scripts and the experiments under tools.
