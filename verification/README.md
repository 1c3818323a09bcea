# Kilowatts: a verified model of the control logic

Kilowatts manages loads behind a battery. One Central Node plans which AUTO loads may run within a power budget; Smart Nodes
report their loads, switch relays and relay messages over a tree of ESP-NOW links. This project models that control logic in
Dafny and proves what the design promises about it.

Objects that the firmware updates in place are classes (`EspNowCommunication`, `CentralNodeRegistry`, `PowerManager`,
`RelayCommandDispatcher`, `RelayController`, `Node`, `NodeLoadHardwareStore`, `LoadConfigurationStore`, `CentralPlanner`,
`NodeCommissioningRegistry`, `NodeIdentityStore`, `Load`). Every method is tied to a function of the old state; theorems over
whole runs are lemmas about those functions. What the outside world answers (GPIO, flash, radio, clock) is a parameter.

| file | part of the system |
|---|---|
| `Discovery.dfy`, `EspNowNode.dfy` | finding an upstream Node while old answers may still be in flight |
| `Forwarding.dfy` | messages on their way to Central |
| `Routing.dfy`, `ReportedRoutes.dfy` | Central's next hop and the topology tree, from the parent pointers Nodes report |
| `Load.dfy`, `PinLists.dfy`, `PlanningNodes.dfy`, `Common.dfy` | values and vectors that the other parts share |
| `NodeReports.dfy`, `CentralNodeRegistry.dfy`, `ReportDelivery.dfy`, `ReportRoundTrip.dfy` | paged load reports, from Smart Node to registry |
| `BestFirstSearch.dfy` | choosing AUTO loads under a power cap |
| `PowerManager.dfy`, `Planning.dfy`, `PlanSafety.dfy` | the budget, one planning cycle, and what the cycle guarantees |
| `RegistryPlanning.dfy` | the loads a cycle takes from the registry and gives back to it |
| `RelayCommandDispatcher.dfy`, `RelayExchange.dfy`, `RelayOverlap.dfy`, `PlanOverlap.dfy` | dispatch order, command bookkeeping, relays while they are being switched, over a radio, by orders that may overlap |
| `LoadConfigurationStore.dfy` | stored priorities, modes and schedules, and their packed records |
| `RelayController.dfy`, `Node.dfy`, `NodeLoadHardwareStore.dfy`, `SmartLoadUpdate.dfy` | configuring hardware with rollback |
| `NodeCommissioningRegistry.dfy`, `CommissioningRuns.dfy` | the commissioning handshake |

Main results, hardest first:

- Discovery: over every run of a boot epoch, stale answers included, upstream pointers form no loop, every chain ends at the one
  Central, and sixteen-bit hop counts never wrap. A discovery takes the best answer it heard, so any line of Nodes comes up from boot,
  and once its Nodes have reported their upstreams Central reaches each of them.
- Search: the worklist search is optimal among all subsets that fit, and expands every feasible set exactly once; no load left out
  could take the place of a selected one and count for more, an active schedule counting 5.
- Reports: pages of one report delivered in any order with any repetition rebuild the Smart Node's list at Central; a load is
  removed only at a packet that completes a report none of whose pages listed it.
- Planning: AUTO loads are granted exactly the most that fits; what is booked is what the relays will draw, within the budget. While
  relays are part-way switched, whatever commands are late, lost or refused, and whatever other orders overlap this one or have left
  commands behind, an order's relays draw, until its first ON command, at most what they did at the start; and from that command on,
  however much they drew at the start, at most the budget and what failed OFF commands left on; in both phases plus what something
  else has switched on. They keep these bounds without that last term exactly when, on no relay that must not conduct, something else
  switched last and on. The radio exchange with its identifiers, acknowledgements and deadlines refines that dispatch. Whatever
  reports, removals, settings and cycles came before, the registry's loads are fit for the next cycle, and what it decides is what the
  registry then holds.
- Hardware: configured loads, Node loads and relay table stay in step through any failures, a failed operation leaves no trace, and
  each relay, however it is wired, conducts exactly when commanded on.
- Commissioning: Central commits a name only after the Node accepted it under the newest command; dead answers stay dead.

Results that went against an expectation:

- `RebuiltExactlyWhenNothingLeftOver`: an entry that kept pages of an older report under the same sequence number and page count can
  lose loads of the next one. After any past, an entry is sure to rebuild what comes next exactly when its mask is empty (or its
  collection has more pages than a Smart Node sends).
- `UpdateIsAllOrNothingExactly`: the console's load update is not a transaction. It succeeds or changes nothing exactly when the
  removal fails, or the changed load is acceptable and GPIO and flash accept it; otherwise the load is lost.
  `BadPriorityDeletesTheLoad` is an instance.
- `OverlappingOrdersExceed`: a cycle dispatches its order after it has given the state back, so a cycle started from the console can
  overlap the planner's. Two loads of 600 W then conduct together although each order meant only one to, and both report every
  command as a success. `AbandonedOnExceeds`: an ON command that was given up acts after the next order has switched the relay off.
  The planner makes such orders itself: `RivalPlansExist`, `OverlappingPlansExceed` (a user swaps two priorities between the cycles).
  `AloneBoundHoldsExactly` says exactly when an order keeps the bound it would have alone; `CarefulPlanIsPowerSafe`, what suffices:
  no order under way at the hand-over, no ON command given up, until the end no other order handed over and no relay switched on by a
  configuration, all of which Central can see to; and no command brought to its Node twice, which only the radio can.
- `PersistThenRestart`: a persisted list comes back unless it is empty while version-1 records are still in flash.
- `ZeroIdGivenExactly`, `IdSharedExactly`: command identifiers are documented as unique for the life of the dispatcher. Two commands
  share one exactly when more than 2^32 were begun, and one gets identifier 0 exactly when 2^32 were; that one is never sent, so
  it stays pending (`PendingUntilSettled`).
- `ReorderedRenamesDiverge`: two renames that reach the Node in the wrong order leave different names at both ends. `NamesAgree` says
  exactly which histories keep the names the same, `CarefulNamesAgree` what Central can do to stay among them.
- `LostFirstCommissioningBlocks`, `UnansweredBlocks`: after a first commissioning whose command or answer is lost, every request is
  refused until the Node is decommissioned or the answer arrives after all.
- `AppliedAnswerLifecycle`, `BusyNodeLooksUncommissioned`: the packet's documentation says that the reported state is always the
  Node's own (`lib/NodeManager/CommissioningPackets.h`). A Node whose identity is locked reports the default state, and Central then
  takes a commissioned Node for an uncommissioned one.
- `ReusedIdMayMiscommit`: Central can commit a name the Node never took exactly when a commission identifier is used again.
- `NothingToSaveExactly`: the check for a changed configuration ignores the end of a schedule window; it is reliable exactly for loads
  that carry their stored schedule, as all loads do in a planning cycle.
- `ExpandFirst`: the outer loop of the search asks again whether the state it expands is better than the best so far; at every turn
  its contract says that it is not.

## Model

| member | source | states |
|---|---|---|
| Discovery.RunKeepsInv | lib/EspNowCommunication/EspNowCommunication.cpp:510-716 | after any sequence of discovery events, with any old answer still deliverable, every routed Node's upstream is routed and strictly closer to Central by current hop counts |
| Discovery.StepKeepsInv | lib/EspNowCommunication/EspNowCommunication.cpp:456-716 | each single step keeps that invariant and never raises a known hop count |
| Discovery.NoRoutingLoop | lib/EspNowCommunication/EspNowCommunication.cpp:1973-2026 | in every reachable network no walk along upstream pointers meets a Node twice |
| Discovery.EveryChainEndsAtCentral | lib/EspNowCommunication/EspNowCommunication.cpp:1835-1922 | every routed Node hangs under the one Central it names, within as many links as its hop count |
| Discovery.RunAgrees | lib/EspNowCommunication/EspNowCommunication.cpp:1924-2100 | with one Central, every routed Node, every answer in flight and every kept candidate names that Central |
| Discovery.HopCountsNeverWrap | lib/EspNowCommunication/EspNowCommunication.cpp:668-681 | every hop count, also in stale answers, is below the number of routed Nodes, so hop + 1 neither wraps nor reads UNKNOWN |
| Discovery.CommittedHop | lib/EspNowCommunication/EspNowCommunication.cpp:668-681 | the hop count a Node adopts is one more than its candidate's, without wrap-around |
| Discovery.WindowPicksBest | lib/EspNowCommunication/EspNowCommunication.cpp:1973-2026 | a discovery window adopts the eligible answer with the lowest hop count, then the strongest signal, then the earliest; none exactly when none was eligible |
| Discovery.DiscoveryOutcome | lib/EspNowCommunication/EspNowCommunication.cpp:510-716 | whatever else happens in the network meanwhile, a whole discovery gives the Node the best answer it could use, one hop above the Node that gave it; without one, or without the peer, the Node is as before |
| Discovery.NeighborIsAdopted | lib/EspNowCommunication/EspNowCommunication.cpp:510-716 | in every run, a Node that hears one routed Node is then below it, unless its own route is as short; no other Node changes |
| Discovery.LineComesUp | lib/EspNowCommunication/EspNowCommunication.cpp:456-716 | from boot, any line of Nodes can come up: the first is Central, and each hangs under the one before it and counts its links to Central |
| Discovery.RoutesWereOffered | lib/EspNowCommunication/EspNowCommunication.cpp:1835-2026 | in every run, what a Node has adopted or kept was offered in an answer to that very Node, and no Node answers itself |
| EspNowNode.EspNowCommunication.SetAsCentralNode | lib/EspNowCommunication/EspNowCommunication.cpp:456-508 | once initialized, the fields change exactly as the abstract step that makes a Node Central and the downstream list is emptied; before that nothing changes |
| EspNowNode.EspNowCommunication.BeginDiscovery | lib/EspNowCommunication/EspNowCommunication.cpp:510-618 | a window opens exactly on an initialized Node that is not Central, with a window length and a sent broadcast, and then refines the abstract step; otherwise nothing changes |
| EspNowNode.EspNowCommunication.ProcessConnectionHandshake | lib/EspNowCommunication/EspNowCommunication.cpp:2105-2190 | exactly a Node that addresses this one (or all), speaks for itself, is one hop below and in the same tree is listed, replacing its own entry if it has one |
| EspNowNode.RegisterOrUpdateDownstream | lib/EspNowCommunication/EspNowCommunication.cpp:2192-2235 | the search loop renews the entry of a known Node in place or appends one, and tells which |
| EspNowNode.WithDownstreamKeepsDistinct | lib/EspNowCommunication/EspNowCommunication.cpp:2192-2235 | each downstream Node stays listed once, and no other Node's entry changes |
| EspNowNode.TakenWhileCurrent | lib/EspNowCommunication/EspNowCommunication.cpp:2105-2190 | in every run, a Node is taken by its upstream if and only if it says so itself, to that Node or to all, and the upstream has not come closer to Central since |
| EspNowNode.TakenIsListed | lib/EspNowCommunication/EspNowCommunication.cpp:2192-2235 | after that it is listed, with the name, signal and hop count it gave |
| EspNowNode.EspNowCommunication.ProcessDiscoveryRequest | lib/EspNowCommunication/EspNowCommunication.cpp:1835-1922 | a Node answers exactly when it has a route to offer, with its own hop count and Central |
| EspNowNode.EspNowCommunication.ProcessDiscoveryResponse | lib/EspNowCommunication/EspNowCommunication.cpp:1924-2100 | hearing an answer refines the abstract step, ineligible answers changing nothing |
| EspNowNode.EspNowCommunication.CloseDiscoveryWindow | lib/EspNowCommunication/EspNowCommunication.cpp:600-666 | the window closes with the best candidate or, if none can be used, with the old route |
| EspNowNode.EspNowCommunication.ApplyRoute | lib/EspNowCommunication/EspNowCommunication.cpp:668-702 | writing the route refines the abstract commit |
| Forwarding.ForwardsAreBounded | lib/EspNowCommunication/EspNowCommunication.cpp:894-959 | on any topology, cyclic ones included, a message is forwarded at most as often as its hop limit says |
| Forwarding.TravelUpChain | src/smart/namespace.h:687-693 | on the way up a chain a message arrives exactly when enough hops remain for the links ahead |
| Forwarding.DeliveredWithinSeventeenLinks | src/smart/namespace.h:687-693 | in every reachable network a message to Central arrives if and only if its sender is at most 17 links below it |
| Forwarding.DownIsOneForward | src/smart/namespace.h:687-693 | a message from the upstream goes straight to its destination, with one forward |
| Forwarding.UnroutedSendsNothing | lib/EspNowCommunication/EspNowCommunication.cpp:894-959 | in every reachable network a Node without a route sends nothing to Central |
| Routing.FindNextHopFromCentral | src/central/namespace.h:351-368 | on any registry, cyclic or dangling pointers included, it succeeds exactly for destinations whose parent pointers reach Central, and returns the last Node before Central |
| Routing.RoutePathShort | src/central/namespace.h:351-368 | a walk that arrives repeats no Node, so the loop bound suffices |
| Routing.RoutePathUnique | src/central/namespace.h:351-368 | there is at most one route to Central from a Node |
| Routing.WalkFails | src/central/namespace.h:351-368 | a walk that leaves the registry or outgrows it proves that no route exists |
| Routing.AppendChildren | lib/NodeManager/Central/TopologyTree.cpp:138-188 | the nested loops build exactly the subtrees under a parent, down to the depth budget |
| Routing.BuildTree | lib/NodeManager/Central/TopologyTree.cpp:190-222 | the tree hangs under the first Central entry, and is absent exactly when there is none |
| Routing.TreeListsExactlyTheRouted | lib/NodeManager/Central/TopologyTree.cpp:138-222 | the view shows a Node exactly when its parent pointers lead to Central, once; Nodes on cycles never appear |
| Routing.DepthNeverCuts | lib/NodeManager/Central/TopologyTree.cpp:179-183 | any depth budget from the registry size up gives the same tree |
| Routing.BranchIsNextHop | lib/NodeManager/Central/TopologyTree.cpp:149-183 | a Node is shown under Central's child c exactly when its route leaves Central through c |
| Routing.TreesAreFaithful | lib/NodeManager/Central/TopologyTree.cpp:138-188 | at every level of the tree view a Node stands directly under the parent it reported, siblings in registry order |
| ReportedRoutes.LineIsRoute | src/central/namespace.h:351-368 | in every run of the registry, Nodes that last reported each the next one as upstream are the only route Central knows to the first of them |
| ReportedRoutes.RouteToSmartNode | src/central/namespace.h:371-374 | so the next hop found is the last Node of that line |
| ReportedRoutes.LineIsShown | lib/NodeManager/Central/TopologyTree.cpp:138-222 | and the tree view shows the first Node, under exactly that next hop |
| ReportedRoutes.CentralReaches | src/central/namespace.h:351-374 | over any discovery and any registry run: if the Nodes between Central and m last reported the upstreams they have, the route Central knows is theirs and a message reaches m with at most one forward |
| PlanningNodes.FindNodeByMacAddress | lib/NodeManager/Central/CentralNodeRegistry.cpp:332-344 | the search finds the first entry with an address, or none |
| Loads.SettersKeepLoadInv | lib/LoadManager/Load.cpp:64-72 | modes and schedules stay consistent: fixed loads have no schedule, AUTO loads a cleared or a real window; a schedule is accepted exactly for an AUTO load and a valid window |
| Loads.WindowsAreMinutes | lib/LoadManager/Load.cpp:161-193 | a window is one from some minute of the day to another |
| Loads.ModeNumbers | lib/LoadManager/Load.h:34-40 | the four mode numbers decode to what they encode, the low bit saying on and the next one AUTO; any other number reads as fixed-off |
| Loads.Load.SetSchedule | lib/LoadManager/Load.cpp:161-193 | the load after a schedule request, and whether it was accepted, case by case |
| Loads.Load.SetMode | lib/LoadManager/Load.cpp:64-72 | a fixed mode clears the schedule and nothing else changes |
| Loads.Load.SetPowerRatingWatts | lib/LoadManager/Load.cpp:120-128 | exactly finite non-negative ratings are taken |
| NodeReports.CString | lib/NodeManager/Central/CentralNodeRegistry.cpp:10-20 | the longest prefix without a NUL |
| NodeReports.BufferedName | src/smart/namespace.h:149-196 | a name arrives whole up to fifteen characters, and cut to fifteen otherwise |
| NodeReports.PageCount | src/smart/namespace.h:203-209 | the least number of pages, at least one, that holds all reported loads; at most four |
| NodeReports.BuildNodeReportPacket | src/smart/namespace.h:149-201 | the packet carries exactly the loads of its page |
| NodeReports.AddPage | lib/NodeManager/Central/CentralNodeRegistry.cpp:180-190 | setting a page's bit adds that page to the mask and no other |
| NodeReports.FullMask | lib/NodeManager/Central/CentralNodeRegistry.cpp:268-276 | a mask equals the full mask exactly when it holds every page |
| CentralReports.ApplyReportToLoad | lib/NodeManager/Central/CentralNodeRegistry.cpp:205-262 | the setters applied to a known load add up to the reported load |
| CentralReports.UpsertReported | lib/NodeManager/Central/CentralNodeRegistry.cpp:205-262 | a reported load replaces the one on its pin in place or is appended |
| CentralReports.PruneUnlisted | lib/NodeManager/Central/CentralNodeRegistry.cpp:278-306 | collecting and then erasing drops exactly the loads whose pins were not reported |
| CentralReports.ApplyPageToEntry | lib/NodeManager/Central/CentralNodeRegistry.cpp:150-314 | one page changes an entry as the page function says: header, restart on another key, loads, mask, settlement |
| CentralReports.CentralNodeRegistry.ApplyNodeReport | lib/NodeManager/Central/CentralNodeRegistry.cpp:128-314 | the registry after a packet: malformed packets change nothing, others one entry or a new one |
| CentralReports.CentralNodeRegistry.AddLocalCentralNode | lib/NodeManager/Central/CentralNodeRegistry.cpp:87-126 | Central's own entry is created or overwritten, keeping the collection in progress |
| CentralReports.CentralNodeRegistry.RemoveLoad | lib/NodeManager/Central/CentralNodeRegistry.cpp:373-382 | the load on the pin leaves its Node's entry, and the answer tells whether there was one |
| ReportDelivery.RegistryActsPerNode | lib/NodeManager/Central/CentralNodeRegistry.cpp:128-150 | a packet touches the entry of the Node it names and no other |
| ReportDelivery.MaskIsPagesReceived | lib/NodeManager/Central/CentralNodeRegistry.cpp:173-190 | over every stream of packets the mask is exactly the set of pages received since the last reset, and the pins those their first copies listed |
| ReportDelivery.RemovedOnlyByCompleteReport | lib/NodeManager/Central/CentralNodeRegistry.cpp:268-313 | a load disappears only at a packet completing a report all of whose pages arrived since the last reset and whose entered copies did not list it |
| ReportRoundTrip.LoadRoundTrip | src/smart/namespace.h:165-196 | encoding a configured load and decoding it at Central gives the same load |
| ReportRoundTrip.AcceptedIsReportable | lib/NodeManager/Central/CentralNodeRegistry.cpp:192-262 | a report that is accepted decodes to a load a Smart Node can have configured, and that load encodes to the same report in every field that counts |
| ReportRoundTrip.ListedExactly | lib/NodeManager/Central/CentralNodeRegistry.cpp:192-262 | a page lists the pins of its acceptable slots and no others |
| ReportRoundTrip.StreamsKeepReportable | lib/NodeManager/Central/CentralNodeRegistry.cpp:192-313 | whatever packets arrive, forged ones included, an entry holds only loads a Smart Node can have configured |
| ReportRoundTrip.EnterPage | lib/NodeManager/Central/CentralNodeRegistry.cpp:192-266 | entering a page replaces exactly the loads on its pins |
| ReportRoundTrip.PruneViews | lib/NodeManager/Central/CentralNodeRegistry.cpp:278-306 | pruning keeps exactly the loads with listed pins |
| ReportRoundTrip.EveryLoadHasItsPage | src/smart/namespace.h:149-209 | up to sixteen loads, every load is on some page |
| ReportRoundTrip.IntakeKeepsRebuilding | lib/NodeManager/Central/CentralNodeRegistry.cpp:192-313 | whatever page comes next, all pages entered so far stay in the entry, also through a completion |
| ReportRoundTrip.DeliveredReportIsRebuilt | lib/NodeManager/Central/CentralNodeRegistry.cpp:128-314 | once every page of one report has arrived at least once, in any order with any repetition, the entry's loads are the Smart Node's, whatever loads it held before |
| ReportRoundTrip.StreamsKeepOwnLoads | lib/NodeManager/Central/CentralNodeRegistry.cpp:192-313 | whatever packets arrive, an entry holds loads of its own Node only, on distinct pins |
| ReportRoundTrip.DeliveredAfterAnyPast | lib/NodeManager/Central/CentralNodeRegistry.cpp:128-314 | the delivery result after any past of packets that left nothing over under the report's key |
| ReportRoundTrip.RegistryHoldsDeliveredReport | lib/NodeManager/Central/CentralNodeRegistry.cpp:128-314 | the same for the whole registry from its beginning, with packets of other Nodes and malformed packets in between |
| ReportRoundTrip.StreamsKeepCollectionsWell | lib/NodeManager/Central/CentralNodeRegistry.cpp:173-190 | any stream leaves a mask of existing pages, and no pins under an empty mask |
| ReportRoundTrip.LeftOverPageIsLost | lib/NodeManager/Central/CentralNodeRegistry.cpp:173-190 | a page already marked from an older report under the same key is dropped, and what is new on it never enters |
| ReportRoundTrip.RebuiltExactlyWhenNothingLeftOver | lib/NodeManager/Central/CentralNodeRegistry.cpp:173-190 | an entry is sure to rebuild every report that comes next if and only if its mask is empty or its collection has more pages than a Smart Node sends |
| ReportRoundTrip.RebuiltAfterAnyPast | lib/NodeManager/Central/CentralNodeRegistry.cpp:128-314 | the same equivalence for every entry that a stream of packets can leave behind |
| ReportRoundTrip.OnePageLeavesOver | lib/NodeManager/Central/CentralNodeRegistry.cpp:173-190 | any single page of a report of several pages, received by an entry like a new one, leaves an entry that some next report defeats |
| ReportRoundTrip.FirstOfTwoPagesLeavesOver | lib/NodeManager/Central/CentralNodeRegistry.cpp:173-190 | for instance the first of two pages of a new Node |
| BestFirstSearch.CalculateTotalPowerWatts | lib/BestFirstSearch/BestFirstSearch.cpp:275-292 | the loop sums the ratings |
| BestFirstSearch.RepresentsSameCombination | lib/BestFirstSearch/BestFirstSearch.cpp:42-60 | equal size and every member contained |
| BestFirstSearch.SameTestIsSetEquality | lib/BestFirstSearch/BestFirstSearch.cpp:42-60 | for combinations without repeats that one-way test is set equality |
| BestFirstSearch.SameTestNeedsNoRepeats | lib/BestFirstSearch/BestFirstSearch.cpp:42-60 | with a repeated load it confuses different sets |
| BestFirstSearch.CombinationAlreadyKnown | lib/BestFirstSearch/BestFirstSearch.cpp:62-84 | true exactly when an open or closed combination has the same set |
| BestFirstSearch.SearchOrderIsStrictWeak | lib/BestFirstSearch/BestFirstSearch.cpp:86-110 | the expansion order is a strict weak order, as sorting needs |
| BestFirstSearch.StableSortKeeps | lib/BestFirstSearch/BestFirstSearch.cpp:200-213 | sorting the open states loses and invents none |
| BestFirstSearch.StableSortPicksFirstBest | lib/BestFirstSearch/BestFirstSearch.cpp:200-213 | the state expanded next is the first one no other beats |
| BestFirstSearch.ExpandFirst | lib/BestFirstSearch/BestFirstSearch.cpp:198-268 | one turn of the outer loop keeps the worklist and its closure and closes exactly the state it expands, which is never better than the best so far |
| BestFirstSearch.TotalsOfSet | lib/BestFirstSearch/BestFirstSearch.cpp:275-362 | totals and merit depend on the set of loads only |
| BestFirstSearch.TryLoad | lib/BestFirstSearch/BestFirstSearch.cpp:215-262 | extending by one load keeps open, current and closed combinations pairwise different as sets |
| BestFirstSearch.AllFeasibleClosed | lib/BestFirstSearch/BestFirstSearch.cpp:198-268 | when nothing is open, every feasible set has been expanded |
| BestFirstSearch.Explore | lib/BestFirstSearch/BestFirstSearch.cpp:169-272 | the search ends, with a combination no feasible subset beats, having expanded each feasible set exactly once |
| BestFirstSearch.Search.constructor | lib/BestFirstSearch/BestFirstSearch.cpp:140-161 | the stored combination is optimal, or empty for a negative cap |
| BestFirstSearch.MeritIsUnique | lib/BestFirstSearch/BestFirstSearch.cpp:112-134 | the merit of the result depends neither on the expansion order nor on the order of the list |
| BestFirstSearch.MorePowerNeverWorse | lib/BestFirstSearch/BestFirstSearch.cpp:112-134 | more power or more loads never give a worse result |
| BestFirstSearch.LeftOutDoesNotFit | lib/BestFirstSearch/BestFirstSearch.cpp:112-134 | a load left out does not fit beside the selected ones; one without demand is never left out |
| BestFirstSearch.NoBetterSwap | lib/BestFirstSearch/BestFirstSearch.cpp:112-134 | a load left out that fits in place of a selected one counts for less, counting its priority and 5 more while its schedule is active; or, in this order, has a lower priority or draws no less |
| BestFirstSearch.FrontPromisesMost | lib/BestFirstSearch/BestFirstSearch.cpp:86-110 | no open state promises more than the one expanded next, by effective priorities, configured priorities, cost, size and power |
| BestFirstSearch.CostIsSizeAndMean | lib/BestFirstSearch/BestFirstSearch.cpp:275-292 | the cost of a combination is its size and the mean power of its loads |
| PowerBudgets.PowerManager.SetPowerBudgetWatts | lib/BatteryManager/PowerManager.cpp:616-621 | exactly finite positive budgets are taken |
| PowerBudgets.PowerManager.SetPowerReserveWatts | lib/BatteryManager/PowerManager.cpp:623-628 | exactly finite non-negative reserves are taken |
| PowerBudgets.PowerManager.UpdatePowerBudget | lib/BatteryManager/PowerManager.cpp:656-727 | every derived field is renewed, or on unusable inputs nothing changes; which inputs are usable, in full |
| PowerBudgets.ReserveKept | lib/BatteryManager/PowerManager.cpp:679-721 | the reserve stays free if and only if the fixed demand leaves it free (or there is none) |
| PowerBudgets.PowerConserved | lib/BatteryManager/PowerManager.cpp:715-721 | demand plus remainder is the budget if and only if the fixed demand does not exceed it |
| PowerBudgets.RuntimeCovered | lib/BatteryManager/PowerManager.cpp:683-706 | a runtime target reported achievable is covered by the usable energy; one reported missed is defeated by the fixed loads alone |
| PowerBudgets.NoAutoPowerAtMinimumCharge | lib/BatteryManager/PowerManager.cpp:708-717 | at or below the minimum charge no AUTO power is granted |
| PowerBudgets.GrantIsLargest | lib/BatteryManager/PowerManager.cpp:679-721 | a further demand is within the AUTO grant if and only if, with the fixed demand, it leaves the reserve free, is covered by capacity, voltage and charge above the minimum for a required runtime, and the charge is above the minimum |
| PowerBudgets.AchievableExactly | lib/BatteryManager/PowerManager.cpp:683-713 | a runtime target is looked at if and only if there is one, and reported achievable if and only if there is no fixed demand or it fits |
| PowerBudgets.UsableEnergyInFull | lib/BatteryManager/PowerManager.cpp:688-697 | the usable energy is capacity times voltage times the charge above the minimum, and none at or below it |
| RelayDispatch.BuildDispatchOrder | lib/RelayManager/Central/RelayCommandDispatcher.cpp:17-42 | the two loops give the OFF targets followed by the ON targets |
| RelayDispatch.DispatchOrderIsStable | lib/RelayManager/Central/RelayCommandDispatcher.cpp:17-42 | that order is a permutation, and the only arrangement with OFF before ON that keeps the order within each phase |
| RelayDispatch.RelayCommandDispatcher.BeginCommand | lib/RelayManager/Central/RelayCommandDispatcher.cpp:54-68 | the command is pending under the current identifier and the counter moves on, wrapping at 2^32 |
| RelayDispatch.RelayCommandDispatcher.CompleteCommand | lib/RelayManager/Central/RelayCommandDispatcher.cpp:88-101 | exactly a pending command is settled, with the outcome reported for it |
| RelayDispatch.CounterCounts | lib/RelayManager/Central/RelayCommandDispatcher.cpp:54-68 | over any run the counter is the number of commands begun, modulo 2^32 |
| RelayDispatch.ZeroIdGivenExactly | src/central/namespace.h:675-681 | in a run of a new dispatcher some command gets identifier 0, which the caller takes for a failure, if and only if 2^32 commands were begun |
| RelayDispatch.IdSharedExactly | lib/RelayManager/Central/RelayCommandDispatcher.cpp:54-68 | two commands of a run share an identifier if and only if more than 2^32 were begun |
| RelayDispatch.PendingUntilSettled | lib/RelayManager/Central/RelayCommandDispatcher.cpp:88-119 | a command, the unsent one with identifier 0 included, stays pending through every run that neither completes it nor clears all |
| RelayDispatch.SettledStaysSettled | lib/RelayManager/Central/RelayCommandDispatcher.cpp:54-101 | as long as the 2^32 identifiers last none is zero or shared, and a settled one never becomes pending again |
| RelayDispatch.AnswerIsForTheCommand | lib/RelayManager/Central/RelayCommandDispatcher.cpp:88-107 | however late it is read, the outcome of a command is never a success not reported for it, a second answer changes nothing, and with no other command open it is exactly the reported one |
| RelayDispatch.CarriedIsConsistent | src/central/namespace.h:657-728 | at every moment each targeted relay is as whatever acted on it last left it: its own command, something else such as another order, or nothing since the start |
| RelayDispatch.OthersActedLast | src/central/namespace.h:657-728 | the relays that something else holds are those on which, among all events, something else acted last |
| RelayDispatch.PowerSafeThroughout | src/central/namespace.h:922-936 | until the first ON command the targeted relays draw no more than at the start and what something else has switched on since; afterwards no more than the plan, what OFF commands reported as failed left on, and what something else has switched on among the OFF targets |
| RelayDispatch.BoundHoldsExactly | src/central/namespace.h:922-936 | without the foreign term, and for every rating, the bound holds if and only if in the OFF phase no target conducts that did not at the start, and in the ON phase no OFF target that was not on at the start and reported as failed |
| RelayDispatch.BoundHoldsExactlyOnEvents | src/central/namespace.h:922-936 | that is so if and only if, on no target that must not conduct, something else acted last and switched it on |
| RelayDispatch.AllReportedMeansAsPlanned | src/central/namespace.h:657-728 | if every command was reported a success, the relays are as planned if and only if something else did not switch one otherwise last |
| RelayExchange.HandleRelayAcknowledgement | src/central/namespace.h:1169-1184 | an acknowledgement settles a pending command exactly if identifier, origin, pin and state all match |
| RelayExchange.AcknowledgedExactly | src/central/namespace.h:1169-1184 | an acknowledgement takes exactly the command it names, by identifier and target, from the pending ones, and records its outcome; any other changes nothing |
| RelayExchange.StepKeepsInv | src/central/namespace.h:657-728 | each step, of any number of overlapping orders, keeps: commands on the air have identifiers of their own, and successful acknowledgements and outcomes stand for commands that acted |
| RelayExchange.SuccessMeansActed | src/central/namespace.h:657-728 | until identifiers run out, a command reported as a success has acted on its relay, whatever acknowledgements arrived when and however many orders overlap |
| RelayExchange.ExchangeIsDispatch | src/central/namespace.h:657-728 | each order's share of an exchange, with routes, sends that fail or seem to, deadlines, local relays and other orders, is an abstract dispatch of that order |
| RelayExchange.ExchangeIsPowerSafe | src/central/namespace.h:657-728 | so the power bound with the foreign term holds of each order at every moment of an exchange |
| RelayOverlap.HeldExactly | src/central/namespace.h:657-728 | an order's relays held from elsewhere are those that, since it was handed over, an event of something else was the last to switch |
| RelayOverlap.AloneBoundHoldsExactly | src/central/namespace.h:922-1037 | an order keeps the bound it would have alone, for every rating, if and only if on no target that must not conduct the last event was an ON from elsewhere |
| RelayOverlap.CarefulDispatchIsPowerSafe | src/central/namespace.h:922-1037 | that bound holds if no order was under way at the hand-over, none is handed over before the end, no ON command was given up, and the radio repeats none |
| RelayOverlap.OverlappingOrdersExceed | src/central/namespace.h:1035-1037 | a history of two overlapping orders, all commands reported as successes, drawing 1200 W against the 600 W each planned |
| RelayOverlap.AbandonedOnExceeds | src/central/namespace.h:721-725 | a history of one order after the other in which an abandoned ON command acts after the later order's OFF was reported as a success |
| RelayDispatch.TargetPowerOfOrder | lib/RelayManager/Central/RelayCommandDispatcher.cpp:17-42 | ordering the targets does not change what the plan draws |
| LoadConfigurations.SetThenFind | lib/LoadManager/Central/LoadConfigurationStore.cpp:101-156 | setting a configuration is visible for its load and for no other; invalid schedules change nothing |
| LoadConfigurations.RemoveThenFind | lib/LoadManager/Central/LoadConfigurationStore.cpp:158-170 | removing one forgets it and no other |
| LoadConfigurations.LoadConfigurationStore.ApplyToLoad | lib/LoadManager/Central/LoadConfigurationStore.cpp:172-187 | the load receives its stored priority, mode and schedule, or stays as it is |
| LoadConfigurations.SettingsTakenOver | lib/LoadManager/Central/LoadConfigurationStore.cpp:172-187 | a load with a stored entry has its priority, its mode and, if AUTO, its schedule, all else as before; without one it stays as it is |
| LoadConfigurations.RecordLayout | lib/LoadManager/Central/LoadConfigurationStore.cpp:30-40 | which byte of a record holds which field, by an entry whose fields all differ |
| LoadConfigurations.LegacyIsCurrentWithoutSchedule | lib/LoadManager/Central/LoadConfigurationStore.cpp:250-296 | a version-1 record reads as the current record with its schedule off |
| LoadConfigurations.AppliedTwice | lib/LoadManager/Central/LoadConfigurationStore.cpp:172-187 | applying stored settings keeps the load invariant and is idempotent |
| LoadConfigurations.LoadConfigurationStore.Persist | lib/LoadManager/Central/LoadConfigurationStore.cpp:299-350 | the loop writes the packed records of all entries, or flash keeps what it held |
| LoadConfigurations.LoadConfigurationStore.LoadPersisted | lib/LoadManager/Central/LoadConfigurationStore.cpp:189-296 | current records are restored, failing those version-1 records; when neither can be decoded the list stays |
| LoadConfigurations.DecodeRecords | lib/LoadManager/Central/LoadConfigurationStore.cpp:212-247 | the loop decodes every record, and refuses exactly the blobs no valid list decodes from |
| LoadConfigurations.EncodedDecodes | lib/LoadManager/Central/LoadConfigurationStore.cpp:212-330 | the packed records of a list decode to that list and to no other |
| LoadConfigurations.PersistThenRestart | lib/LoadManager/Central/LoadConfigurationStore.cpp:189-350 | a fresh store gets back what was persisted if and only if the list was not empty or no version-1 records are left |
| Planning.BuildLoadFilter | src/central/namespace.h:568-587 | the positions of loads taking part, each by its mode, in order |
| Planning.ApplyStoredLoadSettings | src/central/namespace.h:552-566 | every load receives its stored settings |
| Planning.UpdateAutoRuntimeState | src/central/namespace.h:901-920 | the load is switched, its configuration stored, and a change reported exactly as compared |
| Planning.NothingToSaveExactly | src/central/namespace.h:896-920 | when no change is reported, the stored list is what a save would write if and only if the load carries its stored schedule |
| Planning.ChangeIsReal | src/central/namespace.h:901-920 | a reported change is one of the stored entry or of the load |
| Planning.OnlyWindowEndsAreMissed | src/central/namespace.h:896-899 | an unreported change is always a window with the stored start and another end, and every such window is unreported |
| Planning.DecideAutoLoads | src/central/namespace.h:991-1008 | every candidate is switched and noted as selected or rejected, its configuration is in force, no other load or entry changes, and the booked power is the selected loads' |
| Planning.BookedIsSelected | src/central/namespace.h:991-1005 | the power booked load by load is the power of the selected combination, within the cap |
| Planning.PrepareBudget | src/central/namespace.h:966-976 | the budget branch is taken exactly when settings, inputs and the update all accept |
| Planning.CentralPlanner.RunOptimizationCycle | src/central/namespace.h:938-1037 | the whole cycle: settings, optimal selection for the granted power, decided loads, order and books, or the fallback that selects nothing; unless a save is asked for, the stored list is unchanged |
| Planning.BuildRelayTargets | src/central/namespace.h:638-655 | the targets of fixed-off, AUTO and fixed-on loads, ordered for dispatch |
| PlanSafety.PlanKeepsBudget | src/central/namespace.h:970-1013 | the books hold the fixed loads' and the selected loads' real demand, within the cap |
| PlanSafety.PlanGuarantees | src/central/namespace.h:970-1013 | AUTO power within what was granted; reserve kept and budget conserved when fixed loads fit; achievable runtime covered by energy; no AUTO power at minimum charge |
| PlanSafety.RejectedDoesNotFit | src/central/namespace.h:991-1005 | a load is marked as exceeding the budget exactly when not selected, and then really does not fit; zero-watt loads are on |
| PlanSafety.CommandedAsDecided | src/central/namespace.h:638-655 | each load taking part is commanded to exactly one state: AUTO loads on if and only if selected, fixed loads to their mode |
| PlanSafety.CommandsInFull | src/central/namespace.h:568-655 | a load is commanded to a state if and only if its Node is present and its mode is fixed to that state, or it is AUTO and selected or not accordingly |
| PlanSafety.DecidedInFull | src/central/namespace.h:589-630 | a cycle leaves loads of absent Nodes alone, clears the note of fixed ones, and switches and notes the AUTO ones as selected |
| PlanSafety.BudgetedExactly | src/central/namespace.h:955-976 | whatever the loads are, a cycle has a budget if and only if the settings make sense, what they need is known of the battery, and the energy per hour of a required runtime is a number |
| PlanSafety.NoBudgetAllAutoOff | src/central/namespace.h:1014-1027 | without a budget every AUTO load present is commanded OFF |
| PlanSafety.NoSwapHelps | src/central/namespace.h:978-1005 | a rejected AUTO load that fits in place of a selected one does not count for more, schedules that are active in this cycle included |
| PlanSafety.StoredFixedModeRules | src/central/namespace.h:552-655 | a load with a stored fixed mode is commanded to that state and to no other |
| PlanSafety.DecisionsSurviveNextSettings | src/central/namespace.h:552-566 | the stored settings a later cycle applies first leave every decided AUTO load as this cycle decided it |
| PlanSafety.PlanDrawsWhatIsBooked | src/central/namespace.h:638-655 | the commanded relays together draw the booked fixed and AUTO power |
| PlanSafety.OneTargetPerLoad | src/central/namespace.h:638-655 | no load is commanded twice in one order |
| PlanSafety.PlanIsPowerSafe | src/central/namespace.h:922-1037 | from budget to relays, beside any other orders: until the first ON command the draw is at most that of the start and what others switched on since; from then on, whatever it was at the start, at most the budget, what failed OFF commands left on and what others switched on among the relays to be off |
| PlanSafety.PlanExchangeIsPowerSafe | src/central/namespace.h:657-1037 | the same two bounds at every moment of the radio exchange, each in its phase, for the plan's order among all orders handed over |
| PlanSafety.CarefulPlanIsPowerSafe | src/central/namespace.h:657-1037 | a plan handed over with no order under way and no ON command given up, carried out with none handed over, no relay configured on and no command brought twice, draws at most what it did at the start until its first ON command, and from then on at most the budget and what failed OFF commands left on |
| PlanOverlap.PlanIsOfRivals | src/central/namespace.h:938-1037 | for two AUTO loads of which the budget admits one, a plan is one the cycle can make if and only if it switches the lower priority off and then the higher one on |
| PlanOverlap.RivalPlansExist | src/central/namespace.h:938-1037 | two such plans with opposite orders follow each other when the stored priorities are swapped between the cycles |
| PlanOverlap.OverlappingPlansExceed | src/central/namespace.h:1035-1037 | any two such plans whose orders overlap end at 1200 W against a budget of 600 W, with every command acting at once and reported as a success |
| RegistryPlanning.StreamsKeepGood | lib/NodeManager/Central/CentralNodeRegistry.cpp:192-313 | whatever packets arrive, an entry's loads are its own Node's, on distinct pins, each with a rating, mode and schedule its setters keep |
| RegistryPlanning.NextKeepsGood | lib/NodeManager/Central/CentralNodeRegistry.cpp:87-382 | reports, Central's own loads, removals, stored settings and planning cycles all keep one entry per Node with such loads |
| RegistryPlanning.RunsFeedCycles | src/central/namespace.h:552-587 | in every run of a new registry the loads of all entries have different identities and consistent settings, which is what a cycle asks for |
| RegistryPlanning.DecisionsAreTaken | src/central/namespace.h:991-1008 | after any run, what a cycle decides can be written into the entries, and the loads of all entries then are exactly the decided ones |
| RegistryPlanning.FoundByIdentity | lib/NodeManager/Central/CentralNodeRegistry.cpp:360-371 | address and pin find exactly the load with that identity among all entries, or none |
| RegistryPlanning.EntryIsLastWord | lib/NodeManager/Central/CentralNodeRegistry.cpp:87-170 | in every run an entry holds the upstream, hop count, name and time of the last accepted page of its Node, or of its last entry as Central |
| RegistryPlanning.RegisteredOnceHeard | lib/NodeManager/Central/CentralNodeRegistry.cpp:87-150 | a Node has an entry if and only if such a page or entry came |
| RegistryPlanning.CentralIsLocal | lib/NodeManager/Central/CentralNodeRegistry.cpp:87-150 | an entry counts as Central if and only if it was entered as Central |
| RegistryPlanning.PageIsWord | lib/NodeManager/Central/CentralNodeRegistry.cpp:128-148 | exactly pages of reports of one to eight pages are taken; any other packet changes nothing |
| RegistryPlanning.NotesKept | lib/NodeManager/Central/CentralNodeRegistry.cpp:205-262 | a report leaves Central's own rejection notes as they are, and gives a new load none |
| RegistryPlanning.ForgottenIsGone | lib/NodeManager/Central/CentralNodeRegistry.cpp:373-382 | a confirmed removal takes exactly the load with this identity from the loads of all entries |
| RegistryPlanning.SettledAlone | src/central/namespace.h:552-566 | stored settings applied to one load reach that load and no other |
| RegistryPlanning.LocalIsEntered | lib/NodeManager/Central/CentralNodeRegistry.cpp:87-121 | Central's own loads replace exactly those of its entry |
| Relays.RelayController.AddRelay | lib/RelayManager/RelayController.cpp:66-108 | a channel is added exactly if its pin is free and its GPIO works; otherwise the table is as before |
| Relays.RelayController.RemoveRelay | lib/RelayManager/RelayController.cpp:111-144 | the channel on a pin leaves the table, whatever its GPIO answers |
| Relays.RelayController.SetRelayState | lib/RelayManager/RelayController.cpp:169-192 | a level is written exactly for a registered, configured channel whose GPIO works |
| Relays.RelayController.WriteGpioLevel | lib/RelayManager/RelayController.cpp:292-318 | exactly a configured relay whose GPIO works is driven, to the level its polarity asks for |
| Nodes.Node.AddLoad | lib/NodeManager/Node.cpp:12-24 | a load is added exactly if it belongs to the Node and its pin is free |
| Nodes.Node.RemoveLoadByRelayPin | lib/NodeManager/Node.cpp:83-93 | the load on a pin is erased, if there is one |
| HardwareStores.ApplyOne | lib/NodeManager/NodeLoadHardwareStore.cpp:229-315 | relay and load are both added, or after whichever step failed both vectors are as before, with the reason |
| HardwareStores.NodeLoadHardwareStore.ConfigureNewLoad | lib/NodeManager/NodeLoadHardwareStore.cpp:328-354 | all three vectors grow together or none changes; the reason reported, in the order of the checks |
| HardwareStores.NodeLoadHardwareStore.RemoveLoad | lib/NodeManager/NodeLoadHardwareStore.cpp:357-415 | the load leaves all three vectors or none |
| HardwareStores.NodeLoadHardwareStore.ClearAllConfigurations | lib/NodeManager/NodeLoadHardwareStore.cpp:418-456 | all loads leave, or none, on any GPIO or flash failure |
| HardwareStores.NodeLoadHardwareStore.ApplyPersistedConfigurations | lib/NodeManager/NodeLoadHardwareStore.cpp:459-481 | a restore applies every configuration, or takes back all it had added and leaves the three vectors as they were |
| HardwareStores.AppendedUpTo | lib/NodeManager/NodeLoadHardwareStore.cpp:459-481 | a restore gets as far as n exactly when the first n configurations are applicable and share no pin |
| HardwareStores.TakenBack | lib/NodeManager/NodeLoadHardwareStore.cpp:467-473 | erasing the applied pins from a part-way restore gives the vectors from before it |
| HardwareStores.RunStaysInStep | lib/NodeManager/NodeLoadHardwareStore.cpp:229-481 | through any run of configure, remove, clear and restore with any failures, every load and relay is the one its configuration describes, in the same order, on distinct pins, at most sixteen |
| HardwareStores.RunLoadsAndRelaysObey | lib/NodeManager/NodeLoadHardwareStore.cpp:229-315 | after any such run each load has the name, rating, priority, mode and schedule of its configuration, and its relay, however wired, conducts exactly when commanded on, at first exactly in an ON mode |
| HardwareStores.ConfiguresExactly | lib/NodeManager/NodeLoadHardwareStore.cpp:155-354 | a load is configured if and only if its name, priority, rating and schedule are in range, a place and its pin are free, and neither GPIO nor flash fails |
| HardwareStores.ReasonIsTrue | lib/NodeManager/NodeLoadHardwareStore.cpp:155-354 | every reason given for a refusal is a fact |
| HardwareStores.RemovesExactly | lib/NodeManager/NodeLoadHardwareStore.cpp:357-415 | which reason a removal fails for, or that it removes exactly the configuration on its pin |
| HardwareStores.ClearsExactly | lib/NodeManager/NodeLoadHardwareStore.cpp:418-456 | all loads are cleared if and only if each of their relays can be driven OFF and flash takes the empty list |
| HardwareStores.RestoreFromEmpty | lib/NodeManager/NodeLoadHardwareStore.cpp:459-481 | from an empty Node a restore succeeds if and only if pins differ, GPIOs work and schedules are windows; then all is in step |
| HardwareStores.ClearedIsEmpty | lib/NodeManager/NodeLoadHardwareStore.cpp:447-454 | clearing vectors in step empties all three |
| HardwareStores.ConfigureThenRemove | lib/NodeManager/NodeLoadHardwareStore.cpp:328-415 | configuring a load and removing it again leaves no trace |
| SmartLoadUpdates.UpdateLoad | src/smart/namespace.h:433-463 | the update is a removal whose result is ignored, followed by a configuration |
| SmartLoadUpdates.RunStaysValid | lib/NodeManager/NodeLoadHardwareStore.cpp:155-226 | through any run of operations every held configuration stays valid and the three vectors in step |
| SmartLoadUpdates.UpdateSucceeds | src/smart/namespace.h:433-463 | an update succeeds if and only if the changed load is acceptable and GPIO and flash agree at all four points |
| SmartLoadUpdates.UpdatedAsAsked | src/smart/namespace.h:433-463 | a successful update leaves the load with the priority, mode and schedule asked for, else as it was, and every other configuration untouched |
| SmartLoadUpdates.UpdateIsAllOrNothingExactly | src/smart/namespace.h:433-463 | an update succeeds or changes nothing if and only if its removal fails, or the changed load is acceptable and GPIO and flash accept it; otherwise the load is gone from all three vectors |
| SmartLoadUpdates.BadPriorityDeletesTheLoad | src/smart/namespace.h:433-463 | asking for priority 11 deletes the load |
| Commissioning.NodeCommissioningRegistry.RecordDiscovered | lib/NodeManager/Central/NodeCommissioningRegistry.cpp:103-150 | a new Node gets an uncommissioned record; a decommissioned one becomes uncommissioned again; others keep their state; board data are renewed, cut to their buffers, except the role |
| Commissioning.NodeCommissioningRegistry.RequestCommissioning | lib/NodeManager/Central/NodeCommissioningRegistry.cpp:200-237 | exactly a valid name for a known Node that is not being configured is asked for |
| Commissioning.NodeCommissioningRegistry.ApplyCommissionResult | lib/NodeManager/Central/NodeCommissioningRegistry.cpp:240-264 | exactly the awaited answer is applied |
| Commissioning.NodeCommissioningRegistry.Decommission | lib/NodeManager/Central/NodeCommissioningRegistry.cpp:267-284 | a legal decommissioning clears names and stops waiting |
| Commissioning.NodeIdentityStore.ApplyCommission | lib/NodeManager/Smart/NodeIdentityStore.cpp:83-105 | exactly valid names are taken, by uncommissioned or named Nodes |
| Commissioning.HandleCommissionCommand | src/smart/namespace.h:515-541 | the name is taken only if it can be stored, and the answer reports that |
| Commissioning.HandleDecommissionCommand | src/smart/namespace.h:543-573 | the identity is cleared only after the loads, and only if that can be stored |
| CommissioningRuns.NextKeepsInv | src/central/namespace.h:1228-1252 | every event keeps: the pending name is the newest command's, every successful answer stands for an acceptance, and under ordered arrival an accepted newest command is the last one applied |
| CommissioningRuns.CommittedNameWasAccepted | lib/NodeManager/Central/NodeCommissioningRegistry.cpp:240-264 | over every history of losses, repeats and delays, a name Central shows was accepted by the Node under a command for it |
| CommissioningRuns.CommitsOnlyTheLatest | lib/NodeManager/Central/NodeCommissioningRegistry.cpp:240-264 | an answer changes something exactly when awaited, and commits only the name of the newest command, which the Node has accepted |
| CommissioningRuns.WhatKills | lib/NodeManager/Central/NodeCommissioningRegistry.cpp:200-284 | a newer request, a decommissioning, or the answer itself makes a command's answers dead |
| CommissioningRuns.DeadAnswersChangeNothing | lib/NodeManager/Central/NodeCommissioningRegistry.cpp:240-251 | in every later world a dead command's answers change nothing, so each takes effect at most once |
| CommissioningRuns.NameWasBrought | src/smart/namespace.h:515-541 | the Node has a name if and only if some arrival brought it and no later one it took was a decommission or brought another |
| CommissioningRuns.NamesAgree | src/smart/namespace.h:515-541 | Central's newest committed name is the Node's own if and only if some arrival brought it and no later one the Node took was a decommission or brought another |
| CommissioningRuns.CarefulNamesAgree | src/central/namespace.h:1596-1614 | if Central sends a command only when all earlier ones have arrived, and the radio repeats none, the names agree |
| CommissioningRuns.AnsweredHasArrived | src/central/namespace.h:1228-1252 | a commission command Central holds an answer to has reached the Node |
| CommissioningRuns.ReorderedRenamesDiverge | lib/NodeManager/Smart/NodeIdentityStore.cpp:83-105 | a history without repeated commands in which two reordered renames leave different names at both ends |
| CommissioningRuns.ReusedIdMayMiscommit | lib/NodeManager/Central/NodeCommissioningRegistry.cpp:248-260 | after any history, a request can end in a committed name whose command the Node never took if and only if its identifier was used before |
| CommissioningRuns.UnansweredBlocks | lib/NodeManager/Central/NodeCommissioningRegistry.cpp:212-222 | in every history, while a first commissioning is unanswered each request is refused and the record stands still; exactly a decommissioning or the awaited answer changes it |
| CommissioningRuns.LostFirstCommissioningBlocks | lib/NodeManager/Central/NodeCommissioningRegistry.cpp:212-222 | after a first request whose command is lost, no sequence of reports and requests gets the Node another command |
| CommissioningRuns.DismissalUnblocks | lib/NodeManager/Central/NodeCommissioningRegistry.cpp:140-142 | decommissioning and a new report make the Node requestable again, for exactly the valid names |
| CommissioningRuns.LastTakenDecides | src/smart/namespace.h:515-573 | a Node is commissioned if and only if the last command it took is a commission |
| CommissioningRuns.AppliedAnswerLifecycle | src/smart/namespace.h:517-538 | after an awaited answer Central's lifecycle is the Node's if and only if the last command taken since, if any, is of the kind the answer reports; or, from a busy Node, the last command ever taken, if any, is a decommission |
| CommissioningRuns.BusyNodeLooksUncommissioned | src/smart/namespace.h:517-538 | a history, all in order, after which Central takes a commissioned Node for an uncommissioned one |
| CommissioningRuns.AckReportsTrueState | src/smart/namespace.h:517-538 | the reported state is the Node's own if and only if the Node was free to answer or is uncommissioned |
| CommissioningRuns.UserMayAct | lib/NodeManager/Central/NodeCommissioningRegistry.cpp:200-284 | in every history a Node can be decommissioned if and only if it is not, and asked for, under a name of 1 to 19 characters, if and only if uncommissioned or commissioned |
| CommissioningRuns.LifecycleMoves | lib/NodeManager/Central/NodeCommissioningRegistry.cpp:103-284 | the lifecycle Central records moves in six ways only, each by one kind of event |
| CommissioningRuns.CommissioningEndToEnd | src/central/namespace.h:1596-1614 | from every history, a request whose command arrives at a free Node and whose answer comes back leaves both ends with the name asked for |
| CommissioningRuns.TakenExactly | src/smart/namespace.h:515-573 | in every history, a command that arrives changes the Node, and a commission is answered as a success, if and only if the Node was free and could store it |
| CommissioningRuns.BadNamesAreRefused | lib/NodeManager/Central/NodeCommissioningRegistry.cpp:200-212 | a name that is empty or longer than 19 characters changes nothing |
| CommissioningRuns.DecommissioningEndToEnd | src/smart/namespace.h:543-573 | from every history, a decommissioning that arrives at a free Node leaves both ends without a name |
| CommissioningRuns.SyncIsLastDecided | lib/NodeManager/Central/NodeCommissioningRegistry.cpp:200-284 | in every history a record says failed if and only if the last accepted request, dismissal or awaited answer is an answer of refusal, and pending if and only if it is a request |
| CommissioningRuns.BoardIsLastReported | lib/NodeManager/Central/NodeCommissioningRegistry.cpp:103-150 | in every history a record holds the board as last reported, cut to 11, 15 and 18 places, and the address and role first reported |

## Left out

- Wi-Fi, the provisioning portal, HTTP, MQTT topics, consoles and JSON text: input and output. The topology tree is a value, not text.
- The values a search, a sum and a budget work on are exact reals: float rounding, and overflow to infinity in sums, are not modelled. That energy divided by a tiny runtime can overflow a float is.
- Restarts in discovery: a boot epoch is fixed, because a restart forgets the hop count and may leave other Nodes pointing at it.
- Lock timeouts, except for a Node whose identity is busy when a commission command arrives.
- ESP-IDF calls: each is an answer given by a parameter. A failed write is taken to leave flash as it was.
- Downward forwarding beyond the Smart rule's first step, which relies on direct radio reach.
- The signal-strength refresh and the channels of direct downstream Nodes, and messages of the wrong length.
- DeliveredReportIsRebuilt: pages of another report of the same Node that arrive in the middle of a delivery restart the collection; the delivery is counted from the last such page.
- Loads live by value in vectors, as in the firmware; pointers into a vector are positions or identities, so dangling pointers after an erase are not captured.
- Planning works on the loads of all entries as one list, written back entry by entry at the end of a cycle; which Nodes take part, which schedules are active and how long the runtime target still runs are parameters of a cycle.
- Relay levels: the level written by an operation is an answer of that operation; it is not kept in the table, so a failed removal leaves the three vectors as they were although the relay has been switched off.
- When exactly a relay's Node executes a queued command, and the delays between ON commands: a command may act at any time after it was sent.
- SuccessMeansActed: once the 2^32 command identifiers have run out, an old acknowledgement may be taken for a new one's.
- Central re-applies user settings after each report; the round trip of a report is about the registry before that. In `RegistryPlanning` they are events of their own.
- Diagnostics in commissioning records, and the persistence of those records.
- Byte values outside an enumeration in persisted records: the firmware casts them, the model reads them as fixed-off.
- The flash format of hardware configurations; a restore that meets a duplicate pin fails in `ApplyPersistedConfigurations`, since loading alone does not compare records with each other.
- The state-of-charge estimators and sensor readings, whose results enter planning as given numbers.
- Host-build branches, where hardware calls do nothing.
