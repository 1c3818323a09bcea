/** From the routes Nodes have to the routes Central knows: what reports make of the next hop and of the tree view. */
module ReportedRoutes {
  import opened Common
  import opened PlanningNodes
  import opened CentralReports
  import opened ReportDelivery
  import opened RegistryPlanning
  import opened Routing
  import Discovery
  import opened Forwarding

  /** Among the first n events, the last word of this Node is a report that names this upstream. */
  ghost predicate LastReported(events: seq<RegistryEvent>, n: nat, mac: MacAddress, upstream: MacAddress)
    requires n <= |events|
  {
    exists j :: LastWord(events, n, j, mac) && events[j].Hear? && events[j].arrival.packet.header.upstream == upstream
  }

  ghost predicate NeverLocal(events: seq<RegistryEvent>, mac: MacAddress) {
    forall e <- events | e.Local? :: e.mac != mac
  }

  /** The Node that comes after p[i] on the way to c. */
  function Onward(p: seq<MacAddress>, c: MacAddress, i: nat): MacAddress { if i + 1 < |p| then p[i + 1] else c }

  /** Each Node of p last reported the next one as its upstream, the last one c; none of them is Central. */
  ghost predicate ReportedLine(events: seq<RegistryEvent>, n: nat, c: MacAddress, p: seq<MacAddress>)
    requires n <= |events|
  {
    && p != []
    && forall i | 0 <= i < |p| ::
         && NeverLocal(events, p[i]) && p[i] != c
         && LastReported(events, n, p[i], Onward(p, c, i))
  }

  lemma ReportedIsLinked(trace: seq<seq<PlanningNode>>, events: seq<RegistryEvent>, n: nat, a: MacAddress,
                         b: MacAddress)
    requires RegistryRun(trace, events) && n <= |events| && NeverLocal(events, a) && LastReported(events, n, a, b)
    ensures Link(trace[n], a, b)
  {
    var j :| LastWord(events, n, j, a) && events[j].Hear? && events[j].arrival.packet.header.upstream == b;
    EntryIsLastWord(trace, events, n, j, a);
    CentralIsLocal(trace, events, n, a);
  }

  lemma LinkOfLine(trace: seq<seq<PlanningNode>>, events: seq<RegistryEvent>, n: nat, c: MacAddress,
                   p: seq<MacAddress>, i: nat)
    requires RegistryRun(trace, events) && n <= |events| && ReportedLine(events, n, c, p) && i < |p|
    ensures Link(trace[n], p[i], Onward(p, c, i)) && p[i] != c
  {
    ReportedIsLinked(trace, events, n, p[i], Onward(p, c, i));
  }

  /** Such a line is the one route Central knows to its first Node: the next hop is the line's last Node. */
  lemma LineIsRoute(trace: seq<seq<PlanningNode>>, events: seq<RegistryEvent>, n: nat, c: MacAddress,
                    p: seq<MacAddress>)
    requires RegistryRun(trace, events) && n <= |events| && ReportedLine(events, n, c, p)
    ensures RoutePath(trace[n], c, p)
    ensures forall q | RoutePath(trace[n], c, q) && q[0] == p[0] :: q[|q| - 1] == p[|p| - 1]
  {
    forall i | 0 <= i < |p| - 1 ensures Link(trace[n], p[i], p[i + 1]) { LinkOfLine(trace, events, n, c, p, i); }
    LinkOfLine(trace, events, n, c, p, |p| - 1);
    forall i | 0 < i < |p| ensures p[i] != c { LinkOfLine(trace, events, n, c, p, i); }
    forall q | RoutePath(trace[n], c, q) && q[0] == p[0] ensures q == p { RoutePathUnique(trace[n], c, p, q); }
  }

  /** So Central finds it. */
  method RouteToSmartNode(nodes: seq<PlanningNode>, local: MacAddress, destination: MacAddress,
                          ghost trace: seq<seq<PlanningNode>>, ghost events: seq<RegistryEvent>)
    returns (nextHop: Option<MacAddress>)
    requires RegistryRun(trace, events) && nodes == trace[|events|]
    ensures forall p | ReportedLine(events, |events|, local, p) && p[0] == destination ::
              nextHop == Some(p[|p| - 1])
  {
    nextHop := FindNextHopFromCentral(nodes, local, destination);
    forall p | ReportedLine(events, |events|, local, p) && p[0] == destination ensures nextHop == Some(p[|p| - 1]) {
      LineIsRoute(trace, events, |events|, local, p);
    }
  }

  /** And once Central has entered itself, the tree view shows the Node, under that next hop. */
  lemma LineIsShown(trace: seq<seq<PlanningNode>>, events: seq<RegistryEvent>, n: nat, c: MacAddress,
                    p: seq<MacAddress>)
    requires RegistryRun(trace, events) && n <= |events| && ReportedLine(events, n, c, p)
    requires exists j | 0 <= j < n :: events[j].Local? && events[j].mac == c
    ensures p[0] in Listing(ChildTrees(trace[n], c, |trace[n]|, 0))
    ensures forall t <- ChildTrees(trace[n], c, |trace[n]|, 0) :: p[0] in Listing([t]) <==> t.mac == p[|p| - 1]
  {
    LineIsRoute(trace, events, n, c, p);
    CentralIsLocal(trace, events, n, c);
    RunsFeedCycles(trace, events, n);
    assert Rooted(trace[n], c);
    TreeListsExactlyTheRouted(trace[n], c);
    forall t <- ChildTrees(trace[n], c, |trace[n]|, 0) ensures p[0] in Listing([t]) <==> t.mac == p[|p| - 1] {
      BranchIsNextHop(trace[n], c, t, p[0]);
    }
  }

  // ---------------------------------------------------------------------------------------------------
  // Nodes that report the route they have
  // ---------------------------------------------------------------------------------------------------

  /** Central's own transmission goes to the next hop, with the full hop limit. */
  ghost function SendFromCentral(net: Discovery.Network, c: MacAddress, nextHop: MacAddress, m: MacAddress): Trip {
    Travel(SmartNextHop(net, m), nextHop, c, m, DEFAULT_HOP_LIMIT)
  }

  /** Every Node on the way from m to Central last reported the upstream it has. */
  ghost predicate UpToDate(net: Discovery.Network, events: seq<RegistryEvent>, n: nat, p: seq<MacAddress>)
    requires n <= |events| && Discovery.Follows(net, p)
  {
    forall i | 0 <= i < |p| - 1 :: NeverLocal(events, p[i]) && LastReported(events, n, p[i], p[i + 1])
  }

  /**
   * End to end, over any run of the discovery and any run of the registry: if the Nodes between m and Central last
   * reported the upstreams they have, Central's next hop towards m is the Node on that way that hangs under Central,
   * and a message sent there reaches m with at most one forward.
   */
  lemma CentralReaches(macs: set<MacAddress>, net: seq<Discovery.Event>, c: MacAddress, m: MacAddress,
                       trace: seq<seq<PlanningNode>>, events: seq<RegistryEvent>, n: nat, p: seq<MacAddress>)
    requires |macs| < 0x1_0000 && forall e <- net | e.SetCentral? :: e.node == c
    requires Discovery.Follows(Discovery.Run(macs, net), p) && |p| > 1 && p[0] == m && p[|p| - 1] == c
    requires RegistryRun(trace, events) && n <= |events| && UpToDate(Discovery.Run(macs, net), events, n, p)
    ensures ReportedLine(events, n, c, p[..|p| - 1]) && RoutePath(trace[n], c, p[..|p| - 1])
    ensures SendFromCentral(Discovery.Run(macs, net), c, p[|p| - 2], m) == Delivered(if |p| == 2 then 0 else 1)
  {
    var q := p[..|p| - 1];
    Discovery.NoRoutingLoop(macs, net, p);
    LineIsRoute(trace, events, n, c, q);
    if |p| > 2 {
      assert Discovery.Run(macs, net).nodes[p[|p| - 2]].upstream == Some(p[|p| - 2 + 1]);
      DownIsOneForward(Discovery.Run(macs, net), p[|p| - 2], c, m, DEFAULT_HOP_LIMIT);
    }
  }
}
