/** The route state one Node keeps and updates under its discovery lock, refining the steps of Discovery. */
module EspNowNode {
  import opened Common
  import opened Discovery

  /** A Node that attached itself directly below this one. */
  datatype DownstreamNode = DownstreamNode(name: string, mac: MacAddress, rssi: int, hop: Word)

  function DownstreamMac(d: DownstreamNode): MacAddress { d.mac }

  /** A known Node's entry is renewed in place, another one's is appended. */
  function WithDownstream(nodes: seq<DownstreamNode>, d: DownstreamNode): seq<DownstreamNode> {
    var k := IndexBy(DownstreamMac, nodes, d.mac);
    if k < |nodes| then nodes[k := d] else nodes + [d]
  }

  ghost predicate DistinctDownstream(nodes: seq<DownstreamNode>) {
    forall i, j | 0 <= i < j < |nodes| :: nodes[i].mac != nodes[j].mac
  }

  lemma WithDownstreamKeepsDistinct(nodes: seq<DownstreamNode>, d: DownstreamNode)
    requires DistinctDownstream(nodes)
    ensures DistinctDownstream(WithDownstream(nodes, d)) && d in WithDownstream(nodes, d)
    ensures forall x: DownstreamNode | x.mac != d.mac :: x in WithDownstream(nodes, d) <==> x in nodes
  {
    var k, out := IndexBy(DownstreamMac, nodes, d.mac), WithDownstream(nodes, d);
    assert out[k] == d && forall i | 0 <= i < |nodes| && i != k :: out[i] == nodes[i];
    forall x: DownstreamNode | x.mac != d.mac && x in nodes ensures x in out {
      var i :| 0 <= i < |nodes| && nodes[i] == x;
      assert out[i] == x;
    }
  }

  /** What a Node says when it attaches itself. */
  datatype Handshake = Handshake(name: string, hop: Word, central: MacAddress)

  function Attached(origin: MacAddress, h: Handshake, rssi: int): DownstreamNode {
    DownstreamNode(if h.name == "" then "Unnamed" else h.name, origin, rssi, h.hop)
  }

  const BROADCAST_MAC := MacAddress(0xFF, 0xFF, 0xFF, 0xFF, 0xFF, 0xFF)

  /** How a handshake travelled: whom it was meant for, who wrote it and who sent this copy. */
  datatype Envelope = Envelope(destination: MacAddress, origin: MacAddress, sender: MacAddress)

  predicate MeantFor(local: MacAddress, e: Envelope) { e.destination == local || e.destination == BROADCAST_MAC }

  /** Only the Node itself may attach, to this Node, one hop below, in the same tree. */
  predicate Attachable(local: MacAddress, n: NodeState, e: Envelope, h: Handshake) {
    && MeantFor(local, e) && e.sender == e.origin && Routed(n)
    && h.hop == (n.hop + 1) % 0x1_0000 && h.central == n.central.value
  }

  lemma UpstreamIsCloser(net: Network, c: MacAddress, a: MacAddress, b: MacAddress)
    requires Inv(net) && Agreed(net, c) && b in net.nodes && net.nodes[b].upstream == Some(a)
    ensures a in net.nodes && Routed(net.nodes[a]) && net.nodes[a].hop < net.nodes[b].hop
    ensures net.nodes[a].central == net.nodes[b].central == Some(c)
  {
    assert SoundRoute(net, b);
  }

  lemma TakenBelow(net: Network, c: MacAddress, a: MacAddress, b: MacAddress, e: Envelope, name: string)
    requires Inv(net) && Agreed(net, c) && b in net.nodes && net.nodes[b].upstream == Some(a) && e.origin == b
    ensures a in net.nodes && net.nodes[b].central.Some?
    ensures Attachable(a, net.nodes[a], e, Handshake(name, net.nodes[b].hop, net.nodes[b].central.value)) <==>
            && e.sender == b && (e.destination == a || e.destination == MacAddress(255, 255, 255, 255, 255, 255))
            && net.nodes[b].hop as int == net.nodes[a].hop + 1
  {
    UpstreamIsCloser(net, c, a, b);
  }

  /**
   * A Node that hangs under this one is taken exactly when it says so itself, to this Node or to all, and this Node has
   * not come closer to Central since it answered.
   */
  lemma TakenWhileCurrent(macs: set<MacAddress>, events: seq<Event>, c: MacAddress, a: MacAddress, b: MacAddress,
                          e: Envelope, name: string)
    requires |macs| < 0x1_0000 && forall x <- events | x.SetCentral? :: x.node == c
    requires b in Run(macs, events).nodes && Run(macs, events).nodes[b].upstream == Some(a) && e.origin == b
    ensures var net := Run(macs, events);
            && a in net.nodes && net.nodes[b].central.Some?
            && (Attachable(a, net.nodes[a], e, Handshake(name, net.nodes[b].hop, net.nodes[b].central.value)) <==>
                 && e.sender == b && (e.destination == a || e.destination == MacAddress(255, 255, 255, 255, 255, 255))
                 && net.nodes[b].hop as int == net.nodes[a].hop + 1)
  {
    RunKeepsInv(macs, events);
    RunAgrees(macs, events, c);
    TakenBelow(Run(macs, events), c, a, b, e, name);
  }

  /** After that it is listed once, as it described itself. */
  lemma TakenIsListed(nodes: seq<DownstreamNode>, origin: MacAddress, h: Handshake, rssi: int, x: DownstreamNode)
    requires DistinctDownstream(nodes)
    ensures x in WithDownstream(nodes, Attached(origin, h, rssi)) && x.mac == origin ==>
              x.rssi == rssi && x.hop == h.hop && x.name != "" && (h.name != "" ==> x.name == h.name)
    ensures exists d :: d in WithDownstream(nodes, Attached(origin, h, rssi)) && d.mac == origin
  {
    var d := Attached(origin, h, rssi);
    var out := WithDownstream(nodes, d);
    WithDownstreamKeepsDistinct(nodes, d);
    if x in out && x.mac == origin {
      var i :| 0 <= i < |out| && out[i] == x;
      var j :| 0 <= j < |out| && out[j] == d;
      assert i == j;
    }
  }

  method RegisterOrUpdateDownstream(nodes: seq<DownstreamNode>, d: DownstreamNode)
    returns (out: seq<DownstreamNode>, isNew: bool)
    ensures out == WithDownstream(nodes, d)
    ensures isNew <==> |out| > |nodes|
  {
    for i := 0 to |nodes|
      invariant forall k | 0 <= k < i :: DownstreamMac(nodes[k]) != d.mac
    {
      if nodes[i].mac == d.mac {
        return nodes[i := d], false;
      }
    }
    return nodes + [d], true;
  }

  class EspNowCommunication {
    const local: MacAddress

    var initialized: bool
    var centralNode: bool
    var upstreamSelected: bool
    var upstreamMac: MacAddress
    var upstreamRssi: int
    var centralMacKnown: bool
    var centralMac: MacAddress
    var hopCount: Word

    var discoveryInProgress: bool
    var activeDiscoveryId: nat
    var candidateFound: bool
    var bestMac: MacAddress
    var bestRssi: int
    var bestHop: Word
    var bestCentral: MacAddress

    var directDownstreamNodes: seq<DownstreamNode>

    // What the discovery routine carries from its closed window to the route it writes next.
    var selected: Option<Candidate>

    function State(): NodeState
      reads this
    {
      NodeState(
        centralNode,
        if upstreamSelected then Some(upstreamMac) else None,
        upstreamRssi,
        if centralMacKnown then Some(centralMac) else None,
        hopCount,
        if selected.Some? then Committing(selected.value)
        else if discoveryInProgress then
          Listening(activeDiscoveryId,
                    if candidateFound then Some(Candidate(bestMac, bestRssi, bestHop, bestCentral)) else None)
        else Idle)
    }

    /** A closed window no longer collects answers, and each downstream Node is listed once. */
    ghost predicate Valid()
      reads this
    {
      (selected.Some? ==> !discoveryInProgress) && DistinctDownstream(directDownstreamNodes)
    }

    constructor (mac: MacAddress)
      ensures Valid() && State() == BOOT && local == mac && !initialized && directDownstreamNodes == []
    {
      local, initialized, directDownstreamNodes := mac, false, [];
      centralNode, upstreamSelected, upstreamMac, upstreamRssi := false, false, ZERO_MAC, -128;
      centralMacKnown, centralMac, hopCount := false, ZERO_MAC, UNKNOWN_HOP;
      discoveryInProgress, activeDiscoveryId, candidateFound := false, 0, false;
      bestMac, bestRssi, bestHop, bestCentral := ZERO_MAC, -128, UNKNOWN_HOP, ZERO_MAC;
      selected := None;
    }

    method SetAsCentralNode() returns (done: bool)
      requires Valid()
      modifies this
      ensures Valid() && done == initialized == old(initialized)
      ensures State() == if done then BecomeCentral(local, old(State())) else old(State())
      ensures directDownstreamNodes == if done then [] else old(directDownstreamNodes)
    {
      if !initialized {
        return false;
      }
      centralNode := true;
      upstreamSelected := false;
      upstreamMac := ZERO_MAC;
      centralMac := local;
      centralMacKnown := true;
      hopCount := 0;
      directDownstreamNodes := [];
      return true;
    }

    /** First locked section of the discovery routine, and the broadcast that follows it. */
    method BeginDiscovery(window: nat, randomId: nat, broadcast: bool) returns (listening: bool)
      requires Valid() && State().phase.Idle?
      modifies this
      ensures Valid() && directDownstreamNodes == old(directDownstreamNodes) && initialized == old(initialized)
      ensures listening <==> initialized && !old(centralNode) && window != 0 && broadcast
      ensures State() == if listening then StartDiscovery(old(State()), randomId) else old(State())
    {
      if !initialized || centralNode || window == 0 {
        return false;
      }
      discoveryInProgress := true;
      activeDiscoveryId := randomId;
      if activeDiscoveryId == 0 {
        activeDiscoveryId := 1;
      }
      candidateFound := false;
      bestMac := ZERO_MAC;
      bestRssi := -128;
      bestHop := UNKNOWN_HOP;
      bestCentral := ZERO_MAC;
      if !broadcast {
        discoveryInProgress := false;
        return false;
      }
      return true;
    }

    /** A Node attaches itself; its peer may or may not be added, which changes nothing here. */
    method ProcessConnectionHandshake(e: Envelope, h: Handshake, rssi: int) returns (isNew: bool)
      requires Valid()
      modifies this`directDownstreamNodes
      ensures Valid() && State() == old(State())
      ensures directDownstreamNodes ==
              if Attachable(local, State(), e, h)
              then WithDownstream(old(directDownstreamNodes), Attached(e.origin, h, rssi))
              else old(directDownstreamNodes)
      ensures isNew <==> |directDownstreamNodes| > |old(directDownstreamNodes)|
    {
      if !MeantFor(local, e) || e.sender != e.origin {
        return false;
      }
      var routeAvailable := centralMacKnown && hopCount != UNKNOWN_HOP;
      if !routeAvailable {
        return false;
      }
      if h.hop != (hopCount + 1) % 0x1_0000 || h.central != centralMac {
        return false;
      }
      WithDownstreamKeepsDistinct(directDownstreamNodes, Attached(e.origin, h, rssi));
      directDownstreamNodes, isNew := RegisterOrUpdateDownstream(directDownstreamNodes, Attached(e.origin, h, rssi));
    }

    method ProcessDiscoveryRequest(origin: MacAddress, id: nat) returns (response: Option<Response>)
      ensures response == Answer(local, State(), origin, id)
    {
      var routeAvailable := centralMacKnown && hopCount != UNKNOWN_HOP;
      if !routeAvailable {
        return None;
      }
      if origin == local {
        return None;
      }
      return Some(Response(local, origin, id, hopCount, centralMac));
    }

    method ProcessDiscoveryResponse(response: Response, rssi: int)
      requires Valid()
      modifies this
      ensures Valid() && State() == Hear(local, old(State()), response, rssi)
      ensures directDownstreamNodes == old(directDownstreamNodes) && initialized == old(initialized)
    {
      if response.destination != local {
        return;
      }
      if !(discoveryInProgress && response.id == activeDiscoveryId) {
        return;
      }
      if response.hop == UNKNOWN_HOP {
        return;
      }
      if hopCount != UNKNOWN_HOP && response.hop >= hopCount {
        return;
      }
      var shorterRoute := !candidateFound || response.hop < bestHop;
      var strongerSignal := candidateFound && response.hop == bestHop && rssi > bestRssi;
      if shorterRoute || strongerSignal {
        candidateFound := true;
        bestMac := response.origin;
        bestRssi := rssi;
        bestHop := response.hop;
        bestCentral := response.central;
      }
    }

    /** Second locked section: the window closes, and the peer is added outside the lock. */
    method CloseDiscoveryWindow(peerAdded: bool)
      requires Valid() && State().phase.Listening?
      modifies this
      ensures Valid() && State() == CloseWindow(old(State()), peerAdded)
      ensures directDownstreamNodes == old(directDownstreamNodes) && initialized == old(initialized)
    {
      discoveryInProgress := false;
      if !candidateFound {
        return;
      }
      if !peerAdded {
        return;
      }
      selected := Some(Candidate(bestMac, bestRssi, bestHop, bestCentral));
    }

    /** Third locked section: the chosen route is written. */
    method ApplyRoute()
      requires Valid()
      modifies this
      ensures Valid() && State() == Commit(old(State()))
      ensures directDownstreamNodes == old(directDownstreamNodes) && initialized == old(initialized)
    {
      match selected
      case None =>
      case Some(c) =>
        upstreamMac := c.mac;
        upstreamRssi := c.rssi;
        upstreamSelected := true;
        centralMac := c.central;
        centralMacKnown := true;
        hopCount := (c.hop + 1) % 0x1_0000;
        selected := None;
    }
  }
}
