/**
 * Tree discovery over the radio. A Node broadcasts a request, every routed Node may answer with its own
 * hop count, and the requester adopts the answer with the lowest hop count. Answers may be lost, repeated,
 * reordered or arrive long after the answering Node moved, so the network below never forgets one.
 */
module Discovery {
  import opened Common

  const UNKNOWN_HOP: Word := 0xFFFF

  /** The answer kept as best so far during one discovery window. */
  datatype Candidate = Candidate(mac: MacAddress, rssi: int, hop: Word, central: MacAddress)

  /** Where one run of the discovery routine stands. */
  datatype Phase =
    | Idle
    | Listening(id: nat, best: Option<Candidate>)
    | Committing(chosen: Candidate)  // the window is closed, the route not yet written

  /** The routing fields of one Node. */
  datatype NodeState = NodeState(
    isCentral: bool,
    upstream: Option<MacAddress>,
    upstreamRssi: int,
    central: Option<MacAddress>,
    hop: Word,
    phase: Phase)

  const BOOT := NodeState(false, None, -128, None, UNKNOWN_HOP, Idle)

  predicate Routed(n: NodeState) {
    n.central.Some? && n.hop != UNKNOWN_HOP
  }

  /** A discovery answer as it travels: who sent it, to whom, and what it promised at that time. */
  datatype Response = Response(origin: MacAddress, destination: MacAddress, id: nat, hop: Word, central: MacAddress)

  // ---------------------------------------------------------------------------------------------------
  // One Node
  // ---------------------------------------------------------------------------------------------------

  function BecomeCentral(self: MacAddress, n: NodeState): NodeState {
    n.(isCentral := true, upstream := None, central := Some(self), hop := 0)
  }

  function StartDiscovery(n: NodeState, id: nat): NodeState {
    if n.isCentral then n else n.(phase := Listening(if id == 0 then 1 else id, None))
  }

  function Answer(self: MacAddress, n: NodeState, origin: MacAddress, id: nat): Option<Response> {
    if !Routed(n) || origin == self then None
    else Some(Response(self, origin, id, n.hop, n.central.value))
  }

  predicate Eligible(self: MacAddress, n: NodeState, r: Response) {
    && r.destination == self
    && n.phase.Listening? && r.id == n.phase.id
    && r.hop != UNKNOWN_HOP
    && !(n.hop != UNKNOWN_HOP && r.hop >= n.hop)
  }

  predicate Preferred(best: Option<Candidate>, r: Response, rssi: int) {
    || best.None?
    || r.hop < best.value.hop
    || (r.hop == best.value.hop && rssi > best.value.rssi)
  }

  function Hear(self: MacAddress, n: NodeState, r: Response, rssi: int): NodeState {
    if Eligible(self, n, r) && Preferred(n.phase.best, r, rssi)
    then n.(phase := n.phase.(best := Some(Candidate(r.origin, rssi, r.hop, r.central))))
    else n
  }

  /** The window ends; without a candidate, or when the peer cannot be added, the route stays as it was. */
  function CloseWindow(n: NodeState, peerAdded: bool): NodeState {
    if !n.phase.Listening? then n
    else if n.phase.best.None? || !peerAdded then n.(phase := Idle)
    else n.(phase := Committing(n.phase.best.value))
  }

  /** The sixteen-bit addition wraps, as in the firmware. */
  function Commit(n: NodeState): NodeState {
    if !n.phase.Committing? then n
    else
      var c := n.phase.chosen;
      n.(upstream := Some(c.mac), upstreamRssi := c.rssi, central := Some(c.central),
         hop := (c.hop + 1) % 0x1_0000, phase := Idle)
  }

  // ---------------------------------------------------------------------------------------------------
  // The network
  // ---------------------------------------------------------------------------------------------------

  /** Every Node, and every answer ever sent: any of them can still be delivered, any number of times. */
  datatype Network = Network(nodes: map<MacAddress, NodeState>, sent: set<Response>)

  datatype Event =
    | SetCentral(node: MacAddress)
    | Start(node: MacAddress, id: nat)
    | AnswerRequest(node: MacAddress, origin: MacAddress, id: nat)  // any Node may answer any request
    | Deliver(node: MacAddress, response: Response, rssi: int)
    | EndWindow(node: MacAddress, peerAdded: bool)
    | CommitRoute(node: MacAddress)

  ghost predicate Enabled(net: Network, e: Event) {
    && e.node in net.nodes
    && match e
       case SetCentral(m) => net.nodes[m] == BOOT  // called once, right after initialization
       case Start(m, _) => net.nodes[m].phase.Idle?  // one task runs the routine
       case Deliver(_, r, _) => r in net.sent
       case _ => true
  }

  ghost function Step(net: Network, e: Event): Network
    requires Enabled(net, e)
  {
    var n := net.nodes[e.node];
    match e
    case SetCentral(m) => net.(nodes := net.nodes[m := BecomeCentral(m, n)])
    case Start(m, id) => net.(nodes := net.nodes[m := StartDiscovery(n, id)])
    case AnswerRequest(m, origin, id) =>
      var a := Answer(m, n, origin, id);
      if a.Some? then net.(sent := net.sent + {a.value}) else net
    case Deliver(m, r, rssi) => net.(nodes := net.nodes[m := Hear(m, n, r, rssi)])
    case EndWindow(m, ok) => net.(nodes := net.nodes[m := CloseWindow(n, ok)])
    case CommitRoute(m) => net.(nodes := net.nodes[m := Commit(n)])
  }

  ghost function Boot(macs: set<MacAddress>): Network {
    Network(map m | m in macs :: BOOT, {})
  }

  /** The network after a boot epoch's events; an event that is not enabled did not happen. */
  ghost function Run(macs: set<MacAddress>, events: seq<Event>): Network {
    if events == [] then Boot(macs)
    else
      var before := Run(macs, events[..|events| - 1]);
      var e := events[|events| - 1];
      if Enabled(before, e) then Step(before, e) else before
  }

  // ---------------------------------------------------------------------------------------------------
  // What every reachable network keeps
  // ---------------------------------------------------------------------------------------------------

  ghost function RoutedNodes(net: Network): set<MacAddress> {
    set m | m in net.nodes && Routed(net.nodes[m])
  }

  /**
   * An offered hop count is still an upper bound for the offering Node, and smaller than the number of routed Nodes.
   */
  ghost predicate SoundOffer(net: Network, origin: MacAddress, hop: Word) {
    && origin in net.nodes && Routed(net.nodes[origin])
    && net.nodes[origin].hop <= hop < |RoutedNodes(net)|
  }

  ghost predicate SoundCandidate(net: Network, m: MacAddress, c: Candidate)
    requires m in net.nodes
  {
    && SoundOffer(net, c.mac, c.hop)
    && c.hop < net.nodes[m].hop
    && !net.nodes[m].isCentral
  }

  /** The upstream of a routed Node is routed and strictly closer to Central, by current hop counts. */
  ghost predicate SoundRoute(net: Network, m: MacAddress)
    requires m in net.nodes
  {
    var n := net.nodes[m];
    && (n.hop == UNKNOWN_HOP <==> !Routed(n))
    && (n.isCentral ==> n.hop == 0 && n.upstream.None? && n.central == Some(m))
    && (!Routed(n) ==> n.upstream.None? && !n.isCentral)
    && (Routed(n) ==> n.hop < |RoutedNodes(net)|)
    && (Routed(n) && !n.isCentral ==>
          && n.upstream.Some?
          && n.upstream.value in net.nodes
          && Routed(net.nodes[n.upstream.value])
          && net.nodes[n.upstream.value].hop < n.hop)
  }

  ghost predicate SoundPhase(net: Network, m: MacAddress)
    requires m in net.nodes
  {
    match net.nodes[m].phase
    case Idle => true
    case Listening(_, best) => !net.nodes[m].isCentral && (best.Some? ==> SoundCandidate(net, m, best.value))
    case Committing(c) => SoundCandidate(net, m, c)
  }

  ghost predicate Inv(net: Network) {
    && |net.nodes| < 0x1_0000
    && (forall m <- net.nodes :: SoundRoute(net, m) && SoundPhase(net, m))
    && (forall r <- net.sent :: SoundOffer(net, r.origin, r.hop))
  }

  /** What one step may do to other Nodes: routes appear and hop counts fall, never the reverse. */
  ghost predicate Improves(before: Network, after: Network) {
    && before.nodes.Keys == after.nodes.Keys
    && forall m <- before.nodes | Routed(before.nodes[m]) ::
         Routed(after.nodes[m]) && after.nodes[m].hop <= before.nodes[m].hop
  }

  lemma RoutedNodesBound(net: Network)
    ensures |RoutedNodes(net)| <= |net.nodes|
  {
    SubsetCardinality(RoutedNodes(net), net.nodes.Keys);
  }

  lemma SubsetCardinality<T>(a: set<T>, b: set<T>)
    requires a <= b
    ensures |a| <= |b|
  {
    assert b == a + (b - a);
  }

  lemma ImprovesKeepsOffers(before: Network, after: Network)
    requires Improves(before, after)
    ensures |RoutedNodes(before)| <= |RoutedNodes(after)|
    ensures forall o, h: Word {:trigger SoundOffer(after, o, h)} ::
              SoundOffer(before, o, h) ==> SoundOffer(after, o, h)
  {
    SubsetCardinality(RoutedNodes(before), RoutedNodes(after));
  }

  /**
   * Rewriting one Node so that its own route and window are sound, and no worse than before, keeps the invariant
   * everywhere.
   */
  lemma UpdateKeepsInv(net: Network, m: MacAddress, n: NodeState)
    requires Inv(net) && m in net.nodes
    requires Routed(net.nodes[m]) ==> Routed(n) && n.hop <= net.nodes[m].hop
    requires var after := net.(nodes := net.nodes[m := n]); SoundRoute(after, m) && SoundPhase(after, m)
    ensures var after := net.(nodes := net.nodes[m := n]); Improves(net, after) && Inv(after)
  {
    var after := net.(nodes := net.nodes[m := n]);
    assert after.nodes.Keys == net.nodes.Keys;
    assert |after.nodes| == |after.nodes.Keys| && |net.nodes| == |net.nodes.Keys|;
    ImprovesKeepsOffers(net, after);
    forall x <- after.nodes ensures SoundRoute(after, x) && SoundPhase(after, x) {
      if x != m { assert SoundRoute(net, x) && SoundPhase(net, x); }
    }
  }

  /** A Node's own hop count rises only when it was unknown, and then the routed set grows too. */
  lemma RoutedNodesAfter(net: Network, m: MacAddress, n: NodeState)
    requires m in net.nodes && Routed(n)
    ensures var after := RoutedNodes(net.(nodes := net.nodes[m := n]));
            && after == RoutedNodes(net) + {m}
            && |after| == |RoutedNodes(net)| + (if Routed(net.nodes[m]) then 0 else 1)
            && |after| <= |net.nodes|
  {
    var after := net.(nodes := net.nodes[m := n]);
    assert RoutedNodes(after) == RoutedNodes(net) + {m};
    assert m in RoutedNodes(net) <==> Routed(net.nodes[m]);
    if Routed(net.nodes[m]) { assert RoutedNodes(net) + {m} == RoutedNodes(net); }
    assert after.nodes.Keys == net.nodes.Keys;
    RoutedNodesBound(after);
    assert |after.nodes| == |after.nodes.Keys| == |net.nodes.Keys| == |net.nodes|;
  }

  /** The adopted hop count neither wraps nor collides with UNKNOWN. */
  lemma CommitKeepsInv(net: Network, m: MacAddress)
    requires Inv(net) && m in net.nodes && net.nodes[m].phase.Committing?
    ensures Improves(net, Step(net, CommitRoute(m))) && Inv(Step(net, CommitRoute(m)))
    ensures Commit(net.nodes[m]).hop == net.nodes[m].phase.chosen.hop + 1 != UNKNOWN_HOP
  {
    var n := Commit(net.nodes[m]);
    var after := net.(nodes := net.nodes[m := n]);
    CommittedHop(net, m);
    RoutedNodesAfter(net, m, n);
    CommittedRouteIsSound(net, m, after);
    UpdateKeepsInv(net, m, n);
  }

  lemma CommittedRouteIsSound(net: Network, m: MacAddress, after: Network)
    requires Inv(net) && m in net.nodes && net.nodes[m].phase.Committing?
    requires after == net.(nodes := net.nodes[m := Commit(net.nodes[m])])
    requires Commit(net.nodes[m]).hop == net.nodes[m].phase.chosen.hop + 1 != UNKNOWN_HOP
    requires |RoutedNodes(after)| == |RoutedNodes(net)| + (if Routed(net.nodes[m]) then 0 else 1)
    ensures SoundRoute(after, m) && SoundPhase(after, m)
  {
    var c := net.nodes[m].phase.chosen;
    assert SoundRoute(net, m) && SoundPhase(net, m);
    assert after.nodes[c.mac] == net.nodes[c.mac] by { assert c.mac != m; }
  }

  lemma CommittedHop(net: Network, m: MacAddress)
    requires Inv(net) && m in net.nodes && net.nodes[m].phase.Committing?
    ensures Commit(net.nodes[m]).hop == net.nodes[m].phase.chosen.hop + 1 != UNKNOWN_HOP
  {
    assert SoundRoute(net, m) && SoundPhase(net, m);
    RoutedNodesBound(net);
    if !Routed(net.nodes[m]) {
      assert RoutedNodes(net) <= net.nodes.Keys - {m};
      SubsetCardinality(RoutedNodes(net), net.nodes.Keys - {m});
    }
  }

  lemma BecomeCentralKeepsInv(net: Network, m: MacAddress)
    requires Inv(net) && Enabled(net, SetCentral(m))
    ensures Improves(net, Step(net, SetCentral(m))) && Inv(Step(net, SetCentral(m)))
  {
    var n := BecomeCentral(m, net.nodes[m]);
    RoutedNodesAfter(net, m, n);
    assert SoundRoute(net.(nodes := net.nodes[m := n]), m);
    UpdateKeepsInv(net, m, n);
  }

  /** Starting, hearing and closing change only the window of one Node. */
  lemma WindowStepKeepsInv(net: Network, m: MacAddress, n: NodeState)
    requires Inv(net) && m in net.nodes
    requires n == net.nodes[m].(phase := n.phase)
    requires match n.phase
             case Idle => true
             case Listening(_, best) => !n.isCentral && (best.Some? ==> SoundCandidate(net, m, best.value))
             case Committing(c) => SoundCandidate(net, m, c)
    ensures var after := net.(nodes := net.nodes[m := n]); Improves(net, after) && Inv(after)
  {
    var after := net.(nodes := net.nodes[m := n]);
    assert SoundRoute(net, m);
    assert RoutedNodes(after) == RoutedNodes(net);
    assert SoundRoute(after, m) && SoundPhase(after, m);
    UpdateKeepsInv(net, m, n);
  }

  /** A new answer in flight offers what its sender has. */
  lemma AnswerKeepsInv(net: Network, r: Response)
    requires Inv(net) && SoundOffer(net, r.origin, r.hop)
    ensures var after := net.(sent := net.sent + {r}); Improves(net, after) && Inv(after)
  {
    var after := net.(sent := net.sent + {r});
    assert RoutedNodes(after) == RoutedNodes(net);
    forall x <- after.nodes ensures SoundRoute(after, x) && SoundPhase(after, x) {
      assert SoundRoute(net, x) && SoundPhase(net, x);
    }
    forall a <- after.sent ensures SoundOffer(after, a.origin, a.hop) {
      assert SoundOffer(net, a.origin, a.hop);
    }
  }

  lemma StepKeepsInv(net: Network, e: Event)
    requires Inv(net) && Enabled(net, e)
    ensures Improves(net, Step(net, e)) && Inv(Step(net, e))
  {
    var n := net.nodes[e.node];
    assert SoundRoute(net, e.node) && SoundPhase(net, e.node);
    match e
    case SetCentral(m) => BecomeCentralKeepsInv(net, m);
    case Start(m, id) => WindowStepKeepsInv(net, m, StartDiscovery(n, id));
    case AnswerRequest(m, origin, id) =>
      var a := Answer(m, n, origin, id);
      if a.Some? { AnswerKeepsInv(net, a.value); }
    case Deliver(m, r, rssi) => WindowStepKeepsInv(net, m, Hear(m, n, r, rssi));
    case EndWindow(m, ok) => WindowStepKeepsInv(net, m, CloseWindow(n, ok));
    case CommitRoute(m) =>
      if n.phase.Committing? { CommitKeepsInv(net, m); } else { assert Step(net, e).nodes == net.nodes; }
  }

  /** Safety over every run: whatever old answers are still in flight, the invariant holds. */
  lemma {:induction false} RunKeepsInv(macs: set<MacAddress>, events: seq<Event>)
    requires |macs| < 0x1_0000
    ensures Inv(Run(macs, events)) && Run(macs, events).nodes.Keys == macs
  {
    if events == [] {
      assert Boot(macs).nodes.Keys == macs;
    } else {
      var before := Run(macs, events[..|events| - 1]);
      var e := events[|events| - 1];
      RunKeepsInv(macs, events[..|events| - 1]);
      if Enabled(before, e) { StepKeepsInv(before, e); }
    }
  }

  // ---------------------------------------------------------------------------------------------------
  // The tree
  // ---------------------------------------------------------------------------------------------------

  /** p follows upstream pointers from one Node to the next. */
  ghost predicate Follows(net: Network, p: seq<MacAddress>) {
    && p != []
    && (forall i | 0 <= i < |p| :: p[i] in net.nodes && Routed(net.nodes[p[i]]))
    && (forall i | 0 <= i < |p| - 1 :: net.nodes[p[i]].upstream == Some(p[i + 1]))
  }

  lemma {:induction false} HopsFall(net: Network, p: seq<MacAddress>, i: nat, j: nat)
    requires Inv(net) && Follows(net, p) && i < j < |p|
    ensures net.nodes[p[j]].hop < net.nodes[p[i]].hop
  {
    assert SoundRoute(net, p[j - 1]);
    if i < j - 1 { HopsFall(net, p, i, j - 1); }
  }

  /** Loop freedom: in every reachable network, no walk along upstream pointers meets a Node twice. */
  lemma NoRoutingLoop(macs: set<MacAddress>, events: seq<Event>, p: seq<MacAddress>)
    requires |macs| < 0x1_0000
    requires Follows(Run(macs, events), p)
    ensures forall i, j | 0 <= i < j < |p| :: p[i] != p[j]
  {
    RunKeepsInv(macs, events);
    forall i, j | 0 <= i < j < |p| ensures p[i] != p[j] {
      HopsFall(Run(macs, events), p, i, j);
    }
  }

  /** The walk from a routed Node to its Central. */
  ghost function ChainToCentral(net: Network, m: MacAddress): (p: seq<MacAddress>)
    requires Inv(net) && m in net.nodes && Routed(net.nodes[m])
    ensures Follows(net, p) && p[0] == m
    ensures net.nodes[p[|p| - 1]].isCentral
    ensures |p| <= net.nodes[m].hop + 1
    decreases net.nodes[m].hop
  {
    assert SoundRoute(net, m);
    var n := net.nodes[m];
    if n.isCentral then [m]
    else
      var rest := ChainToCentral(net, n.upstream.value);
      assert forall i | 0 < i < |rest| :: ([m] + rest)[i] == rest[i - 1];
      [m] + rest
  }

  /** With one Central c, everything that names a Central names c. */
  ghost predicate Agreed(net: Network, c: MacAddress) {
    && (forall m <- net.nodes ::
          var n := net.nodes[m];
          && (n.isCentral ==> m == c)
          && (n.central.Some? ==> n.central.value == c)
          && match n.phase
             case Idle => true
             case Listening(_, best) => best.Some? ==> best.value.central == c
             case Committing(k) => k.central == c)
    && (forall r <- net.sent :: r.central == c)
  }

  lemma {:induction false} RunAgrees(macs: set<MacAddress>, events: seq<Event>, c: MacAddress)
    requires forall e <- events | e.SetCentral? :: e.node == c
    ensures Agreed(Run(macs, events), c)
  {
    if events != [] {
      var before := Run(macs, events[..|events| - 1]);
      var e := events[|events| - 1];
      RunAgrees(macs, events[..|events| - 1], c);
      if Enabled(before, e) {
        var after := Step(before, e);
        assert after.nodes.Keys == before.nodes.Keys;
        forall m <- after.nodes | m != e.node ensures after.nodes[m] == before.nodes[m] {}
      }
    }
  }

  /** Every routed Node hangs, within as many links as its hop count says, under the one Central it names. */
  lemma EveryChainEndsAtCentral(macs: set<MacAddress>, events: seq<Event>, c: MacAddress, m: MacAddress)
    returns (p: seq<MacAddress>)
    requires |macs| < 0x1_0000
    requires forall e <- events | e.SetCentral? :: e.node == c
    requires m in macs
    requires m in Run(macs, events).nodes && Routed(Run(macs, events).nodes[m])
    ensures var net := Run(macs, events);
            && Follows(net, p) && p[0] == m && p[|p| - 1] == c && net.nodes[c].isCentral
            && |p| <= net.nodes[m].hop + 1
            && forall x <- p :: net.nodes[x].central == Some(c)
  {
    RunKeepsInv(macs, events);
    RunAgrees(macs, events, c);
    p := ChainToCentral(Run(macs, events), m);
  }

  /**
   * Sixteen-bit hop counts suffice: every hop count, also in stale answers, is below the number of routed Nodes, so
   * hop + 1 never wraps to 0 nor reads UNKNOWN.
   */
  lemma HopCountsNeverWrap(macs: set<MacAddress>, events: seq<Event>)
    requires |macs| < 0x1_0000
    ensures var net := Run(macs, events);
            && (forall m <- net.nodes | Routed(net.nodes[m]) :: net.nodes[m].hop < |RoutedNodes(net)|)
            && (forall r <- net.sent :: r.hop < |RoutedNodes(net)| <= 0xFFFF)
            && (forall m <- net.nodes | net.nodes[m].phase.Committing? ::
                  Commit(net.nodes[m]).hop == net.nodes[m].phase.chosen.hop + 1 != UNKNOWN_HOP)
  {
    RunKeepsInv(macs, events);
    var net := Run(macs, events);
    RoutedNodesBound(net);
    forall m <- net.nodes | net.nodes[m].phase.Committing?
      ensures Commit(net.nodes[m]).hop == net.nodes[m].phase.chosen.hop + 1 != UNKNOWN_HOP
    {
      CommittedHop(net, m);
    }
    assert forall m <- net.nodes :: SoundRoute(net, m);
  }

  // ---------------------------------------------------------------------------------------------------
  // One discovery window
  // ---------------------------------------------------------------------------------------------------

  datatype Heard = Heard(response: Response, rssi: int)

  function HearAll(self: MacAddress, n: NodeState, heard: seq<Heard>): NodeState {
    if heard == [] then n
    else
      var last := heard[|heard| - 1];
      Hear(self, HearAll(self, n, heard[..|heard| - 1]), last.response, last.rssi)
  }

  predicate Beats(a: Heard, b: Heard) {
    a.response.hop < b.response.hop || (a.response.hop == b.response.hop && a.rssi > b.rssi)
  }

  ghost predicate Chosen(self: MacAddress, n: NodeState, heard: seq<Heard>, i: nat)
    requires i < |heard|
  {
    && Eligible(self, n, heard[i].response)
    && (forall j | 0 <= j < i && Eligible(self, n, heard[j].response) :: Beats(heard[i], heard[j]))
    && (forall j | i < j < |heard| && Eligible(self, n, heard[j].response) :: !Beats(heard[j], heard[i]))
  }

  /**
   * A window adopts the eligible answer with the lowest hop count, then the strongest signal, then the earliest
   * arrival; and nothing exactly when no answer was eligible.
   */
  lemma {:induction false} WindowPicksBest(self: MacAddress, n: NodeState, heard: seq<Heard>)
    returns (i: nat)
    requires n.phase.Listening? && n.phase.best.None?
    ensures var after := HearAll(self, n, heard);
            && after == n.(phase := after.phase)
            && after.phase.Listening? && after.phase.id == n.phase.id
            && (after.phase.best.None? <==> forall j | 0 <= j < |heard| :: !Eligible(self, n, heard[j].response))
            && (after.phase.best.Some? ==>
                  && i < |heard| && Chosen(self, n, heard, i)
                  && var r := heard[i].response;
                     after.phase.best.value == Candidate(r.origin, heard[i].rssi, r.hop, r.central))
  {
    i := 0;
    if heard != [] {
      var init := heard[..|heard| - 1];
      var last := heard[|heard| - 1];
      var before := HearAll(self, n, init);
      i := WindowPicksBest(self, n, init);
      assert forall j | 0 <= j < |init| :: init[j] == heard[j];
      assert Eligible(self, before, last.response) <==> Eligible(self, n, last.response);
      if Eligible(self, n, last.response) && Preferred(before.phase.best, last.response, last.rssi) {
        if before.phase.best.Some? {
          assert Chosen(self, n, init, i);
          assert Beats(last, heard[i]);
        }
        i := |init|;
      }
    }
  }

  // ---------------------------------------------------------------------------------------------------
  // What a discovery achieves
  // ---------------------------------------------------------------------------------------------------

  lemma RunNext(macs: set<MacAddress>, events: seq<Event>, e: Event)
    ensures var before := Run(macs, events);
            Run(macs, events + [e]) == if Enabled(before, e) then Step(before, e) else before
  {
    assert (events + [e])[..|events|] == events;
  }

  /** The answers that reached b in a stretch of a run. */
  ghost function HeardIn(macs: set<MacAddress>, before: seq<Event>, later: seq<Event>, b: MacAddress): seq<Heard> {
    if later == [] then []
    else
      var init, e := later[..|later| - 1], later[|later| - 1];
      var heard := HeardIn(macs, before, init, b);
      if e.Deliver? && e.node == b && Enabled(Run(macs, before + init), e) then heard + [Heard(e.response, e.rssi)]
      else heard
  }

  /** While b's window is open, nothing but the answers that reach it changes b. */
  lemma {:induction false} ListeningHears(macs: set<MacAddress>, before: seq<Event>, later: seq<Event>, b: MacAddress)
    requires b in Run(macs, before).nodes && Run(macs, before).nodes[b].phase.Listening?
    requires Run(macs, before).nodes[b].phase.best.None?
    requires forall e <- later :: !(e.EndWindow? && e.node == b)
    ensures b in Run(macs, before + later).nodes
    ensures Run(macs, before + later).nodes[b] ==
            HearAll(b, Run(macs, before).nodes[b], HeardIn(macs, before, later, b))
  {
    if later == [] {
      assert before + later == before;
    } else {
      var init, e := later[..|later| - 1], later[|later| - 1];
      assert before + later == (before + init) + [e];
      ListeningHears(macs, before, init, b);
      RunNext(macs, before + init, e);
      var i := WindowPicksBest(b, Run(macs, before).nodes[b], HeardIn(macs, before, init, b));
      var heard := HeardIn(macs, before, init, b);
      if e.Deliver? && e.node == b { assert (heard + [Heard(e.response, e.rssi)])[..|heard|] == heard; }
    }
  }

  /** An answer b can use: addressed to it, for this window, from closer to Central than b is if it has a route. */
  ghost predicate Offers(b: MacAddress, n: NodeState, id: nat, r: Response) {
    r.destination == b && r.id == id && (Routed(n) ==> r.hop < n.hop)
  }

  /** The answer with the lowest hop count, then the strongest signal, then the earliest, of those b can use. */
  ghost predicate BestOffer(b: MacAddress, n: NodeState, id: nat, heard: seq<Heard>, i: nat) {
    && i < |heard| && Offers(b, n, id, heard[i].response)
    && forall j | 0 <= j < |heard| && Offers(b, n, id, heard[j].response) ::
         var x, y := heard[i], heard[j];
         || x.response.hop < y.response.hop
         || (x.response.hop == y.response.hop && (x.rssi > y.rssi || (x.rssi == y.rssi && i <= j)))
  }

  lemma {:induction false} HeardWasSound(macs: set<MacAddress>, before: seq<Event>, later: seq<Event>, b: MacAddress,
                                         i: nat)
    requires |macs| < 0x1_0000 && i < |HeardIn(macs, before, later, b)|
    ensures HeardIn(macs, before, later, b)[i].response.hop != UNKNOWN_HOP
  {
    var init := later[..|later| - 1];
    if i < |HeardIn(macs, before, init, b)| {
      HeardWasSound(macs, before, init, b, i);
    } else {
      RunKeepsInv(macs, before + init);
      RoutedNodesBound(Run(macs, before + init));
    }
  }

  /** The identifier a window is opened under. */
  function WindowId(id: nat): nat { if id == 0 then 1 else id }

  lemma ChosenIsBestOffer(b: MacAddress, n: NodeState, id: nat, heard: seq<Heard>, i: nat)
    requires !Routed(n) <==> n.hop == UNKNOWN_HOP
    requires forall j | 0 <= j < |heard| :: heard[j].response.hop != UNKNOWN_HOP
    requires var listening := n.(phase := Listening(id, None)); i < |heard| && Chosen(b, listening, heard, i)
    ensures BestOffer(b, n, id, heard, i)
  {
    var listening := n.(phase := Listening(id, None));
    forall j | 0 <= j < |heard| && Offers(b, n, id, heard[j].response)
      ensures heard[i].response.hop < heard[j].response.hop ||
              (heard[i].response.hop == heard[j].response.hop &&
               (heard[i].rssi > heard[j].rssi || (heard[i].rssi == heard[j].rssi && i <= j)))
    {
      assert Eligible(b, listening, heard[j].response);
    }
  }

  /** The Node hangs under the one whose answer it took, one hop further from Central, and is done. */
  ghost predicate Adopted(n: NodeState, h: Heard) {
    && n == NodeState(false, Some(h.response.origin), h.rssi, Some(h.response.central), n.hop, Idle)
    && n.hop as nat == h.response.hop + 1
  }

  /**
   * What a whole discovery of b achieves, whatever else happens in the network meanwhile: b adopts the best answer it
   * could use, one hop above the Node that gave it; without one, or when the peer cannot be added, b is as before.
   */
  lemma DiscoveryOutcome(macs: set<MacAddress>, before: seq<Event>, b: MacAddress, id: nat, later: seq<Event>,
                         peerAdded: bool)
    returns (i: nat)
    requires |macs| < 0x1_0000
    requires b in Run(macs, before).nodes && Run(macs, before).nodes[b].phase.Idle?
    requires !Run(macs, before).nodes[b].isCentral
    requires forall e <- later :: !(e.EndWindow? && e.node == b)
    ensures var started := before + [Start(b, id)];
            var n, heard := Run(macs, before).nodes[b], HeardIn(macs, started, later, b);
            var net := Run(macs, started + later + [EndWindow(b, peerAdded)] + [CommitRoute(b)]);
            && b in net.nodes
            && if peerAdded && exists j :: 0 <= j < |heard| && Offers(b, n, WindowId(id), heard[j].response)
               then BestOffer(b, n, WindowId(id), heard, i) && Adopted(net.nodes[b], heard[i])
               else net.nodes[b] == n
  {
    var started := before + [Start(b, id)];
    var n, heard := Run(macs, before).nodes[b], HeardIn(macs, started, later, b);
    var listening := n.(phase := Listening(WindowId(id), None));
    RunNext(macs, before, Start(b, id));
    assert Run(macs, started).nodes[b] == listening;
    ListeningHears(macs, started, later, b);
    i := BestIsKept(macs, before, b, id, later);
    WindowCloses(macs, started + later, b, peerAdded);
  }

  lemma BestIsKept(macs: set<MacAddress>, before: seq<Event>, b: MacAddress, id: nat, later: seq<Event>)
    returns (i: nat)
    requires |macs| < 0x1_0000 && b in Run(macs, before).nodes
    ensures var n, heard := Run(macs, before).nodes[b], HeardIn(macs, before + [Start(b, id)], later, b);
            var listening := n.(phase := Listening(WindowId(id), None));
            var after := HearAll(b, listening, heard);
            && after == listening.(phase := after.phase) && after.phase.Listening?
            && if exists j :: 0 <= j < |heard| && Offers(b, n, WindowId(id), heard[j].response)
               then
                 && BestOffer(b, n, WindowId(id), heard, i)
                 && var r := heard[i].response;
                    after.phase.best == Some(Candidate(r.origin, heard[i].rssi, r.hop, r.central))
               else after.phase.best.None?
  {
    var n, heard := Run(macs, before).nodes[b], HeardIn(macs, before + [Start(b, id)], later, b);
    var listening := n.(phase := Listening(WindowId(id), None));
    RunKeepsInv(macs, before);
    assert SoundRoute(Run(macs, before), b);
    forall j | 0 <= j < |heard|
      ensures heard[j].response.hop != UNKNOWN_HOP
      ensures Offers(b, n, WindowId(id), heard[j].response) <==> Eligible(b, listening, heard[j].response)
    {
      HeardWasSound(macs, before + [Start(b, id)], later, b, j);
    }
    i := WindowPicksBest(b, listening, heard);
    if HearAll(b, listening, heard).phase.best.Some? { ChosenIsBestOffer(b, n, WindowId(id), heard, i); }
  }

  /** A Node after its window has closed and its choice, if any, was written. */
  function Closed(n: NodeState, peerAdded: bool): NodeState
    requires n.phase.Listening?
  {
    if peerAdded && n.phase.best.Some?
    then
      var c := n.phase.best.value;
      NodeState(n.isCentral, Some(c.mac), c.rssi, Some(c.central), (c.hop + 1) % 0x1_0000, Idle)
    else n.(phase := Idle)
  }

  lemma WindowCloses(macs: set<MacAddress>, events: seq<Event>, b: MacAddress, peerAdded: bool)
    requires |macs| < 0x1_0000
    requires b in Run(macs, events).nodes && Run(macs, events).nodes[b].phase.Listening?
    ensures Run(macs, events + [EndWindow(b, peerAdded)] + [CommitRoute(b)]).nodes ==
            Run(macs, events).nodes[b := Closed(Run(macs, events).nodes[b], peerAdded)]
    ensures Run(macs, events).nodes[b].phase.best.Some? ==> Run(macs, events).nodes[b].phase.best.value.hop < 0xFFFF
  {
    RunNext(macs, events, EndWindow(b, peerAdded));
    RunNext(macs, events + [EndWindow(b, peerAdded)], CommitRoute(b));
    KeptIsSmall(macs, events, b);
  }

  lemma KeptIsSmall(macs: set<MacAddress>, events: seq<Event>, b: MacAddress)
    requires |macs| < 0x1_0000
    requires b in Run(macs, events).nodes && Run(macs, events).nodes[b].phase.Listening?
    ensures Run(macs, events).nodes[b].phase.best.Some? ==> Run(macs, events).nodes[b].phase.best.value.hop < 0xFFFF
  {
    RunKeepsInv(macs, events);
    assert SoundPhase(Run(macs, events), b);
  }

  /** b asks, the Node that gives this answer hears it, and the answer reaches b. */
  function Asked(b: MacAddress, id: nat, r: Response, rssi: int): seq<Event> {
    [Start(b, id)] + [AnswerRequest(r.origin, b, WindowId(id))] + [Deliver(b, r, rssi)]
  }

  /** One discovery in which only one Node answers. */
  function Exchange(b: MacAddress, id: nat, r: Response, rssi: int): seq<Event> {
    Asked(b, id, r, rssi) + [EndWindow(b, true)] + [CommitRoute(b)]
  }

  lemma Regrouped<T>(a: seq<T>, b: seq<T>, c: seq<T>, d: seq<T>)
    ensures a + (b + c + d) == a + b + c + d
  {
  }

  /** A Node that hangs under a, as a was when it answered. */
  function Below(a: MacAddress, upper: NodeState, rssi: int): NodeState {
    NodeState(false, Some(a), rssi, upper.central, (upper.hop + 1) % 0x1_0000, Idle)
  }

  lemma RunMore(macs: set<MacAddress>, before: seq<Event>, e: Event)
    requires Enabled(Run(macs, before), e)
    ensures Run(macs, before + [e]) == Step(Run(macs, before), e)
  {
    RunNext(macs, before, e);
  }

  /** What b has kept once it has heard a. */
  function KeptOf(n: NodeState, a: MacAddress, upper: NodeState, rssi: int): Option<Candidate>
    requires Routed(upper)
  {
    if n.hop != UNKNOWN_HOP && n.hop <= upper.hop then None
    else Some(Candidate(a, rssi, upper.hop, upper.central.value))
  }

  /** While b listens, a answers it and is heard. */
  lemma AnswerIsHeard(net: Network, a: MacAddress, b: MacAddress, id: nat, rssi: int)
    requires a != b && a in net.nodes && b in net.nodes && Routed(net.nodes[a])
    requires !net.nodes[b].isCentral && net.nodes[b].phase.Idle?
    ensures var upper, n := net.nodes[a], net.nodes[b];
            var r := Response(a, b, WindowId(id), upper.hop, upper.central.value);
            && Enabled(net, Start(b, id))
            && var net1 := Step(net, Start(b, id));
               && Enabled(net1, AnswerRequest(a, b, WindowId(id)))
               && var net2 := Step(net1, AnswerRequest(a, b, WindowId(id)));
                  && Enabled(net2, Deliver(b, r, rssi))
                  && Step(net2, Deliver(b, r, rssi)).nodes ==
                     net.nodes[b := n.(phase := Listening(WindowId(id), KeptOf(n, a, upper, rssi)))]
  {
    var upper, n := net.nodes[a], net.nodes[b];
    var r := Response(a, b, WindowId(id), upper.hop, upper.central.value);
    var net1 := Step(net, Start(b, id));
    assert net1.nodes == net.nodes[b := n.(phase := Listening(WindowId(id), None))];
    assert Answer(a, net1.nodes[a], b, WindowId(id)) == Some(r);
    var net2 := Step(net1, AnswerRequest(a, b, WindowId(id)));
    assert net2.nodes == net1.nodes && r in net2.sent;
    assert Hear(b, net2.nodes[b], r, rssi) == n.(phase := Listening(WindowId(id), KeptOf(n, a, upper, rssi)));
  }

  /** The Nodes after one exchange. */
  function AfterExchange(nodes: map<MacAddress, NodeState>, a: MacAddress, b: MacAddress,
                         rssi: int): map<MacAddress, NodeState>
    requires a in nodes && b in nodes
  {
    nodes[b := if Routed(nodes[b]) && nodes[b].hop <= nodes[a].hop then nodes[b] else Below(a, nodes[a], rssi)]
  }

  lemma HeardInRun(macs: set<MacAddress>, before: seq<Event>, a: MacAddress, b: MacAddress, id: nat, rssi: int)
    requires a != b && a in Run(macs, before).nodes && b in Run(macs, before).nodes
    requires Routed(Run(macs, before).nodes[a])
    requires Run(macs, before).nodes[b].phase.Idle? && !Run(macs, before).nodes[b].isCentral
    ensures var upper, n := Run(macs, before).nodes[a], Run(macs, before).nodes[b];
            var r := Response(a, b, WindowId(id), upper.hop, upper.central.value);
            Run(macs, before + Asked(b, id, r, rssi)).nodes ==
            Run(macs, before).nodes[b := n.(phase := Listening(WindowId(id), KeptOf(n, a, upper, rssi)))]
  {
    var upper := Run(macs, before).nodes[a];
    var r := Response(a, b, WindowId(id), upper.hop, upper.central.value);
    AnswerIsHeard(Run(macs, before), a, b, id, rssi);
    RunMore(macs, before, Start(b, id));
    RunMore(macs, before + [Start(b, id)], AnswerRequest(a, b, WindowId(id)));
    RunMore(macs, before + [Start(b, id)] + [AnswerRequest(a, b, WindowId(id))], Deliver(b, r, rssi));
    Regrouped(before, [Start(b, id)], [AnswerRequest(a, b, WindowId(id))], [Deliver(b, r, rssi)]);
  }

  lemma ExchangeNodes(nodes: map<MacAddress, NodeState>, a: MacAddress, b: MacAddress, id: nat, rssi: int)
    requires a != b && a in nodes && b in nodes && Routed(nodes[a]) && !nodes[b].isCentral && nodes[b].phase.Idle?
    requires !Routed(nodes[b]) <==> nodes[b].hop == UNKNOWN_HOP
    ensures var n := nodes[b].(phase := Listening(id, KeptOf(nodes[b], a, nodes[a], rssi)));
            && nodes[b := n][b := Closed(n, true)] == AfterExchange(nodes, a, b, rssi)
            && (n.phase.best.Some? ==> n.phase.best.value.hop == nodes[a].hop)
            && (n.phase.best.None? <==> Routed(nodes[b]) && nodes[b].hop <= nodes[a].hop)
  {
  }

  /**
   * A Node that hears a routed one takes its place below it, unless it already has a route at least as short; no other
   * Node changes.
   */
  lemma NeighborIsAdopted(macs: set<MacAddress>, before: seq<Event>, a: MacAddress, b: MacAddress, id: nat, rssi: int)
    requires |macs| < 0x1_0000 && a != b && a in Run(macs, before).nodes && b in Run(macs, before).nodes
    requires Routed(Run(macs, before).nodes[a])
    requires Run(macs, before).nodes[b].phase.Idle? && !Run(macs, before).nodes[b].isCentral
    ensures var upper, n := Run(macs, before).nodes[a], Run(macs, before).nodes[b];
            var r := Response(a, b, WindowId(id), upper.hop, upper.central.value);
            && Run(macs, before + Exchange(b, id, r, rssi)).nodes ==
               AfterExchange(Run(macs, before).nodes, a, b, rssi)
            && (!(Routed(n) && n.hop <= upper.hop) ==> upper.hop < 0xFFFF)
  {
    var nodes := Run(macs, before).nodes;
    var r := Response(a, b, WindowId(id), nodes[a].hop, nodes[a].central.value);
    UnroutedIsUnknown(macs, before, b);
    HeardInRun(macs, before, a, b, id, rssi);
    ExchangeNodes(nodes, a, b, WindowId(id), rssi);
    ExchangeCloses(macs, before, b, id, r, rssi);
  }

  lemma ExchangeCloses(macs: set<MacAddress>, before: seq<Event>, b: MacAddress, id: nat, r: Response, rssi: int)
    requires |macs| < 0x1_0000 && b in Run(macs, before + Asked(b, id, r, rssi)).nodes
    requires Run(macs, before + Asked(b, id, r, rssi)).nodes[b].phase.Listening?
    ensures var nodes := Run(macs, before + Asked(b, id, r, rssi)).nodes;
            && Run(macs, before + Exchange(b, id, r, rssi)).nodes == nodes[b := Closed(nodes[b], true)]
            && (nodes[b].phase.best.Some? ==> nodes[b].phase.best.value.hop < 0xFFFF)
  {
    Regrouped(before, Asked(b, id, r, rssi), [EndWindow(b, true)], [CommitRoute(b)]);
    WindowCloses(macs, before + Asked(b, id, r, rssi), b, true);
  }

  lemma UnroutedIsUnknown(macs: set<MacAddress>, events: seq<Event>, b: MacAddress)
    requires |macs| < 0x1_0000 && b in Run(macs, events).nodes
    ensures !Routed(Run(macs, events).nodes[b]) <==> Run(macs, events).nodes[b].hop == UNKNOWN_HOP
  {
    RunKeepsInv(macs, events);
    assert SoundRoute(Run(macs, events), b);
  }

  // The network as it comes up.

  /** Along p, each Node hangs under the one before it, and the first one is Central. */
  ghost predicate Hangs(net: Network, p: seq<MacAddress>, k: nat) {
    && k < |p| && p[k] in net.nodes && net.nodes[p[k]].phase.Idle?
    && net.nodes[p[k]].central == Some(p[0]) && net.nodes[p[k]].hop as int == k
    && net.nodes[p[k]].isCentral == (k == 0)
    && net.nodes[p[k]].upstream == if k == 0 then None else Some(p[k - 1])
  }

  ghost predicate LineUp(net: Network, p: seq<MacAddress>) {
    && (forall k | 0 <= k < |p| :: Hangs(net, p, k))
    && (forall m | m in net.nodes && m !in p :: net.nodes[m] == BOOT)
  }

  lemma OneMoreHangs(net: Network, after: Network, q: seq<MacAddress>, last: MacAddress)
    requires q != [] && LineUp(net, q) && last !in q && last in net.nodes && q[|q| - 1] in net.nodes
    requires net.nodes[q[|q| - 1]].hop < 0xFFFF
    requires after.nodes == AfterExchange(net.nodes, q[|q| - 1], last, 0)
    ensures LineUp(after, q + [last])
  {
    var p := q + [last];
    assert Hangs(net, q, |q| - 1) && net.nodes[last] == BOOT;
    forall k | 0 <= k < |p| ensures Hangs(after, p, k) {
      if k < |q| { assert Hangs(net, q, k) && p[k] == q[k] && q[k] in q; }
    }
  }

  lemma CentralComesUp(macs: set<MacAddress>, c: MacAddress) returns (events: seq<Event>)
    requires c in macs
    ensures LineUp(Run(macs, events), [c])
  {
    events := [SetCentral(c)];
    RunNext(macs, [], SetCentral(c));
    assert [] + [SetCentral(c)] == events;
  }

  lemma LastIsReady(net: Network, q: seq<MacAddress>, last: MacAddress)
    requires 0 < |q| <= 0xFFFF && LineUp(net, q) && last !in q && last in net.nodes
    ensures q[|q| - 1] in net.nodes && Routed(net.nodes[q[|q| - 1]]) && net.nodes[q[|q| - 1]].hop < 0xFFFF
    ensures !Routed(net.nodes[last]) && net.nodes[last].phase.Idle? && !net.nodes[last].isCentral
  {
    assert Hangs(net, q, |q| - 1);
  }

  lemma OneMoreJoins(macs: set<MacAddress>, before: seq<Event>, q: seq<MacAddress>, last: MacAddress)
    returns (events: seq<Event>)
    requires |macs| < 0x1_0000 && 0 < |q| <= 0xFFFF && last !in q && last in macs && LineUp(Run(macs, before), q)
    ensures LineUp(Run(macs, events), q + [last])
  {
    var above := q[|q| - 1];
    RunKeepsInv(macs, before);
    LastIsReady(Run(macs, before), q, last);
    NeighborIsAdopted(macs, before, above, last, 1, 0);
    var upper := Run(macs, before).nodes[above];
    events := before + Exchange(last, 1, Response(above, last, 1, upper.hop, upper.central.value), 0);
    OneMoreHangs(Run(macs, before), Run(macs, events), q, last);
  }

  lemma NoMoreThanMacs(macs: set<MacAddress>, q: seq<MacAddress>)
    requires NoRepeats(q) && forall m <- q :: m in macs
    ensures |q| <= |macs|
  {
    var met := set m | m in q;
    DistinctCount(q);
    SubsetCardinality(met, macs);
  }

  lemma {:induction false} DistinctCount(q: seq<MacAddress>)
    requires NoRepeats(q)
    ensures |set m | m in q| == |q|
  {
    if q != [] {
      var init, last := q[..|q| - 1], q[|q| - 1];
      DistinctCount(init);
      assert (set m | m in q) == (set m | m in init) + {last} && last !in init;
    }
  }

  /** From boot, any line of Nodes can come up: each joins the one before it and counts its links to Central. */
  lemma {:induction false} LineComesUp(macs: set<MacAddress>, p: seq<MacAddress>) returns (events: seq<Event>)
    requires |macs| < 0x1_0000 && p != [] && NoRepeats(p) && forall m <- p :: m in macs
    ensures LineUp(Run(macs, events), p)
  {
    var last := p[|p| - 1];
    if |p| == 1 {
      events := CentralComesUp(macs, last);
      assert p == [last];
    } else {
      var q := p[..|p| - 1];
      NoMoreThanMacs(macs, q);
      events := LineComesUp(macs, q);
      events := OneMoreJoins(macs, events, q, last);
      assert q + [last] == p;
    }
  }

  // Routes rest on answers that were given.

  /** Some answer addressed to m, of this origin and Central, promised this hop count. */
  ghost predicate WasOffered(net: Network, m: MacAddress, origin: MacAddress, hop: int, central: MacAddress) {
    exists r | r in net.sent :: r.destination == m && r.origin == origin && r.hop as int == hop && r.central == central
  }

  ghost predicate RestsOnAnswer(net: Network, m: MacAddress)
    requires m in net.nodes
  {
    var n := net.nodes[m];
    && (n.upstream.Some? ==> n.central.Some? && WasOffered(net, m, n.upstream.value, n.hop - 1, n.central.value))
    && match n.phase
       case Idle => true
       case Listening(id, None) => true
       case Listening(id, Some(c)) => Response(c.mac, m, id, c.hop, c.central) in net.sent
       case Committing(c) => WasOffered(net, m, c.mac, c.hop, c.central)
  }

  lemma OffersStay(net: Network, after: Network, m: MacAddress, origin: MacAddress, hop: int, central: MacAddress)
    requires net.sent <= after.sent && WasOffered(net, m, origin, hop, central)
    ensures WasOffered(after, m, origin, hop, central)
  {
  }

  lemma StepRestsOnAnswers(net: Network, e: Event, m: MacAddress)
    requires Inv(net) && Enabled(net, e) && m in net.nodes && RestsOnAnswer(net, m)
    ensures m in Step(net, e).nodes && RestsOnAnswer(Step(net, e), m)
  {
    var n, after := net.nodes[m], Step(net, e);
    assert SoundRoute(net, m) && SoundPhase(net, m);
    assert net.sent <= after.sent;
    if n.upstream.Some? { OffersStay(net, after, m, n.upstream.value, n.hop - 1, n.central.value); }
    if n.phase.Committing? {
      var c := n.phase.chosen;
      OffersStay(net, after, m, c.mac, c.hop, c.central);
      CommittedHop(net, m);
    }
    if n.phase.Listening? && n.phase.best.Some? {
      var c := n.phase.best.value;
      assert Response(c.mac, m, n.phase.id, c.hop, c.central) in after.sent;
    }
  }

  /**
   * In every run a Node's upstream is one that answered this very Node, with the Central it now names and one hop less
   * than it now has; and no Node ever answers itself.
   */
  lemma {:induction false} RoutesWereOffered(macs: set<MacAddress>, events: seq<Event>, m: MacAddress)
    requires |macs| < 0x1_0000 && m in macs
    ensures m in Run(macs, events).nodes && RestsOnAnswer(Run(macs, events), m)
    ensures forall r <- Run(macs, events).sent :: r.origin != r.destination
  {
    RunKeepsInv(macs, events);
    if events != [] {
      var init, e := events[..|events| - 1], events[|events| - 1];
      RoutesWereOffered(macs, init, m);
      RunKeepsInv(macs, init);
      if Enabled(Run(macs, init), e) { StepRestsOnAnswers(Run(macs, init), e, m); }
    }
  }
}
