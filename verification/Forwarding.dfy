/** Messages to Central: each Node passes them to its upstream until the hop limit runs out. */
module Forwarding {
  import opened Common
  import opened Discovery

  const DEFAULT_HOP_LIMIT: nat := 16

  /** How a message's journey ends, and how often it was forwarded on the way. */
  datatype Trip =
    | Delivered(forwards: nat)
    | Dropped(forwards: nat)

  /** Which Node gets the message next, given who holds it and who it came from. */
  type NextHop = (MacAddress, MacAddress) -> Option<MacAddress>

  /** Forwarding needs a hop left and uses it up; arriving needs none. */
  function Travel(next: NextHop, at: MacAddress, sender: MacAddress, destination: MacAddress, hopsRemaining: nat): Trip
    decreases hopsRemaining
  {
    if at == destination then Delivered(0)
    else
      var to := next(at, sender);
      if to.None? || hopsRemaining == 0 then Dropped(0)
      else
        match Travel(next, to.value, at, destination, hopsRemaining - 1)
        case Delivered(k) => Delivered(k + 1)
        case Dropped(k) => Dropped(k + 1)
  }

  /**
   * The Smart rule: up the tree, except for a message that comes from upstream, which goes straight to its
   * destination.
   */
  ghost function SmartNextHop(net: Network, destination: MacAddress): NextHop {
    (at: MacAddress, sender: MacAddress) =>
      if at !in net.nodes then None
      else
        var upstream := net.nodes[at].upstream;
        if upstream.Some? && sender != upstream.value then upstream else Some(destination)
  }

  /** The sender's own transmission carries the full hop limit and is not a forward. */
  ghost function SendToCentral(net: Network, m: MacAddress): Trip
    requires m in net.nodes
  {
    var n := net.nodes[m];
    if n.upstream.None? || n.central.None? then Dropped(0)
    else
      Travel(SmartNextHop(net, n.central.value), n.upstream.value, m, n.central.value, DEFAULT_HOP_LIMIT)
  }

  /** Whatever the routes, even cyclic ones, no message outlives its hop limit. */
  lemma {:induction false} ForwardsAreBounded(next: NextHop, at: MacAddress, sender: MacAddress,
                                              destination: MacAddress, hopsRemaining: nat)
    ensures Travel(next, at, sender, destination, hopsRemaining).forwards <= hopsRemaining
    decreases hopsRemaining
  {
    var to := next(at, sender);
    if at != destination && to.Some? && hopsRemaining > 0 {
      ForwardsAreBounded(next, to.value, at, destination, hopsRemaining - 1);
    }
  }

  /** On the way up a chain, the message is delivered exactly when enough hops remain for the links still ahead. */
  lemma {:induction false} TravelUpChain(net: Network, p: seq<MacAddress>, i: nat, hopsRemaining: nat)
    requires Follows(net, p) && 0 < i < |p|
    requires net.nodes[p[|p| - 1]].isCentral
    requires forall a, b | 0 <= a < b < |p| :: p[a] != p[b]
    ensures var ahead := |p| - 1 - i;
            Travel(SmartNextHop(net, p[|p| - 1]), p[i], p[i - 1], p[|p| - 1], hopsRemaining)
            == if ahead <= hopsRemaining then Delivered(ahead) else Dropped(hopsRemaining)
    decreases hopsRemaining
  {
    if i < |p| - 1 && hopsRemaining > 0 {
      assert net.nodes[p[i]].upstream == Some(p[i + 1]);
      TravelUpChain(net, p, i + 1, hopsRemaining - 1);
    }
  }

  /**
   * On the way down there is one forward: a Node that gets a message from its own upstream, or that has none, hands it
   * straight to its destination.
   */
  lemma DownIsOneForward(net: Network, at: MacAddress, sender: MacAddress, destination: MacAddress, hopsRemaining: nat)
    requires at in net.nodes && at != destination
    requires net.nodes[at].upstream.None? || net.nodes[at].upstream == Some(sender)
    ensures Travel(SmartNextHop(net, destination), at, sender, destination, hopsRemaining) ==
            if hopsRemaining == 0 then Dropped(0) else Delivered(1)
  {
  }

  /** A Node without a route sends nothing. */
  lemma UnroutedSendsNothing(macs: set<MacAddress>, events: seq<Event>, m: MacAddress)
    requires |macs| < 0x1_0000 && m in Run(macs, events).nodes && !Routed(Run(macs, events).nodes[m])
    ensures SendToCentral(Run(macs, events), m) == Dropped(0)
  {
    RunKeepsInv(macs, events);
    assert SoundRoute(Run(macs, events), m);
  }

  /** The sender's message takes the whole chain, or is dropped sixteen forwards up. */
  lemma DeliveredOnChain(net: Network, p: seq<MacAddress>)
    requires Follows(net, p) && |p| > 1 && net.nodes[p[|p| - 1]].isCentral
    requires forall a, b | 0 <= a < b < |p| :: p[a] != p[b]
    requires net.nodes[p[0]].central == Some(p[|p| - 1])
    ensures SendToCentral(net, p[0]) == if |p| - 1 <= 17 then Delivered(|p| - 2) else Dropped(16)
  {
    assert net.nodes[p[0]].upstream == Some(p[1]);
    TravelUpChain(net, p, 1, DEFAULT_HOP_LIMIT);
  }

  /** In every reachable network a message to Central arrives exactly when the sender is at most 17 links below it. */
  lemma DeliveredWithinSeventeenLinks(macs: set<MacAddress>, events: seq<Event>, c: MacAddress, m: MacAddress)
    returns (p: seq<MacAddress>)
    requires |macs| < 0x1_0000
    requires forall e <- events | e.SetCentral? :: e.node == c
    requires m in Run(macs, events).nodes && Routed(Run(macs, events).nodes[m]) && m != c
    ensures Follows(Run(macs, events), p) && |p| > 1 && p[0] == m && p[|p| - 1] == c
    ensures SendToCentral(Run(macs, events), m) == if |p| - 1 <= 17 then Delivered(|p| - 2) else Dropped(16)
    ensures Run(macs, events).nodes[m].hop <= 17 ==> SendToCentral(Run(macs, events), m).Delivered?
  {
    RunKeepsInv(macs, events);
    p := EveryChainEndsAtCentral(macs, events, c, m);
    NoRoutingLoop(macs, events, p);
    assert p[0] in p;
    DeliveredOnChain(Run(macs, events), p);
  }
}
