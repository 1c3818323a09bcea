/** Central's view of the Nodes that report to it. */
module PlanningNodes {
  import opened Common
  import opened Loads

  /** The pages of the report in progress that have arrived so far, and the pins they listed. */
  datatype PendingReport = PendingReport(sequenceId: Word, totalPages: Byte, mask: bv8, pins: seq<Byte>)

  const NO_REPORT := PendingReport(0, 0, 0, [])

  datatype PlanningNode = PlanningNode(
    mac: MacAddress,
    loads: seq<LoadRecord>,
    name: string,
    parent: MacAddress,  // next hop towards Central, as reported
    hopCount: Word,
    isCentral: bool,
    lastSeen: nat,
    pending: PendingReport)

  ghost predicate DistinctMacs(nodes: seq<PlanningNode>) {
    forall i, j | 0 <= i < j < |nodes| :: nodes[i].mac != nodes[j].mac
  }

  function MacOf(n: PlanningNode): MacAddress { n.mac }

  /** The position of the first entry with this address, or the length. */
  function IndexOfMac(nodes: seq<PlanningNode>, mac: MacAddress): (k: nat)
    ensures k <= |nodes|
    ensures k < |nodes| ==> nodes[k].mac == mac
    ensures forall i | 0 <= i < k :: nodes[i].mac != mac
  {
    IndexBy(MacOf, nodes, mac)
  }

  predicate Registered(nodes: seq<PlanningNode>, mac: MacAddress) {
    IndexOfMac(nodes, mac) < |nodes|
  }

  function Lookup(nodes: seq<PlanningNode>, mac: MacAddress): PlanningNode
    requires Registered(nodes, mac)
  {
    nodes[IndexOfMac(nodes, mac)]
  }

  method FindNodeByMacAddress(nodes: seq<PlanningNode>, mac: MacAddress) returns (k: nat)
    ensures k == IndexOfMac(nodes, mac)
  {
    k := 0;
    while k < |nodes|
      invariant k <= |nodes|
      invariant forall i | 0 <= i < k :: nodes[i].mac != mac
    {
      if nodes[k].mac == mac {
        return;
      }
      k := k + 1;
    }
  }

  lemma IndexOfOwnMac(nodes: seq<PlanningNode>, i: nat)
    requires DistinctMacs(nodes) && i < |nodes|
    ensures IndexOfMac(nodes, nodes[i].mac) == i
  {
  }
}
