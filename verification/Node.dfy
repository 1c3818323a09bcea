/** A Node and the loads wired to it. */
module Nodes {
  import opened Common
  import opened Loads
  import opened PinLists

  class Node {
    const mac: MacAddress
    var loads: seq<LoadRecord>

    constructor (mac: MacAddress)
      ensures this.mac == mac && loads == []
    {
      this.mac := mac;
      loads := [];
    }

    method AddLoad(l: LoadRecord) returns (added: bool)
      modifies this
      ensures added <==> l.id.mac == mac && !HasPin(PinOf, old(loads), l.id.pin)
      ensures loads == if added then old(loads) + [l] else old(loads)
    {
      if l.id.mac != mac || HasPin(PinOf, loads, l.id.pin) {
        return false;
      }
      loads := loads + [l];
      return true;
    }

    /** The position of the load on this pin, or the number of loads. */
    method GetLoadByRelayPin(pin: Byte) returns (k: nat)
      ensures k == IndexBy(PinOf, loads, pin)
    {
      k := 0;
      while k < |loads|
        invariant k <= |loads|
        invariant forall i | 0 <= i < k :: PinOf(loads[i]) != pin
      {
        if PinOf(loads[k]) == pin {
          return;
        }
        k := k + 1;
      }
    }

    method RemoveLoadByRelayPin(pin: Byte) returns (removed: bool)
      modifies this
      ensures removed <==> HasPin(PinOf, old(loads), pin)
      ensures loads == ErasePin(PinOf, old(loads), pin)
    {
      var k := GetLoadByRelayPin(pin);
      if k == |loads| {
        return false;
      }
      loads := loads[..k] + loads[k + 1..];
      return true;
    }
  }
}
