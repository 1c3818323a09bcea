/** The relay channels wired to this Node. */
module Relays {
  import opened Common
  import opened PinLists

  datatype RelayConfiguration = RelayConfiguration(pin: Byte, activeHigh: bool, initialStateOn: bool)

  datatype RegisteredRelay = RegisteredRelay(configuration: RelayConfiguration, hardwareApplied: bool)

  function RelayPin(r: RegisteredRelay): Byte { r.configuration.pin }

  /** A channel joins the table only if its pin is free and its GPIO could be configured. */
  function WithRelay(relays: seq<RegisteredRelay>, c: RelayConfiguration, gpio: bool): seq<RegisteredRelay> {
    if gpio && !HasPin(RelayPin, relays, c.pin) then relays + [RegisteredRelay(c, true)] else relays
  }

  /** The level on a relay's pin, true for high. */
  function DrivenHigh(c: RelayConfiguration, on: bool): bool { if on then c.activeHigh else !c.activeHigh }

  /** A relay wired active-high conducts at a high level, any other at a low one. */
  predicate Conducts(wiredActiveHigh: bool, high: bool) { high == wiredActiveHigh }

  class RelayController {
    var relays: seq<RegisteredRelay>

    constructor ()
      ensures relays == []
    {
      relays := [];
    }

    predicate IsRelayRegistered(pin: Byte)
      reads this
    {
      HasPin(RelayPin, relays, pin)
    }

    /**
     * The entry is pushed before its GPIO is configured and taken out again if that fails. The level is the one the
     * pin is driven to, if it is.
     */
    method AddRelay(c: RelayConfiguration, gpio: bool) returns (added: bool, level: Option<bool>)
      modifies this
      ensures added <==> gpio && !HasPin(RelayPin, old(relays), c.pin)
      ensures level == if added then Some(DrivenHigh(c, c.initialStateOn)) else None
      ensures relays == WithRelay(old(relays), c, gpio)
    {
      if IsRelayRegistered(c.pin) {
        return false, None;
      }
      relays := relays + [RegisteredRelay(c, false)];
      var last := |relays| - 1;
      relays := relays[last := RegisteredRelay(c, gpio)];
      assert relays == old(relays) + [RegisteredRelay(c, gpio)];
      if !gpio {
        EraseAppended(RelayPin, old(relays), RegisteredRelay(c, gpio));
        var removed := RemoveRelay(c.pin);
        return false, None;
      }
      level := WriteGpioLevel(relays[last], c.initialStateOn, gpio);
      added := true;
    }

    /** Only a configured pin is driven, to the level its polarity asks for. */
    method WriteGpioLevel(r: RegisteredRelay, on: bool, gpio: bool) returns (level: Option<bool>)
      ensures level == if r.hardwareApplied && gpio then Some(DrivenHigh(r.configuration, on)) else None
    {
      if !r.hardwareApplied || !gpio {
        return None;
      }
      var driveHigh := if on then r.configuration.activeHigh else !r.configuration.activeHigh;
      return Some(driveHigh);
    }

    /** The channel leaves the table even when its pin could not be driven to OFF. */
    method RemoveRelay(pin: Byte) returns (removed: bool)
      modifies this
      ensures removed <==> HasPin(RelayPin, old(relays), pin)
      ensures relays == ErasePin(RelayPin, old(relays), pin)
    {
      for index := 0 to |relays|
        invariant relays == old(relays)
        invariant forall k | 0 <= k < index :: RelayPin(relays[k]) != pin
      {
        if RelayPin(relays[index]) == pin {
          relays := relays[..index] + relays[index + 1..];
          return true;
        }
      }
      return false;
    }

    /** Writes a level; the table does not change. */
    method SetRelayState(pin: Byte, on: bool, gpio: bool) returns (level: Option<bool>)
      ensures level.Some? <==>
              var k := IndexBy(RelayPin, relays, pin); k < |relays| && relays[k].hardwareApplied && gpio
      ensures level.Some? ==> level.value == DrivenHigh(relays[IndexBy(RelayPin, relays, pin)].configuration, on)
    {
      var k := IndexBy(RelayPin, relays, pin);
      if k == |relays| {
        return None;
      }
      level := WriteGpioLevel(relays[k], on, gpio);
    }
  }
}
