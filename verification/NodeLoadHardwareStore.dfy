/** Three vectors that must tell the same story: the configured loads, the Node's loads and the relay table. */
module HardwareStores {
  import opened Common
  import opened Loads
  import opened PinLists
  import opened NodeReports
  import opened Relays
  import opened Nodes

  const MAX_CONFIGURED_LOADS: nat := 16

  datatype LoadConfiguration = LoadConfiguration(
    name: NameBuffer, pin: Byte, activeHigh: bool, watts: Float, powerType: PowerType, mode: Mode, priority: Word,
        schedule: AutoSchedule)

  datatype Failure =
    | NoFailure
    | InvalidConfiguration
    | InvalidPowerRating
    | CapacityReached
    | DuplicateRelayPin
    | HardwareInitializationFailed
    | PersistenceFailed

  function ConfiguredPin(c: LoadConfiguration): Byte { c.pin }

  /** The three vectors. */
  datatype Hardware = Hardware(configurations: seq<LoadConfiguration>, loads: seq<LoadRecord>,
                               relays: seq<RegisteredRelay>)

  // ---------------------------------------------------------------------------------------------------
  // What each operation does to the three vectors
  // ---------------------------------------------------------------------------------------------------

  predicate WellNamed(c: LoadConfiguration) { 0 < |CString(c.name)| < NAME_SIZE }

  function NewConfigurationFailure(configurations: seq<LoadConfiguration>, c: LoadConfiguration): Failure {
    if !WellNamed(c) || c.priority > 10 || !ValidSchedule(c.schedule) then InvalidConfiguration
    else if !FiniteNonNegative(c.watts) then InvalidPowerRating
    else if |configurations| >= MAX_CONFIGURED_LOADS then CapacityReached
    else if HasPin(ConfiguredPin, configurations, c.pin) then DuplicateRelayPin
    else NoFailure
  }

  function RelayOf(c: LoadConfiguration): RegisteredRelay {
    RegisteredRelay(RelayConfiguration(c.pin, c.activeHigh, IsOn(c.mode)), true)
  }

  function NewLoad(mac: MacAddress, c: LoadConfiguration): LoadRecord {
    LoadRecord(LoadId(mac, c.pin), CString(c.name), if FiniteNonNegative(c.watts) then c.watts.value else 0.0,
               c.priority, c.powerType, c.mode, NO_SCHEDULE, 0)
  }

  function LoadOf(mac: MacAddress, c: LoadConfiguration): LoadRecord {
    WithSchedule(NewLoad(mac, c), c.schedule).0
  }

  function ApplyFailure(h: Hardware, c: LoadConfiguration, gpio: bool): Failure {
    if HasPin(RelayPin, h.relays, c.pin) || HasPin(PinOf, h.loads, c.pin) then DuplicateRelayPin
    else if !gpio then HardwareInitializationFailed
    else if IsAuto(c.mode) && !ValidSchedule(c.schedule) then InvalidConfiguration
    else NoFailure
  }

  function Applied(mac: MacAddress, h: Hardware, c: LoadConfiguration): Hardware {
    h.(loads := h.loads + [LoadOf(mac, c)], relays := h.relays + [RelayOf(c)])
  }

  function ConfigureFailure(h: Hardware, c: LoadConfiguration, gpio: bool, saved: bool): Failure {
    var invalid := NewConfigurationFailure(h.configurations, c);
    if invalid != NoFailure then invalid
    else
      var unapplied := ApplyFailure(h, c, gpio);
      if unapplied != NoFailure then unapplied else if !saved then PersistenceFailed else NoFailure
  }

  function Configured(mac: MacAddress, h: Hardware, c: LoadConfiguration): Hardware {
    Applied(mac, h, c).(configurations := h.configurations + [c])
  }

  predicate Drivable(relays: seq<RegisteredRelay>, pin: Byte, gpio: bool) {
    var k := IndexBy(RelayPin, relays, pin);
    k < |relays| && relays[k].hardwareApplied && gpio
  }

  function RemoveFailure(h: Hardware, pin: Byte, gpio: bool, saved: bool): Failure {
    if !HasPin(ConfiguredPin, h.configurations, pin) then InvalidConfiguration
    else if !Drivable(h.relays, pin, gpio) then HardwareInitializationFailed
    else if !saved then PersistenceFailed
    else NoFailure
  }

  function Without(h: Hardware, pin: Byte): Hardware {
    Hardware(ErasePin(ConfiguredPin, h.configurations, pin), ErasePin(PinOf, h.loads, pin),
             ErasePin(RelayPin, h.relays, pin))
  }

  /** What the GPIO driver answers, pin by pin. */
  type Gpio = Byte -> bool

  predicate AllDrivable(h: Hardware, gpio: Gpio) {
    forall i | 0 <= i < |h.configurations| :: Drivable(h.relays, h.configurations[i].pin, gpio(h.configurations[i].pin))
  }

  function ClearFailure(h: Hardware, gpio: Gpio, saved: bool): Failure {
    if !AllDrivable(h, gpio) then HardwareInitializationFailed else if !saved then PersistenceFailed else NoFailure
  }

  function Cleared(h: Hardware): Hardware {
    var pins := Pins(ConfiguredPin, h.configurations);
    Hardware([], ErasePins(PinOf, h.loads, pins), ErasePins(RelayPin, h.relays, pins))
  }

  /** The first n configurations applied one after the other, and the first failure among them. */
  function AppliedUpTo(mac: MacAddress, h: Hardware, gpio: Gpio, n: nat): (r: (Hardware, Failure))
    requires n <= |h.configurations|
    ensures r.0.configurations == h.configurations
  {
    if n == 0 then (h, NoFailure)
    else
      var (before, failure) := AppliedUpTo(mac, h, gpio, n - 1);
      var c := h.configurations[n - 1];
      if failure != NoFailure then (before, failure)
      else if ApplyFailure(before, c, gpio(c.pin)) != NoFailure then (before, ApplyFailure(before, c, gpio(c.pin)))
      else (Applied(mac, before, c), NoFailure)
  }

  function RestoreFailure(mac: MacAddress, h: Hardware, gpio: Gpio): Failure {
    AppliedUpTo(mac, h, gpio, |h.configurations|).1
  }

  function Restored(mac: MacAddress, h: Hardware, gpio: Gpio): Hardware {
    var (after, failure) := AppliedUpTo(mac, h, gpio, |h.configurations|);
    if failure == NoFailure then after else h
  }

  // ---------------------------------------------------------------------------------------------------
  // The objects
  // ---------------------------------------------------------------------------------------------------

  /** Relay first, then load, then schedule; each later failure takes the earlier steps back. */
  method ApplyOne(c: LoadConfiguration, relays: RelayController, node: Node, gpio: bool, ghost h: Hardware)
    returns (failure: Failure)
    requires h.relays == relays.relays && h.loads == node.loads
    modifies relays, node
    ensures failure == ApplyFailure(h, c, gpio)
    ensures relays.relays == if failure == NoFailure then h.relays + [RelayOf(c)] else h.relays
    ensures node.loads == if failure == NoFailure then h.loads + [LoadOf(node.mac, c)] else h.loads
  {
    var at := node.GetLoadByRelayPin(c.pin);
    if relays.IsRelayRegistered(c.pin) || at < |node.loads| {
      return DuplicateRelayPin;
    }
    var added, level := relays.AddRelay(RelayConfiguration(c.pin, c.activeHigh, IsOn(c.mode)), gpio);
    if !added {
      return HardwareInitializationFailed;
    }
    failure := ApplyLoad(c, node);
    if failure != NoFailure {
      EraseAppended(RelayPin, h.relays, RelayOf(c));
      var removed := relays.RemoveRelay(c.pin);
    }
  }

  /** The load's part of applying a configuration. */
  method ApplyLoad(c: LoadConfiguration, node: Node) returns (failure: Failure)
    requires !HasPin(PinOf, node.loads, c.pin)
    modifies node
    ensures failure == if IsAuto(c.mode) && !ValidSchedule(c.schedule) then InvalidConfiguration else NoFailure
    ensures node.loads == if failure == NoFailure then old(node.loads) + [LoadOf(node.mac, c)] else old(node.loads)
  {
    var load := new Load(LoadId(node.mac, c.pin), CString(c.name), c.watts, c.priority, c.powerType, c.mode);
    var added := node.AddLoad(load.Record());
    var last := |node.loads| - 1;
    if IsAuto(c.mode) {
      var scheduled := load.SetSchedule(c.schedule);
      if !scheduled {
        EraseAppended(PinOf, old(node.loads), NewLoad(node.mac, c));
        var removed := node.RemoveLoadByRelayPin(c.pin);
        return InvalidConfiguration;
      }
      node.loads := node.loads[last := load.Record()];
    }
    return NoFailure;
  }

  class NodeLoadHardwareStore {
    var configurations: seq<LoadConfiguration>
    const relays: RelayController
    const node: Node

    constructor (relays: RelayController, node: Node)
      ensures this.relays == relays && this.node == node && configurations == []
    {
      this.relays, this.node, configurations := relays, node, [];
    }

    function State(): Hardware
      reads this, relays, node
    {
      Hardware(configurations, node.loads, relays.relays)
    }

    method ConfigureNewLoad(c: LoadConfiguration, gpio: bool, saved: bool) returns (failure: Failure)
      modifies this, relays, node
      ensures failure == ConfigureFailure(old(State()), c, gpio, saved)
      ensures State() == if failure == NoFailure then Configured(node.mac, old(State()), c) else old(State())
    {
      failure := NewConfigurationFailure(configurations, c);
      if failure != NoFailure {
        return;
      }
      failure := ApplyOne(c, relays, node, gpio, State());
      if failure != NoFailure {
        return;
      }
      configurations := configurations + [c];
      if !saved {
        configurations := configurations[..|configurations| - 1];
        EraseAppended(PinOf, old(node.loads), LoadOf(node.mac, c));
        EraseAppended(RelayPin, old(relays.relays), RelayOf(c));
        var loadRemoved := node.RemoveLoadByRelayPin(c.pin);
        var relayRemoved := relays.RemoveRelay(c.pin);
        return PersistenceFailed;
      }
    }

    method RemoveLoad(pin: Byte, gpio: bool, saved: bool) returns (failure: Failure)
      modifies this, relays, node
      ensures failure == RemoveFailure(old(State()), pin, gpio, saved)
      ensures State() == if failure == NoFailure then Without(old(State()), pin) else old(State())
    {
      var index := IndexBy(ConfiguredPin, configurations, pin);
      if index == |configurations| {
        return InvalidConfiguration;
      }
      var driven := relays.SetRelayState(pin, false, gpio);
      if driven.None? {
        return HardwareInitializationFailed;
      }
      var previous := configurations;
      configurations := configurations[..index] + configurations[index + 1..];
      if !saved {
        configurations := previous;
        return PersistenceFailed;
      }
      var loadRemoved := node.RemoveLoadByRelayPin(pin);
      var relayRemoved := relays.RemoveRelay(pin);
      return NoFailure;
    }

    method ClearAllConfigurations(gpio: Gpio, saved: bool) returns (failure: Failure)
      modifies this, relays, node
      ensures failure == ClearFailure(old(State()), gpio, saved)
      ensures State() == if failure == NoFailure then Cleared(old(State())) else old(State())
    {
      for i := 0 to |configurations|
        invariant State() == old(State())
        invariant forall k | 0 <= k < i :: Drivable(relays.relays, configurations[k].pin, gpio(configurations[k].pin))
      {
        var driven := relays.SetRelayState(configurations[i].pin, false, gpio(configurations[i].pin));
        if driven.None? {
          return HardwareInitializationFailed;
        }
      }
      var previous := configurations;
      configurations := [];
      if !saved {
        configurations := previous;
        return PersistenceFailed;
      }
      EraseFromBoth(relays, node, Pins(ConfiguredPin, previous));
      return NoFailure;
    }

    /** A restore that fails part-way takes back every load and relay it had added. */
    method ApplyPersistedConfigurations(gpio: Gpio) returns (failure: Failure)
      modifies relays, node
      ensures failure == RestoreFailure(node.mac, old(State()), gpio)
      ensures State() == Restored(node.mac, old(State()), gpio)
    {
      failure := ApplyAll(configurations, relays, node, gpio, State());
    }
  }

  /** The restore has succeeded with the first n configurations. */
  ghost predicate Reached(mac: MacAddress, h: Hardware, gpio: Gpio, n: nat, loads: seq<LoadRecord>,
                          relays: seq<RegisteredRelay>) {
    n <= |h.configurations| && AppliedUpTo(mac, h, gpio, n) == (Hardware(h.configurations, loads, relays), NoFailure)
  }

  lemma ReachNext(mac: MacAddress, h: Hardware, gpio: Gpio, n: nat, loads: seq<LoadRecord>,
                  relays: seq<RegisteredRelay>)
    requires Reached(mac, h, gpio, n, loads, relays) && n < |h.configurations|
    ensures var c := h.configurations[n];
            var failure := ApplyFailure(Hardware(h.configurations, loads, relays), c, gpio(c.pin));
            if failure == NoFailure then Reached(mac, h, gpio, n + 1, loads + [LoadOf(mac, c)], relays + [RelayOf(c)])
            else RestoreFailure(mac, h, gpio) == failure
  {
    if AppliedUpTo(mac, h, gpio, n + 1).1 != NoFailure {
      FailureStays(mac, h, gpio, n + 1, |h.configurations|);
    }
  }

  method UndoRestore(relays: RelayController, node: Node, appliedPins: seq<Byte>, gpio: Gpio, ghost h: Hardware,
                     ghost n: nat)
    requires Reached(node.mac, h, gpio, n, node.loads, relays.relays)
    requires appliedPins == Pins(ConfiguredPin, h.configurations[..n])
    modifies relays, node
    ensures node.loads == h.loads && relays.relays == h.relays
  {
    TakenBack(node.mac, h, gpio, n);
    EraseFromBoth(relays, node, appliedPins);
  }

  method ApplyAll(configurations: seq<LoadConfiguration>, relays: RelayController, node: Node, gpio: Gpio,
                  ghost h: Hardware)
    returns (failure: Failure)
    requires h == Hardware(configurations, node.loads, relays.relays)
    modifies relays, node
    ensures failure == RestoreFailure(node.mac, h, gpio)
    ensures Hardware(configurations, node.loads, relays.relays) == Restored(node.mac, h, gpio)
  {
    var appliedPins: seq<Byte> := [];
    for i := 0 to |configurations|
      invariant Reached(node.mac, h, gpio, i, node.loads, relays.relays)
      invariant appliedPins == Pins(ConfiguredPin, configurations[..i])
    {
      var c := configurations[i];
      ReachNext(node.mac, h, gpio, i, node.loads, relays.relays);
      failure := ApplyOne(c, relays, node, gpio(c.pin), Hardware(configurations, node.loads, relays.relays));
      if failure != NoFailure {
        UndoRestore(relays, node, appliedPins, gpio, h, i);
        return;
      }
      PinsNext(configurations, i);
      appliedPins := appliedPins + [c.pin];
    }
    return NoFailure;
  }

  lemma PinsNext(cs: seq<LoadConfiguration>, i: nat)
    requires i < |cs|
    ensures Pins(ConfiguredPin, cs[..i + 1]) == Pins(ConfiguredPin, cs[..i]) + [cs[i].pin]
  {
    assert cs[..i + 1] == cs[..i] + [cs[i]];
  }

  method EraseFromBoth(relays: RelayController, node: Node, pins: seq<Byte>)
    modifies relays, node
    ensures node.loads == ErasePins(PinOf, old(node.loads), pins)
    ensures relays.relays == ErasePins(RelayPin, old(relays.relays), pins)
  {
    for i := 0 to |pins|
      invariant node.loads == ErasePins(PinOf, old(node.loads), pins[..i])
      invariant relays.relays == ErasePins(RelayPin, old(relays.relays), pins[..i])
    {
      assert pins[..i + 1][..i] == pins[..i];
      var loadRemoved := node.RemoveLoadByRelayPin(pins[i]);
      var relayRemoved := relays.RemoveRelay(pins[i]);
    }
    assert pins[..|pins|] == pins;
  }

  // ---------------------------------------------------------------------------------------------------
  // Taking back a part-way restore
  // ---------------------------------------------------------------------------------------------------

  lemma {:induction false} FailureStays(mac: MacAddress, h: Hardware, gpio: Gpio, n: nat, m: nat)
    requires n <= m <= |h.configurations| && AppliedUpTo(mac, h, gpio, n).1 != NoFailure
    ensures AppliedUpTo(mac, h, gpio, m).1 == AppliedUpTo(mac, h, gpio, n).1
    decreases m
  {
    if n < m { FailureStays(mac, h, gpio, n, m - 1); }
  }

  function LoadsOf(mac: MacAddress, cs: seq<LoadConfiguration>): (loads: seq<LoadRecord>)
    ensures |loads| == |cs| && forall i | 0 <= i < |cs| :: loads[i] == LoadOf(mac, cs[i])
  {
    seq(|cs|, i requires 0 <= i < |cs| => LoadOf(mac, cs[i]))
  }

  function RelaysOf(cs: seq<LoadConfiguration>): (relays: seq<RegisteredRelay>)
    ensures |relays| == |cs| && forall i | 0 <= i < |cs| :: relays[i] == RelayOf(cs[i])
  {
    seq(|cs|, i requires 0 <= i < |cs| => RelayOf(cs[i]))
  }

  /** A configuration that a restore can apply beside the loads and relays already there. */
  ghost predicate Applicable(h: Hardware, c: LoadConfiguration, gpio: Gpio) {
    && !HasPin(PinOf, h.loads, c.pin) && !HasPin(RelayPin, h.relays, c.pin)
    && gpio(c.pin) && (IsAuto(c.mode) ==> ValidSchedule(c.schedule))
  }

  lemma FreeBeside<T>(pinOf: T -> Byte, s: seq<T>, t: seq<T>, pin: Byte)
    ensures HasPin(pinOf, s + t, pin) <==> HasPin(pinOf, s, pin) || HasPin(pinOf, t, pin)
  {
    var all := s + t;
    if i :| 0 <= i < |s| && pinOf(s[i]) == pin { assert pinOf(all[i]) == pin; }
    if i :| 0 <= i < |t| && pinOf(t[i]) == pin { assert pinOf(all[|s| + i]) == pin; }
  }

  ghost predicate AllApplicable(h: Hardware, cs: seq<LoadConfiguration>, gpio: Gpio) {
    DistinctPins(ConfiguredPin, cs) && forall c <- cs :: Applicable(h, c, gpio)
  }

  lemma ApplicableNext(h: Hardware, init: seq<LoadConfiguration>, c: LoadConfiguration, gpio: Gpio)
    ensures AllApplicable(h, init + [c], gpio) <==>
            AllApplicable(h, init, gpio) && !HasPin(ConfiguredPin, init, c.pin) && Applicable(h, c, gpio)
  {
    DistinctAppend(init, c);
    assert forall x :: x in init + [c] <==> x in init || x == c;
  }

  lemma AppliesBeside(mac: MacAddress, h: Hardware, before: Hardware, init: seq<LoadConfiguration>,
                      c: LoadConfiguration, gpio: Gpio)
    requires before.loads == h.loads + LoadsOf(mac, init) && before.relays == h.relays + RelaysOf(init)
    ensures ApplyFailure(before, c, gpio(c.pin)) == NoFailure <==>
            !HasPin(ConfiguredPin, init, c.pin) && Applicable(h, c, gpio)
  {
    FreeBeside(PinOf, h.loads, LoadsOf(mac, init), c.pin);
    FreeBeside(RelayPin, h.relays, RelaysOf(init), c.pin);
    PinsInStep(mac, init, c.pin);
  }

  lemma OfAppended(mac: MacAddress, init: seq<LoadConfiguration>, c: LoadConfiguration)
    ensures LoadsOf(mac, init + [c]) == LoadsOf(mac, init) + [LoadOf(mac, c)]
    ensures RelaysOf(init + [c]) == RelaysOf(init) + [RelayOf(c)]
  {
  }

  /**
   * A restore gets as far as n exactly when the first n configurations are applicable and share no pin; it then has
   * appended their loads and relays.
   */
  lemma {:induction false} AppendedUpTo(mac: MacAddress, h: Hardware, gpio: Gpio, n: nat)
    requires n <= |h.configurations|
    ensures var (after, failure) := AppliedUpTo(mac, h, gpio, n);
            var cs := h.configurations[..n];
            && (failure == NoFailure <==> AllApplicable(h, cs, gpio))
            && (failure == NoFailure ==>
               after.loads == h.loads + LoadsOf(mac, cs) && after.relays == h.relays + RelaysOf(cs))
  {
    if n > 0 {
      AppendedUpTo(mac, h, gpio, n - 1);
      var (before, failure) := AppliedUpTo(mac, h, gpio, n - 1);
      var init, c := h.configurations[..n - 1], h.configurations[n - 1];
      assert h.configurations[..n] == init + [c];
      ApplicableNext(h, init, c, gpio);
      if failure == NoFailure { AppendedNext(mac, h, before, init, c, gpio); }
    }
  }

  lemma AppendedNext(mac: MacAddress, h: Hardware, before: Hardware, init: seq<LoadConfiguration>, c: LoadConfiguration,
                     gpio: Gpio)
    requires before.loads == h.loads + LoadsOf(mac, init) && before.relays == h.relays + RelaysOf(init)
    ensures ApplyFailure(before, c, gpio(c.pin)) == NoFailure <==>
            !HasPin(ConfiguredPin, init, c.pin) && Applicable(h, c, gpio)
    ensures Applied(mac, before, c).loads == h.loads + LoadsOf(mac, init + [c])
    ensures Applied(mac, before, c).relays == h.relays + RelaysOf(init + [c])
  {
    AppliesBeside(mac, h, before, init, c, gpio);
    OfAppended(mac, init, c);
  }

  lemma PinsInStep(mac: MacAddress, cs: seq<LoadConfiguration>, pin: Byte)
    ensures HasPin(PinOf, LoadsOf(mac, cs), pin) <==> HasPin(ConfiguredPin, cs, pin)
    ensures HasPin(RelayPin, RelaysOf(cs), pin) <==> HasPin(ConfiguredPin, cs, pin)
  {
    if i :| 0 <= i < |cs| && ConfiguredPin(cs[i]) == pin {
      assert PinOf(LoadsOf(mac, cs)[i]) == pin && RelayPin(RelaysOf(cs)[i]) == pin;
    }
    if i :| 0 <= i < |cs| && PinOf(LoadsOf(mac, cs)[i]) == pin { assert ConfiguredPin(cs[i]) == pin; }
    if i :| 0 <= i < |cs| && RelayPin(RelaysOf(cs)[i]) == pin { assert ConfiguredPin(cs[i]) == pin; }
  }

  lemma DistinctAppend(cs: seq<LoadConfiguration>, c: LoadConfiguration)
    ensures DistinctPins(ConfiguredPin, cs + [c]) <==>
            DistinctPins(ConfiguredPin, cs) && !HasPin(ConfiguredPin, cs, c.pin)
  {
    var all := cs + [c];
    if DistinctPins(ConfiguredPin, all) {
      forall i, j | 0 <= i < j < |cs| ensures ConfiguredPin(cs[i]) != ConfiguredPin(cs[j]) {
        assert all[i] == cs[i] && all[j] == cs[j];
      }
      forall i | 0 <= i < |cs| ensures ConfiguredPin(cs[i]) != c.pin { assert all[i] == cs[i] && all[|cs|] == c; }
    }
  }

  lemma TakenBack(mac: MacAddress, h: Hardware, gpio: Gpio, n: nat)
    requires n <= |h.configurations| && AppliedUpTo(mac, h, gpio, n).1 == NoFailure
    ensures var after, pins := AppliedUpTo(mac, h, gpio, n).0, Pins(ConfiguredPin, h.configurations[..n]);
            ErasePins(PinOf, after.loads, pins) == h.loads && ErasePins(RelayPin, after.relays, pins) == h.relays
  {
    AppendedUpTo(mac, h, gpio, n);
    var cs := h.configurations[..n];
    assert Pins(PinOf, LoadsOf(mac, cs)) == Pins(ConfiguredPin, cs) == Pins(RelayPin, RelaysOf(cs));
    forall i | 0 <= i < n ensures Applicable(h, cs[i], gpio) { assert cs[i] in cs; }
    EraseAppendedAll(PinOf, h.loads, LoadsOf(mac, cs));
    EraseAppendedAll(RelayPin, h.relays, RelaysOf(cs));
  }

  // ---------------------------------------------------------------------------------------------------
  // The three vectors stay in step
  // ---------------------------------------------------------------------------------------------------

  /** Every load and every relay is the one its configuration describes, in the same order. */
  ghost predicate InStep(mac: MacAddress, h: Hardware) {
    && |h.configurations| <= MAX_CONFIGURED_LOADS && DistinctPins(ConfiguredPin, h.configurations)
    && h.loads == LoadsOf(mac, h.configurations) && h.relays == RelaysOf(h.configurations)
  }

  /** Being in step is more than agreeing on pins. */
  lemma InStepPins(mac: MacAddress, h: Hardware)
    requires InStep(mac, h)
    ensures Pins(ConfiguredPin, h.configurations) == Pins(PinOf, h.loads) == Pins(RelayPin, h.relays)
    ensures DistinctPins(PinOf, h.loads) && DistinctPins(RelayPin, h.relays)
  {
  }

  /** One operation, with what the GPIO driver and the flash answer. */
  datatype Operation =
    | Configure(c: LoadConfiguration, gpio: bool, saved: bool)
    | Remove(pin: Byte, gpio: bool, saved: bool)
    | Clear(answers: Gpio, saved: bool)
    | Restore(answers: Gpio)

  function FailureOf(mac: MacAddress, h: Hardware, op: Operation): Failure {
    match op
    case Configure(c, gpio, saved) => ConfigureFailure(h, c, gpio, saved)
    case Remove(pin, gpio, saved) => RemoveFailure(h, pin, gpio, saved)
    case Clear(answers, saved) => ClearFailure(h, answers, saved)
    case Restore(answers) => RestoreFailure(mac, h, answers)
  }

  function Operated(mac: MacAddress, h: Hardware, op: Operation): Hardware {
    if FailureOf(mac, h, op) != NoFailure then h
    else match op
      case Configure(c, _, _) => Configured(mac, h, c)
      case Remove(pin, _, _) => Without(h, pin)
      case Clear(_, _) => Cleared(h)
      case Restore(answers) => Restored(mac, h, answers)
  }

  function OperatedAll(mac: MacAddress, h: Hardware, ops: seq<Operation>): Hardware {
    if ops == [] then h else Operated(mac, OperatedAll(mac, h, ops[..|ops| - 1]), ops[|ops| - 1])
  }

  lemma ConfiguredInStep(mac: MacAddress, h: Hardware, c: LoadConfiguration)
    requires InStep(mac, h) && NewConfigurationFailure(h.configurations, c) == NoFailure
    ensures InStep(mac, Configured(mac, h, c))
  {
    DistinctAppend(h.configurations, c);
    OfAppended(mac, h.configurations, c);
  }

  lemma OfErased(mac: MacAddress, cs: seq<LoadConfiguration>, k: nat)
    requires k < |cs|
    ensures LoadsOf(mac, cs[..k] + cs[k + 1..]) == LoadsOf(mac, cs)[..k] + LoadsOf(mac, cs)[k + 1..]
    ensures RelaysOf(cs[..k] + cs[k + 1..]) == RelaysOf(cs)[..k] + RelaysOf(cs)[k + 1..]
  {
  }

  lemma ErasedInStep(mac: MacAddress, h: Hardware, pin: Byte)
    requires InStep(mac, h)
    ensures InStep(mac, Without(h, pin))
  {
    var cs := h.configurations;
    var k := IndexBy(ConfiguredPin, cs, pin);
    ErasePinDistinct(ConfiguredPin, cs, pin);
    EraseIndex(mac, h, pin);
    if k < |cs| { OfErased(mac, cs, k); }
  }

  lemma EraseIndex(mac: MacAddress, h: Hardware, pin: Byte)
    requires InStep(mac, h)
    ensures IndexBy(PinOf, h.loads, pin) == IndexBy(ConfiguredPin, h.configurations, pin) ==
            IndexBy(RelayPin, h.relays, pin)
  {
    PinsInStep(mac, h.configurations, pin);
    assert forall i | 0 <= i < |h.configurations| ::
           PinOf(h.loads[i]) == ConfiguredPin(h.configurations[i]) == RelayPin(h.relays[i]);
  }

  lemma ClearedIsEmpty(mac: MacAddress, h: Hardware)
    requires InStep(mac, h)
    ensures Cleared(h) == Hardware([], [], [])
  {
    InStepPins(mac, h);
    assert [] + h.loads == h.loads && [] + h.relays == h.relays;
    EraseAppendedAll(PinOf, [], h.loads);
    EraseAppendedAll(RelayPin, [], h.relays);
  }

  /** A restore beside loads that are already there changes nothing, for the first pin is taken. */
  lemma RestoreAgainChangesNothing(mac: MacAddress, h: Hardware, gpio: Gpio)
    requires InStep(mac, h)
    ensures Restored(mac, h, gpio) == h
  {
    AppendedUpTo(mac, h, gpio, |h.configurations|);
    if h.configurations != [] {
      PinsInStep(mac, h.configurations, h.configurations[0].pin);
      assert h.configurations[..|h.configurations|] == h.configurations && h.configurations[0] in h.configurations;
      assert ConfiguredPin(h.configurations[0]) == h.configurations[0].pin;
    } else {
      assert LoadsOf(mac, []) == [] && RelaysOf([]) == [];
    }
  }

  lemma OperatedInStep(mac: MacAddress, h: Hardware, op: Operation)
    requires InStep(mac, h)
    ensures InStep(mac, Operated(mac, h, op))
  {
    if FailureOf(mac, h, op) == NoFailure {
      match op
      case Configure(c, _, _) => ConfiguredInStep(mac, h, c);
      case Remove(pin, _, _) => ErasedInStep(mac, h, pin);
      case Clear(_, _) => ClearedIsEmpty(mac, h);
      case Restore(answers) => RestoreAgainChangesNothing(mac, h, answers);
    }
  }

  /** Whatever hardware and flash answer, any run of operations keeps the three vectors in step. */
  lemma {:induction false} RunStaysInStep(mac: MacAddress, h: Hardware, ops: seq<Operation>)
    requires InStep(mac, h)
    ensures InStep(mac, OperatedAll(mac, h, ops))
  {
    if ops != [] {
      RunStaysInStep(mac, h, ops[..|ops| - 1]);
      OperatedInStep(mac, OperatedAll(mac, h, ops[..|ops| - 1]), ops[|ops| - 1]);
    }
  }

  /** A load as its configuration words it, on this Node. */
  ghost predicate DescribedBy(mac: MacAddress, l: LoadRecord, c: LoadConfiguration) {
    && l.id.mac == mac && l.id.pin == c.pin && l.mode == c.mode
    && l.priority == c.priority && l.powerType == c.powerType
    && |l.name| <= NAME_SIZE && l.name == c.name[..|l.name|] && '\0' !in l.name
    && (|l.name| < NAME_SIZE ==> c.name[|l.name|] == '\0')
    && (c.watts.Finite? && c.watts.value >= 0.0 ==> l.watts == c.watts.value)
    && (c.mode.FixedOff? || c.mode.FixedOn? || !c.schedule.enabled ==> l.schedule == AutoSchedule(false, 0, 0, 0, 0))
    && (!(c.mode.FixedOff? || c.mode.FixedOn?) && c.schedule.enabled && ValidSchedule(c.schedule) ==>
          l.schedule == c.schedule)
  }

  /** A relay that conducts exactly when commanded to, and at first exactly when the load's mode is an ON mode. */
  ghost predicate ObeysAs(r: RegisteredRelay, c: LoadConfiguration) {
    && r.hardwareApplied && r.configuration.pin == c.pin
    && (forall on :: Conducts(c.activeHigh, DrivenHigh(r.configuration, on)) <==> on)
    && (Conducts(c.activeHigh, DrivenHigh(r.configuration, r.configuration.initialStateOn)) <==>
        c.mode.FixedOn? || c.mode.AutoOn?)
  }

  /**
   * What being in step is worth, after any run: each load is as its configuration words it, and its relay, driven by
   * its entry in the table, conducts exactly when commanded on, however it is wired.
   */
  lemma RunLoadsAndRelaysObey(mac: MacAddress, h: Hardware, ops: seq<Operation>, i: nat)
    requires InStep(mac, h) && i < |OperatedAll(mac, h, ops).configurations|
    ensures var out := OperatedAll(mac, h, ops);
            && |out.loads| == |out.relays| == |out.configurations|
            && DescribedBy(mac, out.loads[i], out.configurations[i]) && ObeysAs(out.relays[i], out.configurations[i])
  {
    RunStaysInStep(mac, h, ops);
  }

  // When the operations succeed.

  /** A configuration a store in step accepts, beside those it holds. */
  ghost predicate Welcome(configurations: seq<LoadConfiguration>, c: LoadConfiguration) {
    && (exists n :: 0 < n < 16 && c.name[n] == '\0' && forall i | 0 <= i < n :: c.name[i] != '\0')
    && c.priority <= 10 && c.watts.Finite? && c.watts.value >= 0.0
    && (c.schedule.enabled ==>
          && c.schedule.startHour < 24 && c.schedule.startMinute < 60 && c.schedule.endHour < 24
          && c.schedule.endMinute < 60
          && (c.schedule.startHour, c.schedule.startMinute) != (c.schedule.endHour, c.schedule.endMinute))
    && |configurations| < 16 && forall d <- configurations :: d.pin != c.pin
  }

  lemma WellNamedExactly(c: LoadConfiguration)
    ensures WellNamed(c) <==> exists n :: 0 < n < 16 && c.name[n] == '\0' && forall i | 0 <= i < n :: c.name[i] != '\0'
  {
    var name := CString(c.name);
    forall i | 0 <= i < |name| ensures c.name[i] != '\0' { assert name[i] == c.name[i] && name[i] in name; }
    if WellNamed(c) { assert 0 < |name| < 16 && c.name[|name|] == '\0'; }
    if n :| 0 < n < 16 && c.name[n] == '\0' && forall i | 0 <= i < n :: c.name[i] != '\0' { assert |name| == n; }
  }

  lemma WelcomeExactly(configurations: seq<LoadConfiguration>, c: LoadConfiguration)
    ensures NewConfigurationFailure(configurations, c) == NoFailure <==> Welcome(configurations, c)
  {
    WellNamedExactly(c);
    if d :| d in configurations && d.pin == c.pin { assert ConfiguredPin(d) == c.pin; }
  }

  /** A load is configured exactly if its configuration is welcome and neither its GPIO nor the flash fails. */
  lemma ConfiguresExactly(mac: MacAddress, h: Hardware, c: LoadConfiguration, gpio: bool, saved: bool)
    requires InStep(mac, h)
    ensures ConfigureFailure(h, c, gpio, saved) == NoFailure <==> Welcome(h.configurations, c) && gpio && saved
  {
    WelcomeExactly(h.configurations, c);
    PinsInStep(mac, h.configurations, c.pin);
  }

  /** And the reason given otherwise is true. */
  lemma ReasonIsTrue(mac: MacAddress, h: Hardware, c: LoadConfiguration, gpio: bool, saved: bool)
    requires InStep(mac, h)
    ensures match ConfigureFailure(h, c, gpio, saved)
            case NoFailure => true
            case InvalidConfiguration => !WellNamed(c) || c.priority > 10 || !ValidSchedule(c.schedule)
            case InvalidPowerRating => c.watts.NotFinite? || c.watts.value < 0.0
            case CapacityReached => |h.configurations| == 16
            case DuplicateRelayPin => exists d :: d in h.configurations && d.pin == c.pin
            case HardwareInitializationFailed => !gpio
            case PersistenceFailed => gpio && !saved
  {
    PinsInStep(mac, h.configurations, c.pin);
    if ConfigureFailure(h, c, gpio, saved) == DuplicateRelayPin {
      var i :| 0 <= i < |h.configurations| && ConfiguredPin(h.configurations[i]) == c.pin;
      assert h.configurations[i] in h.configurations;
    }
  }

  lemma InStepDrivable(mac: MacAddress, h: Hardware, pin: Byte, gpio: bool)
    requires InStep(mac, h) && HasPin(ConfiguredPin, h.configurations, pin)
    ensures Drivable(h.relays, pin, gpio) <==> gpio
  {
    EraseIndex(mac, h, pin);
  }

  /** A load is removed exactly if it is configured, its relay can be driven OFF and the flash takes the rest. */
  lemma RemovesExactly(mac: MacAddress, h: Hardware, pin: Byte, gpio: bool, saved: bool)
    requires InStep(mac, h)
    ensures RemoveFailure(h, pin, gpio, saved) ==
            if forall d <- h.configurations :: d.pin != pin then InvalidConfiguration
            else if !gpio then HardwareInitializationFailed
            else if !saved then PersistenceFailed
            else NoFailure
    ensures forall d :: d in Without(h, pin).configurations <==> d in h.configurations && d.pin != pin
  {
    ErasePinMembers(ConfiguredPin, h.configurations, pin);
    if HasPin(ConfiguredPin, h.configurations, pin) {
      InStepDrivable(mac, h, pin, gpio);
      assert h.configurations[IndexBy(ConfiguredPin, h.configurations, pin)] in h.configurations;
    }
    if d :| d in h.configurations && d.pin == pin { assert ConfiguredPin(d) == pin; }
  }

  /** All loads are cleared exactly if every relay can be driven OFF and the flash takes the empty list. */
  lemma ClearsExactly(mac: MacAddress, h: Hardware, gpio: Gpio, saved: bool)
    requires InStep(mac, h)
    ensures ClearFailure(h, gpio, saved) ==
            if exists c :: c in h.configurations && !gpio(c.pin) then HardwareInitializationFailed
            else if !saved then PersistenceFailed
            else NoFailure
  {
    forall i | 0 <= i < |h.configurations|
      ensures Drivable(h.relays, h.configurations[i].pin, gpio(h.configurations[i].pin)) <==>
              gpio(h.configurations[i].pin)
    {
      assert ConfiguredPin(h.configurations[i]) == h.configurations[i].pin;
      InStepDrivable(mac, h, h.configurations[i].pin, gpio(h.configurations[i].pin));
    }
  }

  /**
   * From an empty Node a restore succeeds exactly when the stored pins differ, every GPIO can be configured and every
   * AUTO schedule is a window; then everything is in step, otherwise the Node stays empty.
   */
  lemma RestoreFromEmpty(mac: MacAddress, cs: seq<LoadConfiguration>, gpio: Gpio)
    requires |cs| <= MAX_CONFIGURED_LOADS
    ensures var h := Hardware(cs, [], []);
            && (RestoreFailure(mac, h, gpio) == NoFailure <==>
                DistinctPins(ConfiguredPin, cs) && forall c <- cs ::
                    gpio(c.pin) && (IsAuto(c.mode) ==> ValidSchedule(c.schedule)))
            && (if RestoreFailure(mac, h, gpio) ==
               NoFailure then InStep(mac, Restored(mac, h, gpio)) else Restored(mac, h, gpio) == h)
  {
    var h := Hardware(cs, [], []);
    AppendedUpTo(mac, h, gpio, |cs|);
    assert cs[..|cs|] == cs;
    ApplicableToEmpty(cs, gpio);
    EmptyPlus(LoadsOf(mac, cs));
    EmptyPlus(RelaysOf(cs));
  }

  lemma EmptyPlus<T>(s: seq<T>)
    ensures [] + s == s
  {
  }

  lemma ApplicableToEmpty(cs: seq<LoadConfiguration>, gpio: Gpio)
    ensures AllApplicable(Hardware(cs, [], []), cs, gpio) <==>
            DistinctPins(ConfiguredPin, cs) && forall c <- cs ::
                gpio(c.pin) && (IsAuto(c.mode) ==> ValidSchedule(c.schedule))
  {
    assert forall c <- cs ::
           Applicable(Hardware(cs, [], []), c, gpio) <==> gpio(c.pin) && (IsAuto(c.mode) ==> ValidSchedule(c.schedule));
  }

  /** Configuring a load and removing it again leaves no trace. */
  lemma ConfigureThenRemove(mac: MacAddress, h: Hardware, c: LoadConfiguration)
    requires InStep(mac, h) && NewConfigurationFailure(h.configurations, c) == NoFailure
    ensures ConfigureFailure(h, c, true, true) == NoFailure
    ensures RemoveFailure(Configured(mac, h, c), c.pin, true, true) == NoFailure
    ensures Without(Configured(mac, h, c), c.pin) == h
  {
    PinsInStep(mac, h.configurations, c.pin);
    EraseAppended(ConfiguredPin, h.configurations, c);
    EraseAppended(PinOf, h.loads, LoadOf(mac, c));
    EraseAppended(RelayPin, h.relays, RelayOf(c));
    var out := Configured(mac, h, c);
    assert ConfiguredPin(out.configurations[|h.configurations|]) == c.pin;
    ConfiguredInStep(mac, h, c);
    PinsInStep(mac, out.configurations, c.pin);
    var k := IndexBy(RelayPin, out.relays, c.pin);
    assert out.relays[k] == RelayOf(out.configurations[k]);
  }
}
