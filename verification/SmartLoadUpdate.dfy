/** The console's update of a configured load: remove it, then configure the changed one. */
module SmartLoadUpdates {
  import opened Common
  import opened Loads
  import opened PinLists
  import opened Relays
  import opened HardwareStores

  datatype LoadUpdate = LoadUpdate(pin: Byte, priority: Option<Word>, mode: Option<Mode>,
                                   schedule: Option<AutoSchedule>)

  /** What hardware and flash answer to the removal and to the configuration that follows it. */
  datatype Answers = Answers(offWritten: bool, removalSaved: bool, gpioConfigured: bool, configurationSaved: bool)

  datatype UpdateResult = Updated | NotFound | Failed(failure: Failure)

  function Changed(c: LoadConfiguration, u: LoadUpdate): LoadConfiguration {
    c.(priority := if u.priority.Some? then u.priority.value else c.priority,
       mode := if u.mode.Some? then u.mode.value else c.mode,
       schedule := if u.schedule.Some? then u.schedule.value else c.schedule)
  }

  method UpdateLoad(store: NodeLoadHardwareStore, u: LoadUpdate, answers: Answers) returns (result: UpdateResult)
    modifies store, store.relays, store.node
    ensures (store.State(), result) == UpdateOf(store.node.mac, old(store.State()), u, answers)
  {
    var k := IndexBy(ConfiguredPin, store.configurations, u.pin);
    if k == |store.configurations| {
      return NotFound;
    }
    var updated := Changed(store.configurations[k], u);
    var ignored := store.RemoveLoad(u.pin, answers.offWritten, answers.removalSaved);
    var failure := store.ConfigureNewLoad(updated, answers.gpioConfigured, answers.configurationSaved);
    return if failure == NoFailure then Updated else Failed(failure);
  }

  function UpdateOf(mac: MacAddress, h: Hardware, u: LoadUpdate, answers: Answers): (Hardware, UpdateResult) {
    var k := IndexBy(ConfiguredPin, h.configurations, u.pin);
    if k == |h.configurations| then (h, NotFound)
    else
      var updated := Changed(h.configurations[k], u);
      var removed := if Removes(h, u.pin, answers) then Without(h, u.pin) else h;
      var failure := ConfigureFailure(removed, updated, answers.gpioConfigured, answers.configurationSaved);
      if failure == NoFailure then (Configured(mac, removed, updated), Updated) else (removed, Failed(failure))
  }

  predicate Removes(h: Hardware, pin: Byte, answers: Answers) {
    RemoveFailure(h, pin, answers.offWritten, answers.removalSaved) == NoFailure
  }

  /** The change itself is one the store accepts. */
  predicate Acceptable(c: LoadConfiguration, u: LoadUpdate) {
    Changed(c, u).priority <= 10 && ValidSchedule(Changed(c, u).schedule)
  }

  /** Configurations the store holds were valid when they were configured or restored. */
  ghost predicate AllValid(h: Hardware) {
    forall c <- h.configurations ::
        WellNamed(c) && c.priority <= 10 && ValidSchedule(c.schedule) && FiniteNonNegative(c.watts)
  }

  lemma OperatedStaysValid(mac: MacAddress, h: Hardware, op: Operation)
    requires AllValid(h) && InStep(mac, h)
    ensures AllValid(Operated(mac, h, op))
  {
    if FailureOf(mac, h, op) == NoFailure {
      match op
      case Configure(c, _, _) =>
      case Remove(pin, _, _) => ErasePinMembers(ConfiguredPin, h.configurations, pin);
      case Clear(_, _) =>
      case Restore(answers) => RestoreAgainChangesNothing(mac, h, answers);
    }
  }

  /** So every run of operations keeps what an update relies on. */
  lemma {:induction false} RunStaysValid(mac: MacAddress, h: Hardware, ops: seq<Operation>)
    requires AllValid(h) && InStep(mac, h)
    ensures AllValid(OperatedAll(mac, h, ops)) && InStep(mac, OperatedAll(mac, h, ops))
  {
    RunStaysInStep(mac, h, ops);
    if ops != [] {
      RunStaysValid(mac, h, ops[..|ops| - 1]);
      OperatedStaysValid(mac, OperatedAll(mac, h, ops[..|ops| - 1]), ops[|ops| - 1]);
    }
  }

  lemma RemovalAnswers(mac: MacAddress, h: Hardware, pin: Byte, answers: Answers)
    requires InStep(mac, h) && HasPin(ConfiguredPin, h.configurations, pin)
    ensures Removes(h, pin, answers) <==> answers.offWritten && answers.removalSaved
  {
    EraseIndex(mac, h, pin);
  }

  lemma FreeAfterRemoval(mac: MacAddress, h: Hardware, pin: Byte)
    requires InStep(mac, h) && HasPin(ConfiguredPin, h.configurations, pin)
    ensures InStep(mac, Without(h, pin)) && |Without(h, pin).configurations| == |h.configurations| - 1
    ensures !HasPin(ConfiguredPin, Without(h, pin).configurations, pin)
    ensures !HasPin(PinOf, Without(h, pin).loads, pin) && !HasPin(RelayPin, Without(h, pin).relays, pin)
  {
    ErasedInStep(mac, h, pin);
    ErasePinDistinct(ConfiguredPin, h.configurations, pin);
    PinsInStep(mac, Without(h, pin).configurations, pin);
  }

  lemma ChangedIsNewcomer(rest: seq<LoadConfiguration>, c: LoadConfiguration, u: LoadUpdate)
    requires WellNamed(c) && FiniteNonNegative(c.watts) && |rest| < MAX_CONFIGURED_LOADS &&
             !HasPin(ConfiguredPin, rest, c.pin)
    ensures NewConfigurationFailure(rest, Changed(c, u)) == NoFailure <==> Acceptable(c, u)
  {
  }

  lemma ReconfigureAfterRemoval(mac: MacAddress, h: Hardware, c: LoadConfiguration, u: LoadUpdate, gpio: bool,
                                saved: bool)
    requires InStep(mac, h) && AllValid(h) && c in h.configurations && c.pin == u.pin
    ensures ConfigureFailure(Without(h, u.pin), Changed(c, u), gpio, saved) == NoFailure <==>
            Acceptable(c, u) && gpio && saved
  {
    assert ConfiguredPin(c) == u.pin;
    FreeAfterRemoval(mac, h, u.pin);
    ChangedIsNewcomer(Without(h, u.pin).configurations, c, u);
    FreeToApply(Without(h, u.pin), Changed(c, u), gpio);
  }

  lemma FreeToApply(h: Hardware, c: LoadConfiguration, gpio: bool)
    requires !HasPin(PinOf, h.loads, c.pin) && !HasPin(RelayPin, h.relays, c.pin)
    ensures ApplyFailure(h, c, gpio) == NoFailure <==> gpio && (IsAuto(c.mode) ==> ValidSchedule(c.schedule))
  {
  }

  lemma NoReconfigureWithoutRemoval(h: Hardware, c: LoadConfiguration, u: LoadUpdate, gpio: bool, saved: bool)
    requires c in h.configurations && c.pin == u.pin
    ensures ConfigureFailure(h, Changed(c, u), gpio, saved) != NoFailure
  {
    assert ConfiguredPin(c) == u.pin;
  }

  /**
   * An update succeeds exactly when the changed load is acceptable and hardware and flash agree at all four points;
   * the load is then the changed one, moved to the end.
   */
  lemma UpdateSucceeds(mac: MacAddress, h: Hardware, u: LoadUpdate, answers: Answers)
    requires InStep(mac, h) && AllValid(h) && HasPin(ConfiguredPin, h.configurations, u.pin)
    ensures var c := h.configurations[IndexBy(ConfiguredPin, h.configurations, u.pin)];
            var (after, result) := UpdateOf(mac, h, u, answers);
            && (result == Updated <==>
                Acceptable(c, u) && answers.offWritten && answers.removalSaved && answers.gpioConfigured &&
                    answers.configurationSaved)
            && (result == Updated ==> InStep(mac, after) && after == Configured(mac, Without(h, u.pin), Changed(c, u)))
  {
    var c := h.configurations[IndexBy(ConfiguredPin, h.configurations, u.pin)];
    assert c in h.configurations;
    RemovalAnswers(mac, h, u.pin, answers);
    ReconfigureAfterRemoval(mac, h, c, u, answers.gpioConfigured, answers.configurationSaved);
    NoReconfigureWithoutRemoval(h, c, u, answers.gpioConfigured, answers.configurationSaved);
    ErasedInStep(mac, h, u.pin);
    if UpdateOf(mac, h, u, answers).1 == Updated { ConfiguredInStep(mac, Without(h, u.pin), Changed(c, u)); }
  }

  /** A successful update leaves the load as asked for, and all other configurations as they were. */
  lemma UpdatedAsAsked(mac: MacAddress, h: Hardware, u: LoadUpdate, answers: Answers)
    requires InStep(mac, h) && AllValid(h) && HasPin(ConfiguredPin, h.configurations, u.pin)
    requires UpdateOf(mac, h, u, answers).1 == Updated
    ensures var c := h.configurations[IndexBy(ConfiguredPin, h.configurations, u.pin)];
            var after := UpdateOf(mac, h, u, answers).0;
            var asked := if u.schedule.Some? then u.schedule.value else c.schedule;
            && after.loads != []
            && var l := after.loads[|after.loads| - 1];
               && l.id == LoadId(mac, u.pin) && c.watts.Finite? && l.watts == c.watts.value
               && l.powerType == c.powerType
               && l.priority == (if u.priority.Some? then u.priority.value else c.priority)
               && l.mode == (if u.mode.Some? then u.mode.value else c.mode)
               && l.schedule == (if asked.enabled && (l.mode.AutoOff? || l.mode.AutoOn?) then asked
                                 else AutoSchedule(false, 0, 0, 0, 0))
    ensures forall d: LoadConfiguration | d.pin != u.pin ::
              d in UpdateOf(mac, h, u, answers).0.configurations <==> d in h.configurations
  {
    var c := h.configurations[IndexBy(ConfiguredPin, h.configurations, u.pin)];
    assert c in h.configurations;
    UpdateSucceeds(mac, h, u, answers);
    ErasePinMembers(ConfiguredPin, h.configurations, u.pin);
  }

  lemma RemovedLoadIsGone(mac: MacAddress, h: Hardware, u: LoadUpdate, answers: Answers)
    requires InStep(mac, h) && HasPin(ConfiguredPin, h.configurations, u.pin)
    requires UpdateOf(mac, h, u, answers).1.Failed?
    ensures InStep(mac, UpdateOf(mac, h, u, answers).0)
    ensures UpdateOf(mac, h, u, answers).0 == if answers.offWritten &&
            answers.removalSaved then Without(h, u.pin) else h
  {
    RemovalAnswers(mac, h, u.pin, answers);
    FreeAfterRemoval(mac, h, u.pin);
  }

  /**
   * An update is not a transaction. It either succeeds or leaves everything as it was exactly when the removal fails,
   * or the changed load is acceptable and its GPIO and the flash accept it; otherwise the load is gone from all three
   * vectors.
   */
  lemma UpdateIsAllOrNothingExactly(mac: MacAddress, h: Hardware, u: LoadUpdate, answers: Answers)
    requires InStep(mac, h) && AllValid(h) && HasPin(ConfiguredPin, h.configurations, u.pin)
    ensures var c := h.configurations[IndexBy(ConfiguredPin, h.configurations, u.pin)];
            var (after, result) := UpdateOf(mac, h, u, answers);
            var sound := !(answers.offWritten && answers.removalSaved) ||
                         (Acceptable(c, u) && answers.gpioConfigured && answers.configurationSaved);
            && InStep(mac, after)
            && ((result == Updated || after == h) <==> sound)
            && (!sound ==> after == Without(h, u.pin) && !HasPin(ConfiguredPin, after.configurations, u.pin))
  {
    UpdateSucceeds(mac, h, u, answers);
    FreeAfterRemoval(mac, h, u.pin);
    if UpdateOf(mac, h, u, answers).1.Failed? { RemovedLoadIsGone(mac, h, u, answers); }
  }

  /** For instance: asking for priority 11 deletes the load. */
  lemma BadPriorityDeletesTheLoad(mac: MacAddress, c: LoadConfiguration)
    requires NewConfigurationFailure([], c) == NoFailure
    ensures var h := Configured(mac, Hardware([], [], []), c);
            UpdateOf(mac, h, LoadUpdate(c.pin, Some(11), None, None), Answers(true, true, true, true)) ==
            (Hardware([], [], []), Failed(InvalidConfiguration))
  {
    var empty := Hardware([], [], []);
    var h := Configured(mac, empty, c);
    assert LoadsOf(mac, []) == [] && RelaysOf([]) == [];
    ConfigureThenRemove(mac, empty, c);
    assert h.configurations == [c];
    assert IndexBy(ConfiguredPin, h.configurations, c.pin) == 0;
  }
}
