/** One planning cycle of the Central Node: stored settings, budget, search, decision, relay targets. */
module Planning {
  import opened Common
  import opened Loads
  import opened PowerBudgets
  import opened LoadConfigurations
  import opened RelayDispatch
  import opened BestFirstSearch

  const NOT_REJECTED: Byte := 0
  const POWER_BUDGET_EXCEEDED: Byte := 2

  ghost predicate DistinctLoads(loads: seq<LoadRecord>) {
    forall i, j | 0 <= i < j < |loads| :: loads[i].id != loads[j].id
  }

  ghost predicate GoodLoads(loads: seq<LoadRecord>) {
    DistinctLoads(loads) && forall l <- loads :: LoadInv(l)
  }

  // ---------------------------------------------------------------------------------------------------
  // The filter: positions of the loads taking part, by their part
  // ---------------------------------------------------------------------------------------------------

  datatype Part = AlwaysOff | Candidate | AlwaysOn | Absent

  /** Loads of Nodes that are offline or not commissioned take no part. */
  function PartOf(l: LoadRecord, present: set<MacAddress>): Part {
    if l.id.mac !in present then Absent
    else match l.mode
      case FixedOff => AlwaysOff
      case FixedOn => AlwaysOn
      case AutoOff => Candidate
      case AutoOn => Candidate
  }

  function Positions(loads: seq<LoadRecord>, present: set<MacAddress>, part: Part): (r: seq<nat>)
    ensures InRange(loads, r)
  {
    if loads == [] then []
    else
      var n := |loads| - 1;
      var before := Positions(loads[..n], present, part);
      if PartOf(loads[n], present) == part then before + [n] else before
  }

  /** These are the positions of exactly the loads with this part, in order. */
  ghost predicate Lists(loads: seq<LoadRecord>, present: set<MacAddress>, part: Part, ps: seq<nat>) {
    && (forall i | 0 <= i < |ps| :: ps[i] < |loads| && PartOf(loads[ps[i]], present) == part)
    && Ascending(ps)
    && (forall p {:trigger p in ps} | 0 <= p < |loads| && PartOf(loads[p], present) == part :: p in ps)
  }

  lemma {:induction false} PositionsList(loads: seq<LoadRecord>, present: set<MacAddress>, part: Part)
    ensures Lists(loads, present, part, Positions(loads, present, part))
  {
    if loads != [] { PositionsList(loads[..|loads| - 1], present, part); }
  }

  lemma FilterLists(loads: seq<LoadRecord>, present: set<MacAddress>)
    ensures var f := FilterOf(loads, present);
            && Lists(loads, present, AlwaysOn, f.fixedOn) && Lists(loads, present, AlwaysOff, f.fixedOff)
            && Lists(loads, present, Candidate, f.auto)
  {
    PositionsList(loads, present, AlwaysOn);
    PositionsList(loads, present, AlwaysOff);
    PositionsList(loads, present, Candidate);
  }

  datatype LoadFilter = LoadFilter(fixedOn: seq<nat>, fixedOff: seq<nat>, auto: seq<nat>)

  function FilterOf(loads: seq<LoadRecord>, present: set<MacAddress>): LoadFilter {
    LoadFilter(Positions(loads, present, AlwaysOn), Positions(loads, present, AlwaysOff),
               Positions(loads, present, Candidate))
  }

  method BuildLoadFilter(loads: seq<LoadRecord>, present: set<MacAddress>) returns (filter: LoadFilter)
    ensures filter == FilterOf(loads, present)
  {
    filter := LoadFilter([], [], []);
    for i := 0 to |loads|
      invariant filter == FilterOf(loads[..i], present)
    {
      assert loads[..i + 1][..i] == loads[..i];
      if loads[i].id.mac in present {
        if loads[i].mode.FixedOn? {
          filter := filter.(fixedOn := filter.fixedOn + [i]);
        } else if loads[i].mode.FixedOff? {
          filter := filter.(fixedOff := filter.fixedOff + [i]);
        } else {
          filter := filter.(auto := filter.auto + [i]);
        }
      }
    }
    assert loads[..|loads|] == loads;
  }

  ghost predicate InRange(loads: seq<LoadRecord>, ps: seq<nat>) { forall i | 0 <= i < |ps| :: ps[i] < |loads| }

  ghost predicate Ascending(ps: seq<nat>) { forall i, j | 0 <= i < j < |ps| :: ps[i] < ps[j] }

  function PowerAt(loads: seq<LoadRecord>, ps: seq<nat>): real
    requires InRange(loads, ps)
  {
    if ps == [] then 0.0 else PowerAt(loads, ps[..|ps| - 1]) + loads[ps[|ps| - 1]].watts
  }

  method SumFixedOnPowerWatts(loads: seq<LoadRecord>, ps: seq<nat>) returns (total: real)
    requires InRange(loads, ps)
    ensures total == PowerAt(loads, ps)
  {
    total := 0.0;
    for i := 0 to |ps|
      invariant total == PowerAt(loads, ps[..i])
    {
      assert ps[..i + 1][..i] == ps[..i];
      total := total + loads[ps[i]].watts;
    }
    assert ps[..|ps|] == ps;
  }

  function CandidatesAt(loads: seq<LoadRecord>, ps: seq<nat>, active: set<LoadId>): (r: seq<AutoLoad>)
    requires InRange(loads, ps)
    ensures |r| == |ps|
    ensures forall i | 0 <= i < |ps| ::
              r[i] == AutoLoad(loads[ps[i]].id, loads[ps[i]].watts, loads[ps[i]].priority, loads[ps[i]].id in active,
                               true)
  {
    seq(|ps|, i requires 0 <= i < |ps| =>
      AutoLoad(loads[ps[i]].id, loads[ps[i]].watts, loads[ps[i]].priority, loads[ps[i]].id in active, true))
  }

  // ---------------------------------------------------------------------------------------------------
  // Settings and decisions, load by load
  // ---------------------------------------------------------------------------------------------------

  ghost predicate SettingsApplied(entries: seq<ConfigurationEntry>, before: seq<LoadRecord>, after: seq<LoadRecord>) {
    |after| == |before| && forall i | 0 <= i < |before| :: after[i] == Applied(entries, before[i])
  }

  method ApplyStoredLoadSettings(store: LoadConfigurationStore, loads: seq<LoadRecord>) returns (out: seq<LoadRecord>)
    ensures SettingsApplied(store.entries, loads, out)
  {
    out := loads;
    for i := 0 to |loads|
      invariant |out| == |loads|
      invariant forall k | 0 <= k < i :: out[k] == Applied(store.entries, loads[k])
      invariant forall k | i <= k < |loads| :: out[k] == loads[k]
    {
      var load := new Load.At(out[i]);
      var applied := store.ApplyToLoad(load);
      out := out[i := load.Record()];
    }
  }

  predicate Chosen(selected: Combination, id: LoadId) { exists i | 0 <= i < |selected| :: selected[i].id == id }

  function WithDecision(l: LoadRecord, on: bool): LoadRecord {
    WithMode(l, if on then AutoOn else AutoOff).(rejection := if on then NOT_REJECTED else POWER_BUDGET_EXCEEDED)
  }

  /**
   * What the cycle makes of a load: a fixed load only loses its rejection note, a candidate is switched by the search.
   */
  function Decided(l: LoadRecord, present: set<MacAddress>, selected: Combination): LoadRecord {
    match PartOf(l, present)
    case Absent => l
    case AlwaysOn => l.(rejection := NOT_REJECTED)
    case AlwaysOff => l.(rejection := NOT_REJECTED)
    case Candidate => WithDecision(l, Chosen(selected, l.id))
  }

  /** Only the start of a window is compared. */
  predicate SchedulesEqual(a: AutoSchedule, b: AutoSchedule) {
    a.enabled == b.enabled && a.startHour == b.startHour && a.startMinute == b.startMinute
  }

  predicate RuntimeChanged(entries: seq<ConfigurationEntry>, l: LoadRecord, on: bool) {
    var mode := if on then AutoOn else AutoOff;
    match Find(entries, l.id)
    case None => true
    case Some(e) =>
      e.priority != l.priority || e.mode != mode || !SchedulesEqual(e.schedule, l.schedule) || l.mode != mode
  }

  method UpdateAutoRuntimeState(store: LoadConfigurationStore, load: Load, requestedOn: bool) returns (changed: bool)
    requires IsAuto(load.mode)
    modifies store, load`mode, load`schedule
    ensures load.Record() == WithMode(old(load.Record()), if requestedOn then AutoOn else AutoOff)
    ensures store.entries == Set(old(store.entries), EntryFor(load.Record()))
    ensures changed <==> RuntimeChanged(old(store.entries), old(load.Record()), requestedOn)
  {
    var newMode := if requestedOn then AutoOn else AutoOff;
    var entry := ConfigurationEntry(load.id, load.priority, newMode, load.schedule);
    var previous := store.FindConfiguration(load.id);
    changed := previous.None? || previous.value.priority != entry.priority || previous.value.mode != entry.mode ||
      !SchedulesEqual(previous.value.schedule, entry.schedule) || load.mode != newMode;
    load.SetMode(newMode);
    var accepted := store.SetConfiguration(entry);
  }

  /** The load carries its stored schedule. */
  predicate CarriesStored(entries: seq<ConfigurationEntry>, l: LoadRecord) {
    match Find(entries, l.id)
    case None => true
    case Some(e) => IsAuto(l.mode) ==> e.schedule == l.schedule
  }

  lemma AppliedCarriesStored(entries: seq<ConfigurationEntry>, l0: LoadRecord)
    requires WellFormed(entries)
    ensures CarriesStored(entries, Applied(entries, l0))
  {
    var k := IndexOfEntry(entries, l0.id);
    assert k < |entries| ==> entries[k] in entries;
  }

  /**
   * The ends of windows are not compared. When no change is reported, the stored list really is what a save would
   * write exactly if the load carries its stored schedule, as a load that was just given its stored settings does.
   */
  lemma NothingToSaveExactly(entries: seq<ConfigurationEntry>, l: LoadRecord, on: bool)
    requires WellFormed(entries) && LoadInv(l) && IsAuto(l.mode) && !RuntimeChanged(entries, l, on)
    ensures Set(entries, EntryFor(WithDecision(l, on))) == entries <==> CarriesStored(entries, l)
  {
    var e, k := EntryFor(WithDecision(l, on)), IndexOfEntry(entries, l.id);
    assert Set(entries, e) == entries[k := e];
    assert entries[k := e][k] == e;
  }

  /** A reported change is one: the stored settings or the load itself will differ. */
  lemma ChangeIsReal(entries: seq<ConfigurationEntry>, l: LoadRecord, on: bool)
    requires LoadInv(l) && IsAuto(l.mode) && RuntimeChanged(entries, l, on)
    ensures Find(entries, l.id) != Some(EntryFor(WithDecision(l, on))) || IsOn(l.mode) != on
  {
  }

  /** Every way of not carrying it: the load's window starts like the stored one and ends otherwise. */
  lemma OnlyWindowEndsAreMissed(entries: seq<ConfigurationEntry>, l: LoadRecord, on: bool)
    requires WellFormed(entries) && LoadInv(l) && IsAuto(l.mode) && !RuntimeChanged(entries, l, on)
    ensures !CarriesStored(entries, l) <==>
            var s := Find(entries, l.id).value.schedule;
            s.enabled && (s.endHour != l.schedule.endHour || s.endMinute != l.schedule.endMinute)
  {
    var k := IndexOfEntry(entries, l.id);
    assert entries[k] in entries;
  }

  // ---------------------------------------------------------------------------------------------------
  // Carrying the selection over to the loads
  // ---------------------------------------------------------------------------------------------------

  function SelectedPower(loads: seq<LoadRecord>, ps: seq<nat>, selected: Combination): real
    requires InRange(loads, ps)
  {
    if ps == [] then 0.0
    else
      var l := loads[ps[|ps| - 1]];
      SelectedPower(loads, ps[..|ps| - 1], selected) + if Chosen(selected, l.id) then l.watts else 0.0
  }

  /** The first n candidates have been decided and their configurations stored. */
  ghost predicate DecidedUpTo(loads: seq<LoadRecord>, ps: seq<nat>, n: nat, selected: Combination,
                              out: seq<LoadRecord>) {
    && n <= |ps| && InRange(loads, ps) && |out| == |loads|
    && (forall i | 0 <= i < n :: out[ps[i]] == WithDecision(loads[ps[i]], Chosen(selected, loads[ps[i]].id)))
    && (forall p | 0 <= p < |loads| && p !in ps[..n] :: out[p] == loads[p])
  }

  /** Every decided load's configuration is in force, and no other load's was touched. */
  ghost predicate StoredUpTo(before: seq<ConfigurationEntry>, entries: seq<ConfigurationEntry>, loads: seq<LoadRecord>,
                             ps: seq<nat>) {
    && WellFormed(entries) && InRange(loads, ps)
    && (forall p <- ps :: InForce(entries, loads[p]))
    && (forall id: LoadId :: (forall p <- ps :: loads[p].id != id) ==> Find(entries, id) == Find(before, id))
  }

  /** The loads at these positions are AUTO loads that carry their stored schedules. */
  ghost predicate Decidable(entries: seq<ConfigurationEntry>, loads: seq<LoadRecord>, ps: seq<nat>) {
    forall i | 0 <= i < |ps| :: ps[i] < |loads| && IsAuto(loads[ps[i]].mode) && CarriesStored(entries, loads[ps[i]])
  }

  /** Deciding the k-th of these loads is a change to what is stored. */
  predicate ChangesAt(entries: seq<ConfigurationEntry>, loads: seq<LoadRecord>, ps: seq<nat>, selected: Combination,
                      k: int)
  {
    0 <= k < |ps| && ps[k] < |loads| && RuntimeChanged(entries, loads[ps[k]], Chosen(selected, loads[ps[k]].id))
  }

  /** Deciding the first n of them is. */
  ghost predicate Changes(entries: seq<ConfigurationEntry>, loads: seq<LoadRecord>, ps: seq<nat>,
                          selected: Combination, n: nat) {
    exists k | 0 <= k < n :: ChangesAt(entries, loads, ps, selected, k)
  }

  lemma ChangesNext(entries: seq<ConfigurationEntry>, loads: seq<LoadRecord>, ps: seq<nat>, selected: Combination,
                    n: nat)
    ensures Changes(entries, loads, ps, selected, n + 1) <==>
            Changes(entries, loads, ps, selected, n) || ChangesAt(entries, loads, ps, selected, n)
    ensures !Changes(entries, loads, ps, selected, 0)
  {
  }

  /** The first n candidates are decided and stored, every other load and entry is as before, and changes are noted. */
  ghost predicate DecidedSoFar(before: seq<ConfigurationEntry>, entries: seq<ConfigurationEntry>,
                               loads: seq<LoadRecord>, ps: seq<nat>, n: nat, selected: Combination,
                               out: seq<LoadRecord>, changed: bool) {
    && DecidedUpTo(loads, ps, n, selected, out) && GoodLoads(out)
    && StoredUpTo(before, entries, out, ps[..n])
    && (changed <==> Changes(before, loads, ps, selected, n))
    && (!changed ==> entries == before)
  }

  lemma NoneDecided(entries: seq<ConfigurationEntry>, loads: seq<LoadRecord>, ps: seq<nat>, selected: Combination)
    requires GoodLoads(loads) && InRange(loads, ps) && WellFormed(entries)
    ensures DecidedSoFar(entries, entries, loads, ps, 0, selected, loads, false)
  {
  }

  lemma StoreNext(before: seq<ConfigurationEntry>, entries: seq<ConfigurationEntry>, loads: seq<LoadRecord>,
                  out: seq<LoadRecord>, ps: seq<nat>, n: nat)
    requires n < |ps| && Ascending(ps) && InRange(loads, ps)
    requires GoodLoads(loads) && |out| == |loads| && LoadInv(out[ps[n]])
    requires forall p | 0 <= p < |loads| && p != ps[n] :: out[p] == loads[p]
    requires out[ps[n]].id == loads[ps[n]].id
    requires StoredUpTo(before, entries, loads, ps[..n])
    ensures StoredUpTo(before, Set(entries, EntryFor(out[ps[n]])), out, ps[..n + 1])
  {
    var l := out[ps[n]];
    var entries' := Set(entries, EntryFor(l));
    assert ps[..n + 1] == ps[..n] + [ps[n]];
    SetThenFind(entries, EntryFor(l), l.id);
    forall p <- ps[..n] ensures out[p] == loads[p] && InForce(entries', out[p]) {
      SetThenFind(entries, EntryFor(l), loads[p].id);
    }
    forall id: LoadId | forall p <- ps[..n + 1] :: out[p].id != id ensures Find(entries', id) == Find(before, id) {
      SetThenFind(entries, EntryFor(l), id);
      assert ps[n] in ps[..n + 1];
      assert forall p <- ps[..n] :: p in ps[..n + 1] && loads[p].id == out[p].id;
    }
  }

  lemma DecisionKeepsInv(l: LoadRecord, on: bool)
    requires LoadInv(l)
    ensures LoadInv(WithDecision(l, on)) && WithDecision(l, on).id == l.id
  {
  }

  lemma DecideNext(loads: seq<LoadRecord>, ps: seq<nat>, n: nat, selected: Combination, out: seq<LoadRecord>,
                   out': seq<LoadRecord>)
    requires DecidedUpTo(loads, ps, n, selected, out) && n < |ps| && Ascending(ps)
    requires out' == out[ps[n] := WithDecision(loads[ps[n]], Chosen(selected, loads[ps[n]].id))]
    ensures DecidedUpTo(loads, ps, n + 1, selected, out')
  {
    assert ps[..n + 1] == ps[..n] + [ps[n]];
  }

  /** One candidate, through the registry's own load object. */
  method DecideAutoLoad(store: LoadConfigurationStore, l: LoadRecord, selected: Combination)
    returns (l': LoadRecord, changed: bool)
    requires IsAuto(l.mode)
    modifies store
    ensures l' == WithDecision(l, Chosen(selected, l.id))
    ensures store.entries == Set(old(store.entries), EntryFor(l'))
    ensures changed <==> RuntimeChanged(old(store.entries), l, Chosen(selected, l.id))
  {
    var on := Chosen(selected, l.id);
    var load := new Load.At(l);
    load.rejection := if on then NOT_REJECTED else POWER_BUDGET_EXCEEDED;
    changed := UpdateAutoRuntimeState(store, load, on);
    l' := load.Record();
  }

  method DecideAutoLoads(store: LoadConfigurationStore, loads: seq<LoadRecord>, ps: seq<nat>, selected: Combination)
    returns (out: seq<LoadRecord>, autoPower: real, changed: bool)
    requires GoodLoads(loads) && InRange(loads, ps) && Ascending(ps) && WellFormed(store.entries)
    requires Decidable(store.entries, loads, ps)
    modifies store
    ensures DecidedSoFar(old(store.entries), store.entries, loads, ps, |ps|, selected, out, changed)
    ensures autoPower == SelectedPower(loads, ps, selected)
  {
    out, autoPower, changed := loads, 0.0, false;
    NoneDecided(store.entries, loads, ps, selected);
    for i := 0 to |ps|
      invariant DecidedSoFar(old(store.entries), store.entries, loads, ps, i, selected, out, changed)
      invariant autoPower == SelectedPower(loads, ps[..i], selected)
    {
      var one;
      out, one := DecideAt(store, loads, ps, i, selected, out, old(store.entries), changed);
      changed := one || changed;
      SelectedPowerNext(loads, ps, i, selected);
      if Chosen(selected, loads[ps[i]].id) {
        autoPower := autoPower + loads[ps[i]].watts;
      }
    }
    assert ps[..|ps|] == ps;
  }

  lemma SelectedPowerNext(loads: seq<LoadRecord>, ps: seq<nat>, i: nat, selected: Combination)
    requires InRange(loads, ps) && i < |ps|
    ensures SelectedPower(loads, ps[..i + 1], selected) ==
            SelectedPower(loads, ps[..i], selected) +
            if Chosen(selected, loads[ps[i]].id) then loads[ps[i]].watts else 0.0
  {
    assert ps[..i + 1][..i] == ps[..i];
  }

  /** The next candidate: its new state goes into the vector and the store. */
  method DecideAt(store: LoadConfigurationStore, loads: seq<LoadRecord>, ps: seq<nat>, i: nat, selected: Combination,
                  out: seq<LoadRecord>, ghost before: seq<ConfigurationEntry>, ghost soFar: bool)
    returns (out': seq<LoadRecord>, changed: bool)
    requires i < |ps| && Ascending(ps)
    requires DecidedSoFar(before, store.entries, loads, ps, i, selected, out, soFar)
    requires IsAuto(loads[ps[i]].mode) && CarriesStored(before, loads[ps[i]])
    modifies store
    ensures DecidedSoFar(before, store.entries, loads, ps, i + 1, selected, out', changed || soFar)
    ensures changed <==> ChangesAt(before, loads, ps, selected, i)
  {
    assert ps[i] !in ps[..i];
    ChangesNext(before, loads, ps, selected, i);
    var l := out[ps[i]];
    assert forall p <- ps[..i] :: out[p].id != l.id;
    assert l in out;
    ghost var entries := store.entries;
    var l';
    l', changed := DecideAutoLoad(store, l, selected);
    if !changed && entries == before { NothingToSaveExactly(entries, l, Chosen(selected, l.id)); }
    DecisionKeepsInv(l, Chosen(selected, l.id));
    out' := out[ps[i] := l'];
    StoreNext(before, entries, out, out', ps, i);
    DecideNext(loads, ps, i, selected, out, out');
    KeepsGood(out, ps[i], l');
  }

  lemma KeepsGood(loads: seq<LoadRecord>, p: nat, l: LoadRecord)
    requires GoodLoads(loads) && p < |loads| && LoadInv(l) && l.id == loads[p].id
    ensures GoodLoads(loads[p := l])
  {
    var out := loads[p := l];
    assert forall x <- out :: x == l || x in loads;
  }

  // ---------------------------------------------------------------------------------------------------
  // The whole cycle
  // ---------------------------------------------------------------------------------------------------

  /** The user's power planning settings. */
  datatype PowerPlanning = PowerPlanning(configured: bool, budget: Float, reserve: Float, requiredRuntimeHours: real)

  /**
   * What a cycle finds around it: who takes part, whose schedule is active, whether the battery was described, and how
   * long the runtime target still runs.
   */
  datatype Surroundings = Surroundings(present: set<MacAddress>, active: set<LoadId>, batteryDescribed: bool,
                                       remainingHours: Float)

  function TargetsAt(loads: seq<LoadRecord>, ps: seq<nat>): (r: seq<RelayTarget>)
    requires InRange(loads, ps)
    ensures |r| == |ps| && forall i | 0 <= i < |ps| :: r[i] == RelayTarget(loads[ps[i]].id, IsOn(loads[ps[i]].mode))
  {
    seq(|ps|, i requires 0 <= i < |ps| => RelayTarget(loads[ps[i]].id, IsOn(loads[ps[i]].mode)))
  }

  function RelayTargets(loads: seq<LoadRecord>, filter: LoadFilter): seq<RelayTarget>
    requires InRange(loads, filter.fixedOff) && InRange(loads, filter.auto) && InRange(loads, filter.fixedOn)
  {
    TargetsAt(loads, filter.fixedOff) + TargetsAt(loads, filter.auto) + TargetsAt(loads, filter.fixedOn)
  }

  method AppendTargets(targets: seq<RelayTarget>, loads: seq<LoadRecord>, ps: seq<nat>) returns (out: seq<RelayTarget>)
    requires InRange(loads, ps)
    ensures out == targets + TargetsAt(loads, ps)
  {
    out := targets;
    for i := 0 to |ps|
      invariant out == targets + TargetsAt(loads, ps)[..i]
    {
      out := out + [RelayTarget(loads[ps[i]].id, IsOn(loads[ps[i]].mode))];
    }
  }

  method BuildRelayTargets(loads: seq<LoadRecord>, filter: LoadFilter) returns (order: seq<RelayTarget>)
    requires InRange(loads, filter.fixedOff) && InRange(loads, filter.auto) && InRange(loads, filter.fixedOn)
    ensures order == DispatchOrder(RelayTargets(loads, filter))
  {
    var targets := AppendTargets([], loads, filter.fixedOff);
    targets := AppendTargets(targets, loads, filter.auto);
    targets := AppendTargets(targets, loads, filter.fixedOn);
    assert targets == RelayTargets(loads, filter);
    order := BuildDispatchOrder(targets);
  }

  method ResetFixedRejectionReasons(loads: seq<LoadRecord>, ps: seq<nat>) returns (out: seq<LoadRecord>)
    requires InRange(loads, ps)
    ensures |out| == |loads|
    ensures forall p | 0 <= p < |loads| :: out[p] == if p in ps then loads[p].(rejection := NOT_REJECTED) else loads[p]
  {
    out := loads;
    for i := 0 to |ps|
      invariant |out| == |loads|
      invariant forall p | 0 <= p < |loads| ::
                out[p] == if p in ps[..i] then loads[p].(rejection := NOT_REJECTED) else loads[p]
    {
      assert ps[..i + 1] == ps[..i] + [ps[i]];
      out := out[ps[i] := out[ps[i]].(rejection := NOT_REJECTED)];
    }
    assert ps[..|ps|] == ps;
  }

  /** All a cycle decides. */
  datatype Plan = Plan(
    settled: seq<LoadRecord>,      // the loads with their stored settings
    decided: seq<LoadRecord>,      // the loads the cycle leaves behind
    selected: Combination,
    order: seq<RelayTarget>,
    budget: Option<PowerBudget>)   // the snapshot's budget, if it is valid

  /** The budget before AUTO demand is known. */
  function FirstBudget(stale: PowerBudget, planning: PowerPlanning, fixed: real): PowerBudget
    requires planning.budget.Finite? && planning.reserve.Finite?
  {
    stale.(budget := planning.budget.value, reserve := planning.reserve.value, fixed := fixed, auto := 0.0)
  }

  /** The inputs of a cycle: the battery as it is, the runtime hours as the cycle finds them. */
  function CycleInputs(i: PlanningInputs, around: Surroundings): PlanningInputs
    requires around.remainingHours.Finite?
  {
    i.(runtimeHours := around.remainingHours.value)
  }

  /** Every condition of the budget branch. */
  predicate Acceptable(planning: PowerPlanning, around: Surroundings, stale: PowerBudget, fixed: real,
                       i: PlanningInputs) {
    && planning.configured && FinitePositive(planning.budget)
    && FiniteNonNegative(planning.reserve) && FiniteNonNegative(around.remainingHours)
    && (planning.requiredRuntimeHours > 0.0 ==> around.batteryDescribed && i.chargeValid)
    && Plannable(FirstBudget(stale, planning, fixed), CycleInputs(i, around))
  }

  /** The decisions of a plan, whichever branch it came from. */
  ghost predicate Consequent(plan: Plan, present: set<MacAddress>) {
    && GoodLoads(plan.settled) && |plan.decided| == |plan.settled|
    && (forall i | 0 <= i < |plan.settled| :: plan.decided[i] == Decided(plan.settled[i], present, plan.selected))
    && plan.order == DispatchOrder(RelayTargets(plan.decided, FilterOf(plan.settled, present)))
  }

  /**
   * The selection and the books of a plan made within a budget: optimal for the power the first update grants, its
   * demand booked by the second.
   */
  ghost predicate Books(loads: seq<LoadRecord>, filter: LoadFilter, around: Surroundings, planning: PowerPlanning,
                        stale: PowerBudget,
                        i: PlanningInputs, selected: Combination, budget: PowerBudget)
    requires InRange(loads, filter.fixedOn) && InRange(loads, filter.auto)
  {
    var fixed := PowerAt(loads, filter.fixedOn);
    && Acceptable(planning, around, stale, fixed, i)
    && var first := FirstBudget(stale, planning, fixed);
       && Optimal(CandidatesAt(loads, filter.auto, around.active), Updated(first, CycleInputs(i, around)).autoAvailable,
                  selected)
       && budget == Planned(planning.budget.value, planning.reserve.value, fixed,
                            SelectedPower(loads, filter.auto, selected),
                            stale, CycleInputs(i, around))
  }

  ghost predicate Budgeted(plan: Plan, around: Surroundings, planning: PowerPlanning, stale: PowerBudget,
                           i: PlanningInputs) {
    && Consequent(plan, around.present) && plan.budget.Some?
    && Books(plan.settled, FilterOf(plan.settled, around.present), around, planning, stale, i, plan.selected,
             plan.budget.value)
  }

  ghost predicate Unbudgeted(plan: Plan, around: Surroundings) {
    Consequent(plan, around.present) && plan.selected == [] && plan.budget == None
  }

  lemma {:induction false} SameSums(a: seq<LoadRecord>, b: seq<LoadRecord>, ps: seq<nat>, selected: Combination)
    requires |a| == |b| && InRange(a, ps)
    requires forall p <- ps :: a[p].watts == b[p].watts && a[p].id == b[p].id
    ensures PowerAt(a, ps) == PowerAt(b, ps) && SelectedPower(a, ps, selected) == SelectedPower(b, ps, selected)
  {
    if ps != [] {
      assert ps[|ps| - 1] in ps;
      SameSums(a, b, ps[..|ps| - 1], selected);
    }
  }

  lemma {:induction false} SumsNonNegative(loads: seq<LoadRecord>, ps: seq<nat>, selected: Combination)
    requires GoodLoads(loads) && InRange(loads, ps)
    ensures 0.0 <= SelectedPower(loads, ps, selected) <= PowerAt(loads, ps)
  {
    if ps != [] {
      assert loads[ps[|ps| - 1]] in loads;
      SumsNonNegative(loads, ps[..|ps| - 1], selected);
    }
  }

  lemma SettledIsGood(entries: seq<ConfigurationEntry>, loads: seq<LoadRecord>, settled: seq<LoadRecord>)
    requires GoodLoads(loads) && SettingsApplied(entries, loads, settled)
    ensures GoodLoads(settled)
  {
    forall i | 0 <= i < |settled| ensures LoadInv(settled[i]) && settled[i].id == loads[i].id {
      assert loads[i] in loads;
      AppliedTwice(entries, loads[i]);
    }
  }

  // The combination chosen and the power booked for it.

  function Picked(candidates: seq<AutoLoad>, selected: Combination): Combination {
    if candidates == [] then []
    else
      var c := candidates[|candidates| - 1];
      Picked(candidates[..|candidates| - 1], selected) + if Chosen(selected, c.id) then [c] else []
  }

  lemma {:induction false} PickedMembers(candidates: seq<AutoLoad>, selected: Combination)
    requires NoRepeats(candidates)
    ensures NoRepeats(Picked(candidates, selected))
    ensures forall c :: c in Picked(candidates, selected) <==> c in candidates && Chosen(selected, c.id)
  {
    if candidates != [] {
      var init, c := candidates[..|candidates| - 1], candidates[|candidates| - 1];
      assert candidates == init + [c];
      PickedMembers(init, selected);
    }
  }

  lemma {:induction false} PickedPower(loads: seq<LoadRecord>, ps: seq<nat>, active: set<LoadId>, selected: Combination)
    requires InRange(loads, ps)
    ensures TotalsOf(Picked(CandidatesAt(loads, ps, active), selected)).power == SelectedPower(loads, ps, selected)
  {
    if ps != [] {
      var init := ps[..|ps| - 1];
      var all := CandidatesAt(loads, ps, active);
      assert all[..|all| - 1] == CandidatesAt(loads, init, active);
      PickedPower(loads, init, active, selected);
      var before := Picked(CandidatesAt(loads, init, active), selected);
      TotalsAppend(before, all[|all| - 1]);
      assert before + [] == before;
    }
  }

  /** The power booked is the power of the selected combination. */
  lemma BookedIsSelected(loads: seq<LoadRecord>, ps: seq<nat>, active: set<LoadId>, available: real,
                         selected: Combination)
    requires GoodLoads(loads) && InRange(loads, ps) && Ascending(ps)
    requires Feasible(CandidatesAt(loads, ps, active), available, selected)
    ensures SelectedPower(loads, ps, selected) == TotalsOf(selected).power <= available
  {
    var all := CandidatesAt(loads, ps, active);
    var picked := Picked(all, selected);
    CandidatesAreDistinct(loads, ps, active);
    PickedMembers(all, selected);
    forall c ensures c in picked <==> c in selected {
      if c in selected {
        var k :| 0 <= k < |selected| && selected[k] == c;
        assert Chosen(selected, c.id);
      }
      if c in picked {
        var k :| 0 <= k < |selected| && selected[k].id == c.id;
        assert selected[k] in selected && selected[k] in all;
        OneCandidatePerId(loads, ps, active, c, selected[k]);
      }
    }
    assert Members(picked) == Members(selected);
    TotalsOfSet(picked, selected);
    PickedPower(loads, ps, active, selected);
  }

  lemma CandidatesAreDistinct(loads: seq<LoadRecord>, ps: seq<nat>, active: set<LoadId>)
    requires GoodLoads(loads) && InRange(loads, ps) && Ascending(ps)
    ensures var all := CandidatesAt(loads, ps, active);
            NoRepeats(all) && forall i, j | 0 <= i < j < |all| :: all[i].id != all[j].id
  {
    var all := CandidatesAt(loads, ps, active);
    forall i, j | 0 <= i < j < |all| ensures all[i].id != all[j].id {
      assert ps[i] < ps[j] && all[i].id == loads[ps[i]].id && all[j].id == loads[ps[j]].id;
    }
  }

  lemma OneCandidatePerId(loads: seq<LoadRecord>, ps: seq<nat>, active: set<LoadId>, a: AutoLoad, b: AutoLoad)
    requires GoodLoads(loads) && InRange(loads, ps) && Ascending(ps)
    requires a in CandidatesAt(loads, ps, active) && b in CandidatesAt(loads, ps, active) && a.id == b.id
    ensures a == b
  {
    CandidatesAreDistinct(loads, ps, active);
  }

  // ---------------------------------------------------------------------------------------------------
  // Carrying the cycle out
  // ---------------------------------------------------------------------------------------------------

  /** All setters and the update accept, in this order, or the cycle falls back to switching every AUTO load off. */
  method PrepareBudget(manager: PowerManager, planning: PowerPlanning, around: Surroundings, fixed: real)
    returns (ok: bool)
    modifies manager`powerBudget, manager`remainingRequiredRuntimeHours
    ensures ok <==> Acceptable(planning, around, old(manager.powerBudget), fixed, old(manager.Inputs()))
    ensures ok ==> manager.Inputs() == CycleInputs(old(manager.Inputs()), around)
    ensures ok ==>
              manager.powerBudget == Updated(FirstBudget(old(manager.powerBudget), planning, fixed), manager.Inputs())
  {
    var runtimeTargetActive := planning.requiredRuntimeHours > 0.0;
    var ready := !runtimeTargetActive || (around.batteryDescribed && manager.IsStateOfChargeValid());
    if !planning.configured || !ready {
      return false;
    }
    ok := manager.SetPowerBudgetWatts(planning.budget);
    if !ok {
      return;
    }
    ok := manager.SetPowerReserveWatts(planning.reserve);
    if !ok {
      return;
    }
    ok := manager.SetFixedPowerWatts(fixed);
    if !ok {
      return;
    }
    ok := manager.SetAutoPowerWatts(0.0);
    ok := manager.SetRemainingRequiredRuntimeHours(around.remainingHours);
    if !ok {
      return;
    }
    ok := manager.UpdatePowerBudget();
  }

  ghost predicate NotesCleared(settled: seq<LoadRecord>, f: LoadFilter, reset: seq<LoadRecord>) {
    && |reset| == |settled|
    && (forall p | 0 <= p < |settled| ::
          reset[p] == if p in f.fixedOn || p in f.fixedOff then settled[p].(rejection := NOT_REJECTED) else settled[p])
  }

  lemma DecisionsAddUp(settled: seq<LoadRecord>, reset: seq<LoadRecord>, decided: seq<LoadRecord>,
                       present: set<MacAddress>, selected: Combination)
    requires NotesCleared(settled, FilterOf(settled, present), reset)
    requires DecidedUpTo(reset, FilterOf(settled, present).auto, |FilterOf(settled, present).auto|, selected, decided)
    ensures |decided| == |settled| && forall p | 0 <= p < |settled| ::
            decided[p] == Decided(settled[p], present, selected)
  {
    var f := FilterOf(settled, present);
    FilterLists(settled, present);
    assert f.auto[..|f.auto|] == f.auto;
    forall p | 0 <= p < |settled| ensures decided[p] == Decided(settled[p], present, selected) {
      if PartOf(settled[p], present) == Candidate {
        assert p in f.auto;
        var i :| 0 <= i < |f.auto| && f.auto[i] == p;
      }
    }
  }

  lemma SameChanges(entries: seq<ConfigurationEntry>, settled: seq<LoadRecord>, reset: seq<LoadRecord>,
                    present: set<MacAddress>, selected: Combination)
    requires NotesCleared(settled, FilterOf(settled, present), reset)
    ensures forall n: nat :: Changes(entries, settled, FilterOf(settled, present).auto, selected, n) <==>
                             Changes(entries, reset, FilterOf(settled, present).auto, selected, n)
  {
    FilterLists(settled, present);
    var auto := FilterOf(settled, present).auto;
    assert forall k :: ChangesAt(entries, settled, auto, selected, k) <==> ChangesAt(entries, reset, auto, selected, k);
  }

  /** The settings, the filter and the cleared notes a cycle starts from. */
  method StartCycle(store: LoadConfigurationStore, loads: seq<LoadRecord>, present: set<MacAddress>)
    returns (settled: seq<LoadRecord>, reset: seq<LoadRecord>, filter: LoadFilter)
    requires GoodLoads(loads) && WellFormed(store.entries)
    ensures SettingsApplied(store.entries, loads, settled) && GoodLoads(settled) && filter == FilterOf(settled, present)
    ensures GoodLoads(reset) && NotesCleared(settled, filter, reset)
    ensures Ascending(filter.auto) && Decidable(store.entries, reset, filter.auto)
  {
    settled := ApplyStoredLoadSettings(store, loads);
    SettledIsGood(store.entries, loads, settled);
    filter := BuildLoadFilter(settled, present);
    reset := ResetFixedRejectionReasons(settled, filter.fixedOn);
    reset := ResetFixedRejectionReasons(reset, filter.fixedOff);
    FilterLists(settled, present);
    ClearedStaysGood(settled, filter, reset);
    ClearedIsDecidable(store.entries, loads, settled, present, reset);
  }

  lemma ClearedStaysGood(settled: seq<LoadRecord>, f: LoadFilter, reset: seq<LoadRecord>)
    requires GoodLoads(settled) && NotesCleared(settled, f, reset)
    ensures GoodLoads(reset)
  {
    forall p | 0 <= p < |reset| ensures LoadInv(reset[p]) && reset[p].id == settled[p].id {
      assert settled[p] in settled;
    }
  }

  lemma ClearedIsDecidable(entries: seq<ConfigurationEntry>, loads: seq<LoadRecord>, settled: seq<LoadRecord>,
                           present: set<MacAddress>, reset: seq<LoadRecord>)
    requires WellFormed(entries) && SettingsApplied(entries, loads, settled)
    requires NotesCleared(settled, FilterOf(settled, present), reset)
    ensures Decidable(entries, reset, FilterOf(settled, present).auto)
  {
    var ps := FilterOf(settled, present).auto;
    FilterLists(settled, present);
    forall i | 0 <= i < |ps| ensures ps[i] < |reset| && IsAuto(reset[ps[i]].mode) &&
        CarriesStored(entries, reset[ps[i]]) {
      AppliedCarriesStored(entries, loads[ps[i]]);
    }
  }

  lemma ResetCandidates(settled: seq<LoadRecord>, reset: seq<LoadRecord>, present: set<MacAddress>, active: set<LoadId>)
    requires NotesCleared(settled, FilterOf(settled, present), reset)
    ensures var f := FilterOf(settled, present);
            && CandidatesAt(reset, f.auto, active) == CandidatesAt(settled, f.auto, active)
            && PowerAt(reset, f.fixedOn) == PowerAt(settled, f.fixedOn)
            && forall selected :: SelectedPower(reset, f.auto, selected) == SelectedPower(settled, f.auto, selected)
  {
    var f := FilterOf(settled, present);
    FilterLists(settled, present);
    SameSums(reset, settled, f.fixedOn, []);
    forall selected ensures SelectedPower(reset, f.auto, selected) == SelectedPower(settled, f.auto, selected) {
      SameSums(reset, settled, f.auto, selected);
    }
  }

  method SelectLoads(loads: seq<LoadRecord>, ps: seq<nat>, active: set<LoadId>, available: real)
    returns (selected: Combination)
    requires GoodLoads(loads) && InRange(loads, ps) && available >= 0.0
    ensures Optimal(CandidatesAt(loads, ps, active), available, selected)
  {
    var candidates := CandidatesAt(loads, ps, active);
    forall c <- candidates ensures c.watts >= 0.0 {
      var i :| 0 <= i < |candidates| && candidates[i] == c;
      assert loads[ps[i]] in loads;
    }
    var search := new Search(available, candidates);
    selected := search.bestCombination;
  }

  /** Search and booking within a budget that was accepted. */
  method DecideWithin(store: LoadConfigurationStore, manager: PowerManager, loads: seq<LoadRecord>, ps: seq<nat>,
                      active: set<LoadId>)
    returns (decided: seq<LoadRecord>, selected: Combination, changed: bool)
    requires GoodLoads(loads) && InRange(loads, ps) && Ascending(ps) && WellFormed(store.entries)
    requires Decidable(store.entries, loads, ps)
    requires Plannable(manager.powerBudget, manager.Inputs()) && manager.powerBudget.autoAvailable >= 0.0
    modifies store, manager`powerBudget
    ensures Optimal(CandidatesAt(loads, ps, active), old(manager.powerBudget).autoAvailable, selected)
    ensures DecidedSoFar(old(store.entries), store.entries, loads, ps, |ps|, selected, decided, changed)
    ensures manager.powerBudget ==
            Updated(old(manager.powerBudget).(auto := SelectedPower(loads, ps, selected)), manager.Inputs())
  {
    selected := SelectLoads(loads, ps, active, manager.powerBudget.autoAvailable);
    var autoPower;
    decided, autoPower, changed := DecideAutoLoads(store, loads, ps, selected);
    SumsNonNegative(loads, ps, selected);
    var ok := manager.SetAutoPowerWatts(autoPower);
    ok := manager.UpdatePowerBudget();
  }

  /** Both branches of the cycle, on the loads whose notes were cleared. */
  method Decide(store: LoadConfigurationStore, manager: PowerManager, loads: seq<LoadRecord>, filter: LoadFilter,
                planning: PowerPlanning, around: Surroundings)
    returns (decided: seq<LoadRecord>, selected: Combination, budget: Option<PowerBudget>, changed: bool)
    requires GoodLoads(loads) && InRange(loads, filter.fixedOn) && InRange(loads, filter.auto) && Ascending(filter.auto)
    requires WellFormed(store.entries) && Decidable(store.entries, loads, filter.auto)
    modifies store, manager`powerBudget, manager`remainingRequiredRuntimeHours
    ensures budget.Some? <==>
            Acceptable(planning, around, old(manager.powerBudget), PowerAt(loads, filter.fixedOn),
                       old(manager.Inputs()))
    ensures budget.Some? ==>
              manager.powerBudget == budget.value &&
              Books(loads, filter, around, planning, old(manager.powerBudget), old(manager.Inputs()), selected,
                    budget.value)
    ensures budget.None? ==> selected == []
    ensures DecidedSoFar(old(store.entries), store.entries, loads, filter.auto, |filter.auto|, selected, decided,
                         changed)
  {
    var fixed := SumFixedOnPowerWatts(loads, filter.fixedOn);
    var ok := PrepareBudget(manager, planning, around, fixed);
    if ok {
      decided, selected, changed := DecideWithin(store, manager, loads, filter.auto, around.active);
      budget := Some(manager.powerBudget);
    } else {
      var autoPower;
      selected, budget := [], None;
      decided, autoPower, changed := DecideAutoLoads(store, loads, filter.auto, selected);
    }
  }

  lemma BooksOfSettled(settled: seq<LoadRecord>, reset: seq<LoadRecord>, around: Surroundings, planning: PowerPlanning,
                       stale: PowerBudget, i: PlanningInputs, selected: Combination, budget: PowerBudget)
    requires NotesCleared(settled, FilterOf(settled, around.present), reset)
    requires Books(reset, FilterOf(settled, around.present), around, planning, stale, i, selected, budget)
    ensures Books(settled, FilterOf(settled, around.present), around, planning, stale, i, selected, budget)
  {
    ResetCandidates(settled, reset, around.present, around.active);
  }

  class CentralPlanner {
    var loads: seq<LoadRecord>
    const store: LoadConfigurationStore
    const manager: PowerManager

    constructor (loads: seq<LoadRecord>, store: LoadConfigurationStore, manager: PowerManager)
      ensures this.loads == loads && this.store == store && this.manager == manager
    {
      this.loads, this.store, this.manager := loads, store, manager;
    }

    /**
     * One cycle up to the hand-over of the dispatch order; toSave says whether the stored configurations go to flash.
     */
    method RunOptimizationCycle(planning: PowerPlanning, around: Surroundings) returns (plan: Plan, toSave: bool)
      requires GoodLoads(loads) && WellFormed(store.entries)
      modifies this`loads, store, manager`powerBudget, manager`remainingRequiredRuntimeHours
      ensures SettingsApplied(old(store.entries), old(loads), plan.settled) && loads == plan.decided
      ensures plan.budget.Some? <==>
              Acceptable(planning, around, old(manager.powerBudget),
                         PowerAt(plan.settled, FilterOf(plan.settled, around.present).fixedOn), old(manager.Inputs()))
      ensures plan.budget.Some? ==> Budgeted(plan, around, planning, old(manager.powerBudget), old(manager.Inputs()))
      ensures plan.budget.Some? ==> manager.powerBudget == plan.budget.value
      ensures plan.budget.None? ==> Unbudgeted(plan, around)
      ensures StoredUpTo(old(store.entries), store.entries, plan.decided, FilterOf(plan.settled, around.present).auto)
      ensures var auto := FilterOf(plan.settled, around.present).auto;
              toSave <==> Changes(old(store.entries), plan.settled, auto, plan.selected, |auto|)
      ensures !toSave ==> store.entries == old(store.entries)
    {
      var settled, reset, filter := StartCycle(store, loads, around.present);
      ResetCandidates(settled, reset, around.present, around.active);
      var decided, selected, budget;
      decided, selected, budget, toSave := Decide(store, manager, reset, filter, planning, around);
      if budget.Some? {
        BooksOfSettled(settled, reset, around, planning, old(manager.powerBudget), old(manager.Inputs()), selected,
                       budget.value);
      }
      assert filter.auto[..|filter.auto|] == filter.auto;
      DecisionsAddUp(settled, reset, decided, around.present, selected);
      SameChanges(old(store.entries), settled, reset, around.present, selected);
      var order := BuildRelayTargets(decided, filter);
      loads := decided;
      plan := Plan(settled, decided, selected, order, budget);
    }
  }
}
