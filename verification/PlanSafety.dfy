/** What a planning cycle guarantees, from the budget down to the relays being switched. */
module PlanSafety {
  import opened Common
  import opened Loads
  import opened PowerBudgets
  import opened LoadConfigurations
  import opened RelayDispatch
  import opened RelayExchange
  import opened RelayOverlap
  import opened BestFirstSearch
  import opened Planning

  // ---------------------------------------------------------------------------------------------------
  // The books
  // ---------------------------------------------------------------------------------------------------

  /** The books of a selection within the cap. */
  lemma BooksAreWithinCap(loads: seq<LoadRecord>, f: LoadFilter, around: Surroundings, planning: PowerPlanning,
                          stale: PowerBudget, i: PlanningInputs, selected: Combination, b: PowerBudget)
    requires GoodLoads(loads) && InRange(loads, f.fixedOn) && InRange(loads, f.auto) && Ascending(f.auto)
    requires Books(loads, f, around, planning, stale, i, selected, b)
    ensures WithinCap(b, CycleInputs(i, around))
    ensures b.fixed == PowerAt(loads, f.fixedOn) && b.auto == TotalsOf(selected).power
    ensures b.auto == SelectedPower(loads, f.auto, selected)
    ensures b.budget == planning.budget.value && b.reserve == planning.reserve.value
  {
    var fixed, inputs := PowerAt(loads, f.fixedOn), CycleInputs(i, around);
    var first := FirstBudget(stale, planning, fixed);
    BookedIsSelected(loads, f.auto, around.active, Updated(first, inputs).autoAvailable, selected);
    SumsNonNegative(loads, f.auto, selected);
    PlannedIsWithinCap(planning.budget.value, planning.reserve.value, fixed, SelectedPower(loads, f.auto, selected),
                       stale, inputs);
  }

  /**
   * The budget books the real demand: the fixed loads that are on, the loads the search selected, and nothing beyond
   * the cap.
   */
  lemma PlanKeepsBudget(plan: Plan, around: Surroundings, planning: PowerPlanning, stale: PowerBudget,
                        i: PlanningInputs)
    requires Budgeted(plan, around, planning, stale, i)
    ensures var b, f := plan.budget.value, FilterOf(plan.settled, around.present);
            && WithinCap(b, CycleInputs(i, around))
            && b.fixed == PowerAt(plan.settled, f.fixedOn)
            && b.auto == TotalsOf(plan.selected).power == SelectedPower(plan.settled, f.auto, plan.selected)
            && b.budget == planning.budget.value && b.reserve == planning.reserve.value
  {
    FilterLists(plan.settled, around.present);
    BooksAreWithinCap(plan.settled, FilterOf(plan.settled, around.present), around, planning, stale, i, plan.selected,
                      plan.budget.value);
  }

  /** The promises of a planning cycle in one place. */
  lemma PlanGuarantees(plan: Plan, around: Surroundings, planning: PowerPlanning, stale: PowerBudget, i: PlanningInputs)
    requires Budgeted(plan, around, planning, stale, i)
    ensures Guaranteed(plan.budget.value, CycleInputs(i, around))
  {
    PlanKeepsBudget(plan, around, planning, stale, i);
    CapGuarantees(plan.budget.value, CycleInputs(i, around));
  }

  // ---------------------------------------------------------------------------------------------------
  // Selected, rejected, commanded
  // ---------------------------------------------------------------------------------------------------

  lemma PositionIsAuto(plan: Plan, around: Surroundings, p: nat)
    requires Consequent(plan, around.present) && p < |plan.settled| &&
             PartOf(plan.settled[p], around.present) == Candidate
    ensures var l := plan.settled[p];
            AutoLoad(l.id, l.watts, l.priority, l.id in around.active, true) in
              CandidatesAt(plan.settled, FilterOf(plan.settled, around.present).auto, around.active)
  {
    var auto := FilterOf(plan.settled, around.present).auto;
    FilterLists(plan.settled, around.present);
    assert p in auto;
    var k :| 0 <= k < |auto| && auto[k] == p;
    assert CandidatesAt(plan.settled, auto, around.active)[k].id == plan.settled[p].id;
  }

  /**
   * A load marked as exceeding the budget really does not fit beside the selected ones; a load without demand is
   * always selected.
   */
  lemma RejectedDoesNotFit(plan: Plan, around: Surroundings, planning: PowerPlanning, stale: PowerBudget,
                           i: PlanningInputs, p: nat)
    requires Budgeted(plan, around, planning, stale, i)
    requires p < |plan.settled| && PartOf(plan.settled[p], around.present) == Candidate
    ensures plan.decided[p].rejection == POWER_BUDGET_EXCEEDED <==> !Chosen(plan.selected, plan.settled[p].id)
    ensures plan.decided[p].rejection == POWER_BUDGET_EXCEEDED ==>
              plan.budget.value.auto + plan.settled[p].watts > plan.budget.value.autoAvailable
    ensures plan.settled[p].watts == 0.0 ==> plan.decided[p].mode == AutoOn
  {
    var l := plan.settled[p];
    assert plan.decided[p] == Decided(l, around.present, plan.selected);
    PlanKeepsBudget(plan, around, planning, stale, i);
    if !Chosen(plan.selected, l.id) {
      var filter := FilterOf(plan.settled, around.present);
      var first := FirstBudget(stale, planning, PowerAt(plan.settled, filter.fixedOn));
      var c := AutoLoad(l.id, l.watts, l.priority, l.id in around.active, true);
      PositionIsAuto(plan, around, p);
      LeftOutDoesNotFit(CandidatesAt(plan.settled, filter.auto, around.active),
                        Updated(first, CycleInputs(i, around)).autoAvailable, plan.selected, c);
    }
  }

  /** The positions of all loads taking part, as the targets list them. */
  function TakingPart(f: LoadFilter): seq<nat> { f.fixedOff + f.auto + f.fixedOn }

  lemma PartAt(settled: seq<LoadRecord>, present: set<MacAddress>, k: nat)
    requires k < |TakingPart(FilterOf(settled, present))|
    ensures var f := FilterOf(settled, present);
            var ps, a, b := TakingPart(f), |f.fixedOff|, |f.fixedOff| + |f.auto|;
            && ps[k] < |settled|
            && ps[k] == (if k < a then f.fixedOff[k] else if k < b then f.auto[k - a] else f.fixedOn[k - b])
            && PartOf(settled[ps[k]], present) == (if k < a then AlwaysOff else if k < b then Candidate else AlwaysOn)
  {
    FilterLists(settled, present);
  }

  /** Each load taking part is listed once. */
  lemma TakingPartOnce(settled: seq<LoadRecord>, present: set<MacAddress>)
    ensures var ps := TakingPart(FilterOf(settled, present));
            && InRange(settled, ps)
            && (forall i, j | 0 <= i < j < |ps| :: ps[i] != ps[j])
  {
    FilterLists(settled, present);
    var ps := TakingPart(FilterOf(settled, present));
    forall i | 0 <= i < |ps| ensures ps[i] < |settled| { PartAt(settled, present, i); }
    forall i, j | 0 <= i < j < |ps| ensures ps[i] != ps[j] {
      PartAt(settled, present, i);
      PartAt(settled, present, j);
    }
  }

  lemma TakingPartAll(settled: seq<LoadRecord>, present: set<MacAddress>, p: nat)
    requires p < |settled| && PartOf(settled[p], present) != Absent
    ensures p in TakingPart(FilterOf(settled, present))
  {
    var f := FilterOf(settled, present);
    FilterLists(settled, present);
    assert p in f.fixedOff || p in f.auto || p in f.fixedOn;
  }

  lemma TargetsAtAppend(loads: seq<LoadRecord>, a: seq<nat>, b: seq<nat>)
    requires InRange(loads, a) && InRange(loads, b)
    ensures InRange(loads, a + b) && TargetsAt(loads, a + b) == TargetsAt(loads, a) + TargetsAt(loads, b)
  {
  }

  lemma TargetsByPosition(loads: seq<LoadRecord>, f: LoadFilter)
    requires InRange(loads, f.fixedOff) && InRange(loads, f.auto) && InRange(loads, f.fixedOn)
    ensures InRange(loads, TakingPart(f)) && RelayTargets(loads, f) == TargetsAt(loads, TakingPart(f))
  {
    TargetsAtAppend(loads, f.fixedOff, f.auto);
    TargetsAtAppend(loads, f.fixedOff + f.auto, f.fixedOn);
  }

  lemma DecidedIds(plan: Plan, present: set<MacAddress>)
    requires Consequent(plan, present)
    ensures forall p | 0 <= p < |plan.settled| :: plan.decided[p].id == plan.settled[p].id
  {
    forall p | 0 <= p < |plan.settled| ensures plan.decided[p].id == plan.settled[p].id {
      assert plan.decided[p] == Decided(plan.settled[p], present, plan.selected);
    }
  }

  lemma TargetOf(plan: Plan, present: set<MacAddress>, t: RelayTarget) returns (p: nat)
    requires Consequent(plan, present) && t in plan.order
    ensures p < |plan.settled| && PartOf(plan.settled[p], present) != Absent
    ensures t == RelayTarget(plan.settled[p].id, IsOn(plan.decided[p].mode))
  {
    var f := FilterOf(plan.settled, present);
    TargetsByPosition(plan.decided, f);
    DecidedIds(plan, present);
    var targets := TargetsAt(plan.decided, TakingPart(f));
    OrderHasTheTargets(targets, t);
    var k :| 0 <= k < |targets| && targets[k] == t;
    PartAt(plan.settled, present, k);
    p := TakingPart(f)[k];
  }

  lemma TargetIn(plan: Plan, present: set<MacAddress>, p: nat)
    requires Consequent(plan, present) && p < |plan.settled| && PartOf(plan.settled[p], present) != Absent
    ensures RelayTarget(plan.settled[p].id, IsOn(plan.decided[p].mode)) in plan.order
  {
    var f := FilterOf(plan.settled, present);
    TargetsByPosition(plan.decided, f);
    DecidedIds(plan, present);
    TakingPartAll(plan.settled, present, p);
    var targets := TargetsAt(plan.decided, TakingPart(f));
    var k :| 0 <= k < |TakingPart(f)| && TakingPart(f)[k] == p;
    OrderHasTheTargets(targets, targets[k]);
    assert targets[k] in targets;
  }

  /**
   * Every load taking part is commanded to exactly one state: fixed loads to their mode, AUTO loads on exactly when
   * selected.
   */
  lemma CommandedAsDecided(plan: Plan, present: set<MacAddress>, p: nat, on: bool)
    requires Consequent(plan, present) && p < |plan.settled| && PartOf(plan.settled[p], present) != Absent
    ensures RelayTarget(plan.settled[p].id, on) in plan.order <==>
            on == match PartOf(plan.settled[p], present)
                  case AlwaysOn => true
                  case AlwaysOff => false
                  case _ => Chosen(plan.selected, plan.settled[p].id)
  {
    assert plan.decided[p] == Decided(plan.settled[p], present, plan.selected);
    TargetIn(plan, present, p);
    if RelayTarget(plan.settled[p].id, on) in plan.order {
      var q := TargetOf(plan, present, RelayTarget(plan.settled[p].id, on));
      assert p == q;
    }
  }

  /** In terms of modes and of the Nodes present: who is commanded, and to what. A Node that is absent gets nothing. */
  lemma CommandsInFull(plan: Plan, present: set<MacAddress>, p: nat, on: bool)
    requires Consequent(plan, present) && p < |plan.settled|
    ensures RelayTarget(plan.settled[p].id, on) in plan.order <==>
            plan.settled[p].id.mac in present &&
            on == match plan.settled[p].mode
                  case FixedOn => true
                  case FixedOff => false
                  case _ => exists c :: c in plan.selected && c.id == plan.settled[p].id
  {
    var id := plan.settled[p].id;
    if Chosen(plan.selected, id) {
      var i :| 0 <= i < |plan.selected| && plan.selected[i].id == id;
      assert plan.selected[i] in plan.selected;
    }
    if PartOf(plan.settled[p], present) != Absent {
      CommandedAsDecided(plan, present, p, on);
    } else if RelayTarget(id, on) in plan.order {
      var q := TargetOf(plan, present, RelayTarget(id, on));
    }
  }

  /** What a cycle leaves behind of a load: an absent one's is untouched, only an AUTO load is switched or noted. */
  lemma DecidedInFull(plan: Plan, present: set<MacAddress>, p: nat)
    requires Consequent(plan, present) && p < |plan.settled|
    ensures var l, out := plan.settled[p], plan.decided[p];
            && (l.id.mac !in present ==> out == l)
            && (l.id.mac in present && (l.mode.FixedOff? || l.mode.FixedOn?) ==> out == l.(rejection := 0))
            && (l.id.mac in present && (l.mode.AutoOff? || l.mode.AutoOn?) ==>
                  var selected := exists c :: c in plan.selected && c.id == l.id;
                  out == l.(mode := if selected then AutoOn else AutoOff, rejection := if selected then 0 else 2))
  {
    assert plan.decided[p] == Decided(plan.settled[p], present, plan.selected);
    if Chosen(plan.selected, plan.settled[p].id) {
      var i :| 0 <= i < |plan.selected| && plan.selected[i].id == plan.settled[p].id;
      assert plan.selected[i] in plan.selected;
    }
  }

  /** Without a budget every AUTO load present is commanded OFF. */
  lemma NoBudgetAllAutoOff(plan: Plan, around: Surroundings, p: nat)
    requires Unbudgeted(plan, around) && p < |plan.settled| && plan.settled[p].id.mac in around.present
    requires plan.settled[p].mode.AutoOff? || plan.settled[p].mode.AutoOn?
    ensures RelayTarget(plan.settled[p].id, false) in plan.order
    ensures RelayTarget(plan.settled[p].id, true) !in plan.order
  {
    CommandsInFull(plan, around.present, p, false);
    CommandsInFull(plan, around.present, p, true);
  }

  /** The settings of the user and what is known of the battery, as a budget needs them. */
  predicate BudgetPossible(planning: PowerPlanning, around: Surroundings, i: PlanningInputs) {
    && planning.configured && planning.budget.Finite? && planning.reserve.Finite? && around.remainingHours.Finite?
    && 0.0 < planning.budget.value && 0.0 <= planning.reserve.value <= planning.budget.value
    && 0.0 <= around.remainingHours.value && 0.0 <= i.battery.minimumPercent <= 100.0
    && (planning.requiredRuntimeHours > 0.0 ==> around.batteryDescribed)
    && (planning.requiredRuntimeHours > 0.0 || around.remainingHours.value > 0.0 || i.battery.minimumPercent > 0.0 ==>
          i.chargeValid)
  }

  /**
   * A cycle has a budget exactly if the settings make sense, whatever they need is known of the battery, and the energy
   * per hour of a required runtime is a number: whatever the loads are.
   */
  lemma BudgetedExactly(planning: PowerPlanning, around: Surroundings, stale: PowerBudget, fixed: real,
                        i: PlanningInputs)
    requires fixed >= 0.0
    ensures Acceptable(planning, around, stale, fixed, i) <==>
            && BudgetPossible(planning, around, i)
            && (around.remainingHours.value > 0.0 ==>
                  && i.battery.capacityAmpHours > 0.0 && i.battery.nameplateVolts > 0.0
                  && UsableEnergy(i) < FLOAT_OVERFLOW * around.remainingHours.value)
  {
    if BudgetPossible(planning, around, i) && around.remainingHours.value > 0.0 {
      assert UsableEnergy(CycleInputs(i, around)) == UsableEnergy(i);
      PowerIsEnergy(FLOAT_OVERFLOW, UsableEnergy(i), around.remainingHours.value);
    }
  }

  /** What a candidate counts for in a cycle: its priority, and 5 more while its schedule is active. */
  function WorthNow(l: LoadRecord, around: Surroundings): nat {
    if l.id in around.active then l.priority + 5 else l.priority
  }

  lemma CandidateOf(plan: Plan, around: Surroundings, p: nat) returns (c: AutoLoad)
    requires Consequent(plan, around.present) && p < |plan.settled|
    requires PartOf(plan.settled[p], around.present) == Candidate
    ensures c == AutoLoad(plan.settled[p].id, plan.settled[p].watts, plan.settled[p].priority,
                          plan.settled[p].id in around.active, true)
    ensures c in CandidatesAt(plan.settled, FilterOf(plan.settled, around.present).auto, around.active)
    ensures Worth(c) == WorthNow(plan.settled[p], around)
  {
    PositionIsAuto(plan, around, p);
    var l := plan.settled[p];
    c := AutoLoad(l.id, l.watts, l.priority, l.id in around.active, true);
  }

  /**
   * No swap would make a plan better: a rejected AUTO load that would fit within the granted power in place of a
   * selected one does not count for more, schedules included.
   */
  lemma NoSwapHelps(plan: Plan, around: Surroundings, planning: PowerPlanning, stale: PowerBudget, i: PlanningInputs,
                    p: nat, q: nat)
    requires Budgeted(plan, around, planning, stale, i) && p < |plan.settled| && q < |plan.settled|
    requires PartOf(plan.settled[p], around.present) == PartOf(plan.settled[q], around.present) == Candidate
    requires plan.decided[p].mode == AutoOn && plan.decided[q].mode == AutoOff
    requires plan.budget.value.auto - plan.settled[p].watts + plan.settled[q].watts <= plan.budget.value.autoAvailable
    ensures WorthNow(plan.settled[q], around) <= WorthNow(plan.settled[p], around)
    ensures WorthNow(plan.settled[q], around) == WorthNow(plan.settled[p], around) ==>
              plan.settled[q].priority <= plan.settled[p].priority
  {
    var f := FilterOf(plan.settled, around.present);
    var all := CandidatesAt(plan.settled, f.auto, around.active);
    var first := FirstBudget(stale, planning, PowerAt(plan.settled, f.fixedOn));
    FilterLists(plan.settled, around.present);
    PlanKeepsBudget(plan, around, planning, stale, i);
    assert plan.decided[p] == Decided(plan.settled[p], around.present, plan.selected);
    assert plan.decided[q] == Decided(plan.settled[q], around.present, plan.selected);
    var x := CandidateOf(plan, around, p);
    var m := CandidateOf(plan, around, q);
    var k :| 0 <= k < |plan.selected| && plan.selected[k].id == plan.settled[p].id;
    assert plan.selected[k] in plan.selected;
    OneCandidatePerId(plan.settled, f.auto, around.active, plan.selected[k], x);
    assert m !in plan.selected;
    NoBetterSwap(all, Updated(first, CycleInputs(i, around)).autoAvailable, plan.selected, k, m);
  }

  /** A user who has stored a fixed mode for a load has the last word: so it is commanded, wherever it is present. */
  lemma StoredFixedModeRules(plan: Plan, present: set<MacAddress>, entries: seq<ConfigurationEntry>,
                             loads: seq<LoadRecord>, p: nat, e: ConfigurationEntry)
    requires WellFormed(entries) && GoodLoads(loads) && SettingsApplied(entries, loads, plan.settled)
    requires Consequent(plan, present) && p < |loads| && loads[p].id.mac in present
    requires Find(entries, loads[p].id) == Some(e) && (e.mode.FixedOff? || e.mode.FixedOn?)
    ensures forall on :: RelayTarget(loads[p].id, on) in plan.order <==> on == e.mode.FixedOn?
  {
    assert loads[p] in loads;
    SettingsTakenOver(entries, loads[p]);
    forall on ensures RelayTarget(loads[p].id, on) in plan.order <==> on == e.mode.FixedOn? {
      CommandsInFull(plan, present, p, on);
    }
  }

  /** What a cycle decided stays: the settings the next cycle applies first are the ones this cycle stored. */
  lemma DecisionsSurviveNextSettings(plan: Plan, present: set<MacAddress>, before: seq<ConfigurationEntry>,
                                     entries: seq<ConfigurationEntry>, p: nat)
    requires Consequent(plan, present) &&
             StoredUpTo(before, entries, plan.decided, FilterOf(plan.settled, present).auto)
    requires p < |plan.settled| && PartOf(plan.settled[p], present) == Candidate
    ensures Applied(entries, plan.decided[p]) == plan.decided[p]
  {
    FilterLists(plan.settled, present);
    assert p in FilterOf(plan.settled, present).auto && plan.settled[p] in plan.settled;
    assert plan.decided[p] == Decided(plan.settled[p], present, plan.selected);
    DecisionKeepsInv(plan.settled[p], Chosen(plan.selected, plan.settled[p].id));
    InForceIsStable(entries, plan.decided[p]);
  }

  // ---------------------------------------------------------------------------------------------------
  // From the books to the relays
  // ---------------------------------------------------------------------------------------------------

  function WattsOf(loads: seq<LoadRecord>, id: LoadId): real {
    if loads == [] then 0.0 else if loads[0].id == id then loads[0].watts else WattsOf(loads[1..], id)
  }

  function RatingOf(loads: seq<LoadRecord>): Rating { id => WattsOf(loads, id) }

  lemma {:induction false} WattsOfLoad(loads: seq<LoadRecord>, p: nat)
    requires DistinctLoads(loads) && p < |loads|
    ensures WattsOf(loads, loads[p].id) == loads[p].watts
  {
    if p > 0 {
      assert loads[0].id != loads[p].id;
      WattsOfLoad(loads[1..], p - 1);
    }
  }

  lemma {:induction false} WattsNonNegative(loads: seq<LoadRecord>, id: LoadId)
    requires forall l <- loads :: LoadInv(l)
    ensures WattsOf(loads, id) >= 0.0
  {
    if loads != [] {
      assert loads[0] in loads;
      WattsNonNegative(loads[1..], id);
    }
  }

  lemma {:induction false} PowerOfTargetsAt(loads: seq<LoadRecord>, decided: seq<LoadRecord>, ps: seq<nat>,
                                            selected: Combination)
    requires GoodLoads(loads) && InRange(loads, ps) && |decided| == |loads|
    requires forall p <- ps :: decided[p].id == loads[p].id
    ensures var drawn := TargetPower(TargetsAt(decided, ps), RatingOf(loads));
            && ((forall p <- ps :: IsOn(decided[p].mode)) ==> drawn == PowerAt(loads, ps))
            && ((forall p <- ps :: !IsOn(decided[p].mode)) ==> drawn == 0.0)
            && ((forall p <- ps :: IsOn(decided[p].mode) == Chosen(selected, loads[p].id)) ==>
               drawn == SelectedPower(loads, ps, selected))
  {
    if ps != [] {
      var init, p := ps[..|ps| - 1], ps[|ps| - 1];
      assert p in ps && forall q <- init :: q in ps;
      var all := TargetsAt(decided, ps);
      assert all[..|all| - 1] == TargetsAt(decided, init);
      PowerOfTargetsAt(loads, decided, init, selected);
      WattsOfLoad(loads, p);
    }
  }

  /** The relays, once all are as commanded, draw the booked power. */
  lemma PlanDrawsWhatIsBooked(plan: Plan, present: set<MacAddress>)
    requires Consequent(plan, present)
    ensures var f := FilterOf(plan.settled, present);
            TargetPower(plan.order, RatingOf(plan.settled)) ==
                PowerAt(plan.settled, f.fixedOn) + SelectedPower(plan.settled, f.auto, plan.selected)
  {
    DecidedModes(plan, present);
    TargetsDraw(plan.settled, plan.decided, FilterOf(plan.settled, present), plan.selected);
    TargetPowerOfOrder(RelayTargets(plan.decided, FilterOf(plan.settled, present)), RatingOf(plan.settled));
  }

  lemma TargetsDraw(settled: seq<LoadRecord>, decided: seq<LoadRecord>, f: LoadFilter, selected: Combination)
    requires GoodLoads(settled) && |decided| == |settled|
    requires InRange(settled, f.fixedOff) && InRange(settled, f.auto) && InRange(settled, f.fixedOn)
    requires forall p | 0 <= p < |settled| :: decided[p].id == settled[p].id
    requires forall p <- f.fixedOff :: !IsOn(decided[p].mode)
    requires forall p <- f.fixedOn :: IsOn(decided[p].mode)
    requires forall p <- f.auto :: IsOn(decided[p].mode) == Chosen(selected, settled[p].id)
    ensures TargetPower(RelayTargets(decided, f), RatingOf(settled)) ==
            PowerAt(settled, f.fixedOn) + SelectedPower(settled, f.auto, selected)
  {
    var off, auto, on := TargetsAt(decided, f.fixedOff), TargetsAt(decided, f.auto), TargetsAt(decided, f.fixedOn);
    PowerOfTargetsAt(settled, decided, f.fixedOff, selected);
    PowerOfTargetsAt(settled, decided, f.auto, selected);
    PowerOfTargetsAt(settled, decided, f.fixedOn, selected);
    TargetPowerAppend(off, auto, RatingOf(settled));
    TargetPowerAppend(off + auto, on, RatingOf(settled));
  }

  lemma DecidedModes(plan: Plan, present: set<MacAddress>)
    requires Consequent(plan, present)
    ensures forall p | 0 <= p < |plan.settled| :: plan.decided[p].id == plan.settled[p].id
    ensures var f := FilterOf(plan.settled, present);
            && (forall p <- f.fixedOff :: !IsOn(plan.decided[p].mode))
            && (forall p <- f.fixedOn :: IsOn(plan.decided[p].mode))
            && (forall p <- f.auto :: IsOn(plan.decided[p].mode) == Chosen(plan.selected, plan.settled[p].id))
  {
    FilterLists(plan.settled, present);
    forall p | 0 <= p < |plan.settled| ensures plan.decided[p] == Decided(plan.settled[p], present, plan.selected) {}
  }

  lemma OneTargetPerLoad(plan: Plan, present: set<MacAddress>)
    requires Consequent(plan, present)
    ensures DistinctTargets(plan.order)
  {
    var f := FilterOf(plan.settled, present);
    TargetsByPosition(plan.decided, f);
    DecidedIds(plan, present);
    TakingPartOnce(plan.settled, present);
    OrderStaysDistinct(TargetsAt(plan.decided, TakingPart(f)));
  }

  lemma {:induction false} PhaseStaysDistinct(targets: seq<RelayTarget>, on: bool)
    requires DistinctTargets(targets)
    ensures DistinctTargets(PhaseOf(targets, on))
  {
    if targets != [] {
      var init, t := targets[..|targets| - 1], targets[|targets| - 1];
      PhaseStaysDistinct(init, on);
      assert forall x <- PhaseOf(init, on) :: x in init && x.id != t.id;
    }
  }

  lemma OrderStaysDistinct(targets: seq<RelayTarget>)
    requires DistinctTargets(targets)
    ensures DistinctTargets(DispatchOrder(targets))
  {
    PhaseStaysDistinct(targets, false);
    PhaseStaysDistinct(targets, true);
    var off, on, order := PhaseOf(targets, false), PhaseOf(targets, true), DispatchOrder(targets);
    forall i, j | 0 <= i < j < |order| ensures order[i].id != order[j].id {
      if i < |off| && j >= |off| {
        assert off[i] in off && on[j - |off|] in on;
        var k :| 0 <= k < |targets| && targets[k] == off[i];
        var l :| 0 <= l < |targets| && targets[l] == on[j - |off|];
        assert k != l;
      }
    }
  }

  /** The newest command issued is an ON command; every later one is, too. */
  predicate OnIssued(plan: Plan, s: Dispatching) {
    0 < s.issued <= |plan.order| && plan.order[s.issued - 1].desiredOn
  }

  /** The relays of a plan draw no more than early until the first ON command is issued, and then no more than late. */
  predicate DrawsWithin(plan: Plan, s: Dispatching, early: real, late: real) {
    var drawn := OnPower(plan.order, RatingOf(plan.settled), s.on);
    if OnIssued(plan, s) then drawn <= late else drawn <= early
  }

  /** A plan's two phases, told by its newest command, are those of its dispatch order. */
  lemma PhasesOfPlan(plan: Plan, present: set<MacAddress>, s: Dispatching)
    requires Consequent(plan, present) && s.issued <= |plan.order|
    ensures OnIssued(plan, s) <==> !InOffPhase(PlanTargets(plan, present), s)
  {
    if s.issued > 0 { PhaseOfOrder(PlanTargets(plan, present), s.issued - 1); }
  }

  lemma RatingsNonNegative(plan: Plan, present: set<MacAddress>)
    requires Consequent(plan, present)
    ensures NonNegative(RatingOf(plan.settled))
  {
    forall id ensures RatingOf(plan.settled)(id) >= 0.0 { WattsNonNegative(plan.settled, id); }
  }

  lemma BookedWithinBudget(plan: Plan, around: Surroundings, planning: PowerPlanning, stale: PowerBudget,
                           i: PlanningInputs)
    requires Budgeted(plan, around, planning, stale, i) && plan.budget.value.fixed <= plan.budget.value.budget
    ensures TargetPower(plan.order, RatingOf(plan.settled)) <= plan.budget.value.budget
  {
    PlanKeepsBudget(plan, around, planning, stale, i);
    PowerConserved(plan.budget.value, CycleInputs(i, around));
    PlanDrawsWhatIsBooked(plan, around.present);
  }

  /** The targets a plan's order was built from. */
  function PlanTargets(plan: Plan, present: set<MacAddress>): seq<RelayTarget>
    requires Consequent(plan, present)
  {
    RelayTargets(plan.decided, FilterOf(plan.settled, present))
  }

  lemma BoundIsDraw(plan: Plan, present: set<MacAddress>, start: set<LoadId>, s: Dispatching, budget: real)
    requires Consequent(plan, present) && TargetPower(plan.order, RatingOf(plan.settled)) <= budget
    requires s.issued <= |plan.order|
    ensures var order, rating := plan.order, RatingOf(plan.settled);
            && (PowerBounded(PlanTargets(plan, present), rating, start, s) ==>
                  DrawsWithin(plan, s, OnPower(order, rating, start),
                              budget + FailedOffPower(order, rating, start, s.reported)))
            && (PowerBoundedWithOthers(PlanTargets(plan, present), rating, start, s) ==>
                  DrawsWithin(plan, s, OnPower(order, rating, start) + OnPower(order, rating, Foreign(start, s)),
                              budget + FailedOffPower(order, rating, start, s.reported) +
                              ForeignPower(order, rating, start, s)))
  {
    PhasesOfPlan(plan, present, s);
  }

  /**
   * End to end: while the plan is being carried out, whatever commands are late, lost or refused, and whatever other
   * orders overlap it or have left commands behind, the relays taking part draw, until the first ON command, no more
   * than at the start and what others have switched on since; and from the first ON command on, however much they drew
   * at the start, no more than the budget, what failed OFF commands leave on, and what others have switched on among
   * the relays that are to be off.
   */
  lemma PlanIsPowerSafe(plan: Plan, around: Surroundings, planning: PowerPlanning, stale: PowerBudget,
                        inputs: PlanningInputs, start: set<LoadId>, trace: seq<Dispatching>,
                        events: seq<DispatchEvent>, i: nat)
    requires Budgeted(plan, around, planning, stale, inputs) && plan.budget.value.fixed <= plan.budget.value.budget
    requires Carried(plan.order, start, trace, events) && i <= |events|
    ensures var order, rating, s := plan.order, RatingOf(plan.settled), trace[i];
            DrawsWithin(plan, s, OnPower(order, rating, start) + OnPower(order, rating, Foreign(start, s)),
                        plan.budget.value.budget + FailedOffPower(order, rating, start, s.reported) +
                        ForeignPower(order, rating, start, s))
  {
    RatingsNonNegative(plan, around.present);
    BookedWithinBudget(plan, around, planning, stale, inputs);
    OneTargetPerLoad(plan, around.present);
    CarriedIsConsistent(plan.order, start, trace, events, i);
    PowerSafeThroughout(PlanTargets(plan, around.present), start, trace, events, i, RatingOf(plan.settled));
    BoundIsDraw(plan, around.present, start, trace[i], plan.budget.value.budget);
  }

  /** The same over the radio, for the order of the plan among all orders handed over. */
  lemma PlanExchangeIsPowerSafe(plan: Plan, around: Surroundings, planning: PowerPlanning, stale: PowerBudget,
                                inputs: PlanningInputs, trace: seq<Radio>, events: seq<RadioEvent>, i: nat, d: nat)
    requires Budgeted(plan, around, planning, stale, inputs) && plan.budget.value.fixed <= plan.budget.value.budget
    requires History(trace, events) && i <= |events| && trace[i].top <= COMMAND_IDS
    requires d < |trace[i].activities| && trace[i].activities[d].order == plan.order
    ensures var order, rating, start, s := plan.order, RatingOf(plan.settled), trace[i].activities[d].start,
                                           View(trace[i], d);
            DrawsWithin(plan, s, OnPower(order, rating, start) + OnPower(order, rating, Foreign(start, s)),
                        plan.budget.value.budget + FailedOffPower(order, rating, start, s.reported) +
                        ForeignPower(order, rating, start, s))
  {
    var dispatch, steps := ExchangeIsDispatch(trace, events, i, d);
    PlanIsPowerSafe(plan, around, planning, stale, inputs, trace[i].activities[d].start, dispatch, steps, |steps|);
  }

  /**
   * A plan is handed over when no order is under way and no ON command was given up; until it is carried out none is
   * handed over and no relay is switched on by a configuration; and the radio brings no command to its Node twice,
   * which is nothing Central could check. Then its relays draw no more than at the start until the first ON command,
   * and from there on no more than the budget and what failed OFF commands leave on.
   */
  lemma CarefulPlanIsPowerSafe(plan: Plan, around: Surroundings, planning: PowerPlanning, stale: PowerBudget,
                               inputs: PlanningInputs, trace: seq<Radio>, events: seq<RadioEvent>, c: nat, i: nat)
    requires Budgeted(plan, around, planning, stale, inputs) && plan.budget.value.fixed <= plan.budget.value.budget
    requires History(trace, events) && c < i <= |events| && trace[i].top <= COMMAND_IDS && events[c] == Hand(plan.order)
    requires Alone(trace, events, c, i) && NoOnAbandoned(trace[c]) && NoCommandTwice(events)
    ensures var d := |trace[c].activities|;
            && d < |trace[i].activities| && trace[i].activities[d].order == plan.order
            && var order, rating, start, s := plan.order, RatingOf(plan.settled), trace[i].activities[d].start,
                                              View(trace[i], d);
               DrawsWithin(plan, s, OnPower(order, rating, start),
                           plan.budget.value.budget + FailedOffPower(order, rating, start, s.reported))
  {
    var targets, d := PlanTargets(plan, around.present), |trace[c].activities|;
    RatingsNonNegative(plan, around.present);
    BookedWithinBudget(plan, around, planning, stale, inputs);
    OneTargetPerLoad(plan, around.present);
    CarefulDispatchIsPowerSafe(targets, trace, events, c, i, RatingOf(plan.settled));
    HistoryKeepsInv(trace, events, i);
    assert Sound(trace[i], d);
    BoundIsDraw(plan, around.present, trace[i].activities[d].start, View(trace[i], d), plan.budget.value.budget);
  }
}
