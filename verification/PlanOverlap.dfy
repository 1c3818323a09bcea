/** Two plans the planner makes one after the other whose orders, once they overlap, draw twice the budget. */
module PlanOverlap {
  import opened Common
  import opened Loads
  import opened PowerBudgets
  import opened LoadConfigurations
  import opened BestFirstSearch
  import opened RelayDispatch
  import opened RelayExchange
  import opened RelayOverlap
  import opened Planning
  import opened PlanSafety

  // ---------------------------------------------------------------------------------------------------
  // Two AUTO loads of 600 W and a budget for one
  // ---------------------------------------------------------------------------------------------------

  const PLANNING_600 := PowerPlanning(true, Finite(600.0), Finite(0.0), 0.0)

  const NO_BATTERY := PlanningInputs(Battery(0.0, 0.0, 0.0), 0.0, false, 0.0, Measurements(0.0, 0.0, 0.0))

  function Here(local: MacAddress): Surroundings { Surroundings({local}, {}, false, Finite(0.0)) }

  predicate Auto600(l: LoadRecord, local: MacAddress) {
    l.id.mac == local && l.watts == 600.0 && IsAuto(l.mode) && l.schedule == NO_SCHEDULE
  }

  /** Two such loads; the one at position w has the higher priority. */
  predicate Rivals(loads: seq<LoadRecord>, local: MacAddress, w: nat) {
    && |loads| == 2 && w < 2 && Auto600(loads[0], local) && Auto600(loads[1], local)
    && loads[0].id != loads[1].id && loads[1 - w].priority < loads[w].priority
  }

  /** A load of this kind as the search sees it. */
  function Candidate600(l: LoadRecord): AutoLoad { AutoLoad(l.id, l.watts, l.priority, false, true) }

  lemma RivalsPositions(loads: seq<LoadRecord>, local: MacAddress, w: nat, part: Part)
    requires Rivals(loads, local, w)
    ensures Positions(loads, {local}, part) == if part == Candidate then [0, 1] else []
  {
    var one := loads[..1];
    assert one[..0] == [] && one[0] == loads[0];
    assert Positions(one[..0], {local}, part) == [];
    assert Positions(one, {local}, part) == if part == Candidate then [0] else [];
  }

  lemma RivalsFilter(loads: seq<LoadRecord>, local: MacAddress, w: nat)
    requires Rivals(loads, local, w)
    ensures GoodLoads(loads) && FilterOf(loads, {local}) == LoadFilter([], [], [0, 1])
  {
    RivalsPositions(loads, local, w, AlwaysOn);
    RivalsPositions(loads, local, w, AlwaysOff);
    RivalsPositions(loads, local, w, Candidate);
  }

  lemma RivalsCandidates(loads: seq<LoadRecord>, local: MacAddress, w: nat)
    requires Rivals(loads, local, w) && InRange(loads, [0, 1])
    ensures CandidatesAt(loads, [0, 1], {}) == [Candidate600(loads[0]), Candidate600(loads[1])]
  {
  }

  lemma {:induction false} PowerOfMany(c: Combination)
    requires forall l <- c :: l.watts == 600.0
    ensures TotalsOf(c).power == 600.0 * (|c| as real)
  {
    if c != [] { PowerOfMany(c[..|c| - 1]); }
  }

  lemma TotalsOfOne(l: AutoLoad)
    ensures TotalsOf([l]) == Totals(l.watts, l.priority, EffectivePriority(l)) && TotalsOf([]) == Totals(0.0, 0, 0)
  {
    TotalsAppend([], l);
    assert [] + [l] == [l];
  }

  /** At most one of the two fits. */
  lemma OneFits(x: AutoLoad, y: AutoLoad, c: Combination)
    requires x.watts == y.watts == 600.0 && x.isAuto && y.isAuto
    ensures Feasible([x, y], 600.0, c) <==> c == [] || c == [x] || c == [y]
  {
    TotalsOfOne(x);
    TotalsOfOne(y);
    if Feasible([x, y], 600.0, c) {
      PowerOfMany(c);
      assert |c| <= 1;
      if |c| == 1 { assert c[0] in c && c == [c[0]]; }
    }
  }

  /** The search has one answer: the load that counts for more, its schedule included. */
  lemma HigherWorthWins(x: AutoLoad, y: AutoLoad, selected: Combination)
    requires x.watts == y.watts == 600.0 && x.isAuto && y.isAuto && Worth(x) != Worth(y)
    ensures Optimal([x, y], 600.0, selected) <==> selected == if Worth(x) > Worth(y) then [x] else [y]
  {
    TotalsOfOne(x);
    TotalsOfOne(y);
    forall c ensures Feasible([x, y], 600.0, c) <==> c == [] || c == [x] || c == [y] { OneFits(x, y, c); }
    var best := if Worth(x) > Worth(y) then [x] else [y];
    if selected != best { assert Feasible([x, y], 600.0, best); }
  }

  // ---------------------------------------------------------------------------------------------------
  // What a cycle makes of them
  // ---------------------------------------------------------------------------------------------------

  /** Two rivals once w has been selected. */
  function DecidedRivals(loads: seq<LoadRecord>, w: nat): seq<LoadRecord>
    requires |loads| == 2
  {
    [WithDecision(loads[0], w == 0), WithDecision(loads[1], w == 1)]
  }

  function OrderOfRivals(loads: seq<LoadRecord>, w: nat): seq<RelayTarget>
    requires |loads| == 2 && w < 2
  {
    [RelayTarget(loads[1 - w].id, false), RelayTarget(loads[w].id, true)]
  }

  /** The plan a cycle makes of two rivals. */
  function PlanOfRivals(loads: seq<LoadRecord>, local: MacAddress, w: nat, stale: PowerBudget): Plan
    requires Rivals(loads, local, w)
  {
    Plan(loads, DecidedRivals(loads, w), [Candidate600(loads[w])], OrderOfRivals(loads, w),
         Some(Planned(600.0, 0.0, 0.0, 600.0, stale, NO_BATTERY)))
  }

  lemma OneOffOneOn(t: RelayTarget, u: RelayTarget)
    requires t.desiredOn != u.desiredOn
    ensures DispatchOrder([t, u]) == if t.desiredOn then [u, t] else [t, u]
  {
    OneTarget(t, {});
    OneTarget(u, {});
    PhaseAppend([t], [u], false);
    PhaseAppend([t], [u], true);
    assert [t] + [u] == [t, u];
  }

  lemma RivalsOrder(loads: seq<LoadRecord>, w: nat)
    requires |loads| == 2 && w < 2
    ensures InRange(DecidedRivals(loads, w), []) && InRange(DecidedRivals(loads, w), [0, 1])
    ensures DispatchOrder(RelayTargets(DecidedRivals(loads, w), LoadFilter([], [], [0, 1]))) == OrderOfRivals(loads, w)
  {
    var decided := DecidedRivals(loads, w);
    var t, u := RelayTarget(loads[0].id, w == 0), RelayTarget(loads[1].id, w == 1);
    assert TargetsAt(decided, []) == [] && TargetsAt(decided, [0, 1]) == [t, u];
    assert RelayTargets(decided, LoadFilter([], [], [0, 1])) == [t, u];
    OneOffOneOn(t, u);
  }

  lemma RivalsDecided(loads: seq<LoadRecord>, local: MacAddress, w: nat, i: nat)
    requires Rivals(loads, local, w) && i < 2
    ensures Decided(loads[i], {local}, [Candidate600(loads[w])]) == DecidedRivals(loads, w)[i]
  {
    assert Chosen([Candidate600(loads[w])], loads[i].id) <==> [Candidate600(loads[w])][0].id == loads[i].id;
  }

  lemma RivalsSelectedPower(loads: seq<LoadRecord>, local: MacAddress, w: nat)
    requires Rivals(loads, local, w)
    ensures SelectedPower(loads, [0, 1], [Candidate600(loads[w])]) == 600.0
  {
    var selected := [Candidate600(loads[w])];
    assert forall id :: Chosen(selected, id) <==> selected[0].id == id;
    assert [0, 1][..1] == [0] && [0][..0] == [];
    assert SelectedPower(loads, [], selected) == 0.0;
    assert SelectedPower(loads, [0], selected) == if w == 0 then 600.0 else 0.0;
  }

  lemma RivalsConsequent(plan: Plan, local: MacAddress, w: nat)
    requires Rivals(plan.settled, local, w) && plan.selected == [Candidate600(plan.settled[w])]
    ensures Consequent(plan, {local}) <==>
            plan.decided == DecidedRivals(plan.settled, w) && plan.order == OrderOfRivals(plan.settled, w)
  {
    RivalsFilter(plan.settled, local, w);
    RivalsDecided(plan.settled, local, w, 0);
    RivalsDecided(plan.settled, local, w, 1);
    RivalsOrder(plan.settled, w);
    if Consequent(plan, {local}) { assert plan.decided == DecidedRivals(plan.settled, w); }
  }

  lemma RivalsBooks(loads: seq<LoadRecord>, local: MacAddress, w: nat, stale: PowerBudget, selected: Combination,
                    b: PowerBudget)
    requires Rivals(loads, local, w) && InRange(loads, []) && InRange(loads, [0, 1])
    ensures Books(loads, LoadFilter([], [], [0, 1]), Here(local), PLANNING_600, stale, NO_BATTERY, selected, b) <==>
            selected == [Candidate600(loads[w])] && b == Planned(600.0, 0.0, 0.0, 600.0, stale, NO_BATTERY)
  {
    RivalsCandidates(loads, local, w);
    assert PowerAt(loads, []) == 0.0;
    HigherWorthWins(Candidate600(loads[0]), Candidate600(loads[1]), selected);
    RivalsSelectedPower(loads, local, w);
    assert CycleInputs(NO_BATTERY, Here(local)) == NO_BATTERY;
  }

  /** For two rivals the planner has exactly one plan: the lower priority off, then the higher one on. */
  lemma PlanIsOfRivals(plan: Plan, local: MacAddress, w: nat, stale: PowerBudget)
    requires Rivals(plan.settled, local, w)
    ensures Budgeted(plan, Here(local), PLANNING_600, stale, NO_BATTERY) <==>
            plan == PlanOfRivals(plan.settled, local, w, stale)
  {
    RivalsFilter(plan.settled, local, w);
    if plan.budget.Some? {
      RivalsBooks(plan.settled, local, w, stale, plan.selected, plan.budget.value);
      if plan.selected == [Candidate600(plan.settled[w])] { RivalsConsequent(plan, local, w); }
    }
  }

  // ---------------------------------------------------------------------------------------------------
  // Overlapping
  // ---------------------------------------------------------------------------------------------------

  lemma DrawOfTwo(t: RelayTarget, u: RelayTarget, rating: Rating, on: set<LoadId>)
    ensures OnPower([t, u], rating, on) ==
            (if t.id in on then rating(t.id) else 0.0) + if u.id in on then rating(u.id) else 0.0
    ensures forall start :: FailedOffPower([t, u], rating, start, [true, true]) == 0.0
  {
    assert [t, u][..1] == [t] && [t][..0] == [];
    assert OnPower([t][..0], rating, on) == 0.0;
    forall start ensures FailedOffPower([t, u], rating, start, [true, true]) == 0.0 {
      assert FailedOffPower([t][..0], rating, start, [true, true]) == 0.0;
      assert FailedOffPower([t], rating, start, [true, true]) == 0.0;
    }
  }

  /** The bound a plan would keep alone with its relays, at the budget of 600 W. */
  predicate KeepsBudgetAlone(plan: Plan, a: Activity, s: Dispatching) {
    DrawsWithin(plan, s, OnPower(plan.order, RatingOf(plan.settled), a.start),
                600.0 + FailedOffPower(plan.order, RatingOf(plan.settled), a.start, a.reported))
  }

  lemma BothDraw(plan: Plan, local: MacAddress, w: nat, a: Activity, s: Dispatching)
    requires Rivals(plan.settled, local, w) && plan.order == OrderOfRivals(plan.settled, w)
    requires s.on == {plan.settled[0].id, plan.settled[1].id} && s.issued == 2 && a.reported == [true, true]
    ensures OnPower(plan.order, RatingOf(plan.settled), s.on) == 1200.0 && !KeepsBudgetAlone(plan, a, s)
  {
    RivalsFilter(plan.settled, local, w);
    WattsOfLoad(plan.settled, 0);
    WattsOfLoad(plan.settled, 1);
    DrawOfTwo(plan.order[0], plan.order[1], RatingOf(plan.settled), s.on);
    assert plan.order == [plan.order[0], plan.order[1]];
  }

  /** Two plans the planner makes of the same loads, the first preferring load 0 and the second load 1. */
  ghost predicate RivalPlans(first: Plan, second: Plan, local: MacAddress, stale: PowerBudget) {
    && Rivals(first.settled, local, 0) && Rivals(second.settled, local, 1)
    && Budgeted(first, Here(local), PLANNING_600, stale, NO_BATTERY)
    && Budgeted(second, Here(local), PLANNING_600, first.budget.value, NO_BATTERY)
    && first.settled[0].id == second.settled[0].id && first.settled[1].id == second.settled[1].id
  }

  /** Order d of these, done with every command a success, draws 1200 W although its plan keeps to 600 W. */
  ghost predicate Exceeds(x: Radio, d: nat, plan: Plan) {
    && d < |x.activities| && x.activities[d].order == plan.order && x.activities[d].reported == [true, true]
    && OnPower(plan.order, RatingOf(plan.settled), x.on) == 1200.0
    && TargetPower(plan.order, RatingOf(plan.settled)) <= 600.0
    && !KeepsBudgetAlone(plan, x.activities[d], View(x, d))
  }

  lemma RivalsExceed(x: Radio, d: nat, plan: Plan, local: MacAddress, w: nat, stale: PowerBudget)
    requires Rivals(plan.settled, local, w) && Budgeted(plan, Here(local), PLANNING_600, stale, NO_BATTERY)
    requires d < |x.activities| && x.activities[d].order == OrderOfRivals(plan.settled, w)
    requires x.activities[d].reported == [true, true] && |x.activities[d].ids| == 2
    requires x.on == {plan.settled[0].id, plan.settled[1].id}
    ensures Exceeds(x, d, plan)
  {
    PlanIsOfRivals(plan, local, w, stale);
    BothDraw(plan, local, w, x.activities[d], View(x, d));
    BookedWithinBudget(plan, Here(local), PLANNING_600, stale, NO_BATTERY);
  }

  /**
   * If the second is handed over while the first is being carried out, both loads end up conducting, above the budget
   * of both plans, although every command acts at once and is reported as a success.
   */
  lemma OverlappingPlansExceed(first: Plan, second: Plan, local: MacAddress, stale: PowerBudget)
    returns (trace: seq<Radio>, events: seq<RadioEvent>)
    requires RivalPlans(first, second, local, stale)
    ensures History(trace, events) && events == Overlap(first.settled[0].id, first.settled[1].id)
    ensures Exceeds(trace[|events|], 0, first) && Exceeds(trace[|events|], 1, second)
  {
    trace, events := OverlapEnds(local, first.settled[0].id, first.settled[1].id);
    RivalsExceed(trace[|events|], 0, first, local, 0, stale);
    RivalsExceed(trace[|events|], 1, second, local, 1, first.budget.value);
  }

  function Load600(id: LoadId, priority: Word, mode: Mode, rejection: Byte): LoadRecord {
    LoadRecord(id, "", 600.0, priority, DC, mode, NO_SCHEDULE, rejection)
  }

  function Stored600(id: LoadId, priority: Word, mode: Mode): ConfigurationEntry {
    ConfigurationEntry(id, priority, mode, NO_SCHEDULE)
  }

  lemma PrioritiesSwapped(a: LoadId, b: LoadId)
    requires a != b
    ensures SettingsApplied([Stored600(a, 1, AutoOn), Stored600(b, 10, AutoOff)],
                            [Load600(a, 10, AutoOn, NOT_REJECTED), Load600(b, 1, AutoOff, POWER_BUDGET_EXCEEDED)],
                            [Load600(a, 1, AutoOn, NOT_REJECTED), Load600(b, 10, AutoOff, POWER_BUDGET_EXCEEDED)])
  {
    var entries := [Stored600(a, 1, AutoOn), Stored600(b, 10, AutoOff)];
    assert entries[0].id == a && entries[1].id == b;
    assert Find(entries, a) == Some(entries[0]) && Find(entries, b) == Some(entries[1]);
  }

  /** Such plans exist: between the two cycles a user swaps the stored priorities. */
  lemma RivalPlansExist(local: MacAddress, a: LoadId, b: LoadId, stale: PowerBudget)
    returns (first: Plan, second: Plan)
    requires a.mac == b.mac == local && a != b
    ensures RivalPlans(first, second, local, stale)
    ensures first.settled == [Load600(a, 10, AutoOff, NOT_REJECTED), Load600(b, 1, AutoOff, NOT_REJECTED)]
    ensures SettingsApplied([Stored600(a, 1, AutoOn), Stored600(b, 10, AutoOff)], first.decided, second.settled)
  {
    first := PlanOfRivals([Load600(a, 10, AutoOff, NOT_REJECTED), Load600(b, 1, AutoOff, NOT_REJECTED)], local, 0,
                          stale);
    PlanIsOfRivals(first, local, 0, stale);
    second := PlanOfRivals([Load600(a, 1, AutoOn, NOT_REJECTED), Load600(b, 10, AutoOff, POWER_BUDGET_EXCEEDED)],
                           local, 1, first.budget.value);
    PlanIsOfRivals(second, local, 1, first.budget.value);
    PrioritiesSwapped(a, b);
  }
}
