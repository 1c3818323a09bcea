/** The planning budget: what Best-First may spend after the reserve, the fixed demand and the runtime policy. */
module PowerBudgets {
  import opened Loads

  /** Voltage, current and power as last measured. */
  datatype Measurements = Measurements(volts: real, amps: real, watts: real)

  datatype PowerBudget = PowerBudget(
    measured: Measurements,
    budget: real,
    reserve: real,
    fixed: real,
    autoAvailable: real,
    auto: real,
    remaining: real,
    runtimeBudgetActive: bool,
    requiredRuntimeAchievable: bool)

  /** Nameplate data; all zero when no battery was described. */
  datatype Battery = Battery(nameplateVolts: real, capacityAmpHours: real, minimumPercent: real)

  datatype ChargeSource = Unknown | Initial | Persisted | CoulombCounting | VoltageEstimate | Simulated

  /** What updatePowerBudget reads besides the budget itself. */
  datatype PlanningInputs = PlanningInputs(
    battery: Battery,
    chargePercent: real,
    chargeValid: bool,
    runtimeHours: real,
    measured: Measurements)

  /** From here on a result no longer fits a float and reads as infinite. */
  const FLOAT_OVERFLOW: real := 340282356779733661637539395458142568448.0

  predicate FinitePositive(f: Float) { f.Finite? && f.value > 0.0 }

  predicate ValidPercent(value: real) { 0.0 <= value <= 100.0 }

  function MaxReal(a: real, b: real): real { if a < b then b else a }

  function MinReal(a: real, b: real): real { if b < a then b else a }

  /** The energy above the minimum state of charge. */
  function UsableEnergy(i: PlanningInputs): real {
    i.battery.capacityAmpHours * i.battery.nameplateVolts *
    MaxReal(0.0, (i.chargePercent - i.battery.minimumPercent) / 100.0)
  }

  predicate AtMinimumCharge(i: PlanningInputs) {
    i.chargeValid && i.chargePercent <= i.battery.minimumPercent
  }

  predicate Plannable(b: PowerBudget, i: PlanningInputs) {
    && b.budget > 0.0 && b.reserve >= 0.0 && b.fixed >= 0.0 && b.auto >= 0.0
    && b.reserve <= b.budget && ValidPercent(i.battery.minimumPercent)
    && ((i.battery.minimumPercent > 0.0 || i.runtimeHours > 0.0) ==> i.chargeValid)
    && (i.runtimeHours > 0.0 ==>
          i.battery.capacityAmpHours > 0.0 && i.battery.nameplateVolts > 0.0 &&
          UsableEnergy(i) / i.runtimeHours < FLOAT_OVERFLOW)
  }

  /** What all loads together may draw before the minimum charge is looked at. */
  function PolicyAllowance(b: PowerBudget, i: PlanningInputs): real {
    var afterReserve := MaxReal(0.0, b.budget - b.reserve);
    if i.runtimeHours > 0.0 then MinReal(afterReserve, UsableEnergy(i) / i.runtimeHours) else afterReserve
  }

  function Allowance(b: PowerBudget, i: PlanningInputs): real {
    if AtMinimumCharge(i) then 0.0 else PolicyAllowance(b, i)
  }

  function Achievable(b: PowerBudget, i: PlanningInputs): bool {
    i.runtimeHours > 0.0 ==> b.fixed <= PolicyAllowance(b, i) && (AtMinimumCharge(i) ==> b.fixed <= 0.0)
  }

  function Updated(b: PowerBudget, i: PlanningInputs): PowerBudget {
    b.(autoAvailable := MaxReal(0.0, Allowance(b, i) - b.fixed),
       remaining := MaxReal(0.0, b.budget - (b.fixed + b.auto)),
       runtimeBudgetActive := i.runtimeHours > 0.0,
       requiredRuntimeAchievable := Achievable(b, i),
       measured := i.measured)
  }

  /**
   * The budget of one planning cycle: updated once without AUTO demand, and again with the demand of the selected
   * loads.
   */
  function Planned(budget: real, reserve: real, fixed: real, auto: real, stale: PowerBudget,
                   i: PlanningInputs): PowerBudget {
    Updated(Updated(stale.(budget := budget, reserve := reserve, fixed := fixed, auto := 0.0), i).(auto := auto), i)
  }

  // ---------------------------------------------------------------------------------------------------
  // The guarantees of a cycle whose selection respects the cap
  // ---------------------------------------------------------------------------------------------------

  /** A selection within the first update's cap keeps the second update's books. */
  ghost predicate WithinCap(b: PowerBudget, i: PlanningInputs) {
    Plannable(b, i) && b == Updated(b, i) && b.auto <= b.autoAvailable
  }

  lemma PlannedIsWithinCap(budget: real, reserve: real, fixed: real, auto: real, stale: PowerBudget, i: PlanningInputs)
    requires Plannable(stale.(budget := budget, reserve := reserve, fixed := fixed, auto := 0.0), i)
    requires 0.0 <= auto <= Updated(stale.(budget := budget, reserve := reserve, fixed := fixed, auto := 0.0),
                                    i).autoAvailable
    ensures WithinCap(Planned(budget, reserve, fixed, auto, stale, i), i)
    ensures Planned(budget, reserve, fixed, auto, stale, i).auto == auto
  {
  }

  /** The reserve stays free exactly when the fixed demand leaves it free (or there is none). */
  lemma ReserveKept(b: PowerBudget, i: PlanningInputs)
    requires WithinCap(b, i)
    ensures b.remaining >= b.reserve <==> b.fixed <= b.budget - b.reserve || b.reserve == 0.0
  {
  }

  /** Demand and remainder add up to the budget exactly when the fixed demand alone does not exceed it. */
  lemma PowerConserved(b: PowerBudget, i: PlanningInputs)
    requires WithinCap(b, i)
    ensures b.fixed + b.auto + b.remaining == b.budget <==> b.fixed <= b.budget
    ensures b.fixed + b.auto <= b.budget <==> b.fixed <= b.budget
  {
  }

  /**
   * A runtime target reported achievable is one the usable energy covers; one reported missed is one the fixed loads
   * alone defeat.
   */
  lemma RuntimeCovered(b: PowerBudget, i: PlanningInputs)
    requires WithinCap(b, i) && b.runtimeBudgetActive
    ensures b.requiredRuntimeAchievable ==> (b.fixed + b.auto) * i.runtimeHours <= UsableEnergy(i)
    ensures !b.requiredRuntimeAchievable ==>
              b.auto == 0.0 && (b.fixed * i.runtimeHours > UsableEnergy(i) || b.fixed > b.budget - b.reserve)
  {
    EnergyNonNegative(i);
    if b.requiredRuntimeAchievable {
      AchievableDemand(b, i);
      PowerIsEnergy(b.fixed + b.auto, UsableEnergy(i), i.runtimeHours);
    } else if AtMinimumCharge(i) {
      NoEnergyAtMinimum(i);
      MissedAtMinimum(b, i);
      MulStrict(0.0, b.fixed, i.runtimeHours);
    } else {
      MissedAboveMinimum(b, i);
      PowerIsEnergy(b.fixed, UsableEnergy(i), i.runtimeHours);
    }
  }

  /** A power fits the mean power exactly when its energy fits the energy. */
  lemma PowerIsEnergy(power: real, energy: real, hours: real)
    requires hours > 0.0
    ensures power <= energy / hours <==> power * hours <= energy
  {
    Quotient(energy, hours);
    if power <= energy / hours { MulMono(power, energy / hours, hours); }
    else { MulStrict(energy / hours, power, hours); }
  }

  lemma AchievableDemand(b: PowerBudget, i: PlanningInputs)
    requires WithinCap(b, i) && b.runtimeBudgetActive && b.requiredRuntimeAchievable &&
             UsableEnergy(i) / i.runtimeHours >= 0.0
    ensures b.fixed + b.auto <= UsableEnergy(i) / i.runtimeHours
  {
  }

  lemma MissedAtMinimum(b: PowerBudget, i: PlanningInputs)
    requires WithinCap(b, i) && b.runtimeBudgetActive && !b.requiredRuntimeAchievable && AtMinimumCharge(i)
    requires UsableEnergy(i) / i.runtimeHours >= 0.0
    ensures b.auto == 0.0 && b.fixed > 0.0
  {
  }

  lemma MissedAboveMinimum(b: PowerBudget, i: PlanningInputs)
    requires WithinCap(b, i) && b.runtimeBudgetActive && !b.requiredRuntimeAchievable && !AtMinimumCharge(i)
    ensures b.auto == 0.0 && (b.fixed > UsableEnergy(i) / i.runtimeHours || b.fixed > b.budget - b.reserve)
  {
  }

  lemma Quotient(a: real, b: real)
    requires b > 0.0
    ensures (a / b) * b == a
  {
  }

  lemma NoEnergyAtMinimum(i: PlanningInputs)
    requires i.chargePercent <= i.battery.minimumPercent
    ensures UsableEnergy(i) == 0.0
  {
  }

  lemma EnergyNonNegative(i: PlanningInputs)
    requires i.runtimeHours > 0.0 && i.battery.capacityAmpHours > 0.0 && i.battery.nameplateVolts > 0.0
    ensures UsableEnergy(i) / i.runtimeHours >= 0.0
  {
  }

  lemma MulMono(a: real, b: real, c: real)
    requires a <= b && c > 0.0
    ensures a * c <= b * c
  {
  }

  lemma MulStrict(a: real, b: real, c: real)
    requires a < b && c > 0.0
    ensures a * c < b * c
  {
  }

  /** At or below the minimum state of charge no AUTO power is granted. */
  lemma NoAutoPowerAtMinimumCharge(b: PowerBudget, i: PlanningInputs)
    requires WithinCap(b, i) && AtMinimumCharge(i)
    ensures b.auto == 0.0
  {
  }

  /** The usable energy in hundredths of a watt-hour, by what the battery is and how far it is charged. */
  lemma UsableEnergyInFull(i: PlanningInputs)
    ensures UsableEnergy(i) * 100.0 ==
            if i.chargePercent <= i.battery.minimumPercent then 0.0
            else i.battery.capacityAmpHours * i.battery.nameplateVolts * (i.chargePercent - i.battery.minimumPercent)
  {
    var above := i.chargePercent - i.battery.minimumPercent;
    if above > 0.0 {
      assert UsableEnergy(i) == i.battery.capacityAmpHours * i.battery.nameplateVolts * (above / 100.0);
      Hundredths(i.battery.capacityAmpHours * i.battery.nameplateVolts, above);
    } else {
      NoEnergyAtMinimum(i);
    }
  }

  lemma Hundredths(a: real, b: real)
    ensures a * (b / 100.0) * 100.0 == a * b
  {
  }

  /** So much demand fits: beside the reserve, within the usable energy if a runtime is required. */
  predicate Fits(demand: real, b: PowerBudget, i: PlanningInputs) {
    && demand <= b.budget - b.reserve
    && (i.runtimeHours > 0.0 ==>
          demand * i.runtimeHours * 100.0 <=
          i.battery.capacityAmpHours * i.battery.nameplateVolts * (i.chargePercent - i.battery.minimumPercent))
    && !(i.chargeValid && i.chargePercent <= i.battery.minimumPercent)
  }

  /** A demand within the mean power of the usable energy is one that energy covers. */
  lemma CoveredInFull(demand: real, i: PlanningInputs)
    requires i.runtimeHours > 0.0 && i.chargePercent > i.battery.minimumPercent
    ensures demand <= UsableEnergy(i) / i.runtimeHours <==>
            demand * i.runtimeHours * 100.0 <=
            i.battery.capacityAmpHours * i.battery.nameplateVolts * (i.chargePercent - i.battery.minimumPercent)
  {
    PowerIsEnergy(demand, UsableEnergy(i), i.runtimeHours);
    UsableEnergyInFull(i);
  }

  /** What is granted to AUTO loads is the most that fits beside the fixed demand, to the last watt. */
  lemma GrantIsLargest(b: PowerBudget, i: PlanningInputs, x: real)
    requires Plannable(b, i) && x > 0.0
    ensures x <= Updated(b, i).autoAvailable <==> Fits(b.fixed + x, b, i)
    ensures Updated(b, i).autoAvailable >= 0.0
  {
    if i.runtimeHours > 0.0 && i.chargePercent > i.battery.minimumPercent { CoveredInFull(b.fixed + x, i); }
  }

  /**
   * A required runtime is looked at exactly when one is set, and reported achievable exactly when the fixed demand
   * fits; at minimum charge only no fixed demand does.
   */
  lemma AchievableExactly(b: PowerBudget, i: PlanningInputs)
    requires Plannable(b, i)
    ensures Updated(b, i).runtimeBudgetActive <==> i.runtimeHours > 0.0
    ensures i.runtimeHours > 0.0 ==>
              (Updated(b, i).requiredRuntimeAchievable <==> b.fixed == 0.0 || Fits(b.fixed, b, i))
    ensures i.runtimeHours <= 0.0 ==> Updated(b, i).requiredRuntimeAchievable
  {
    if i.runtimeHours > 0.0 {
      EnergyNonNegative(i);
      if i.chargePercent > i.battery.minimumPercent { CoveredInFull(b.fixed, i); }
    }
  }

  /** What an update leaves alone: the settings and demands it started from; what was measured is copied. */
  lemma UpdatedKeepsDemand(b: PowerBudget, i: PlanningInputs)
    ensures var u := Updated(b, i);
            u.budget == b.budget && u.reserve == b.reserve && u.fixed == b.fixed && u.auto == b.auto &&
            u.measured == i.measured
  {
  }

  /** What a cycle that respects the cap promises about its budget. */
  predicate Guaranteed(b: PowerBudget, i: PlanningInputs) {
    && b.auto <= b.autoAvailable
    && (b.fixed <= b.budget - b.reserve ==> b.remaining >= b.reserve && b.fixed + b.auto + b.remaining == b.budget)
    && (b.fixed + b.auto <= b.budget <==> b.fixed <= b.budget)
    && (b.runtimeBudgetActive && b.requiredRuntimeAchievable ==> (b.fixed + b.auto) * i.runtimeHours <= UsableEnergy(i))
    && (AtMinimumCharge(i) ==> b.auto == 0.0)
  }

  lemma CapGuarantees(b: PowerBudget, i: PlanningInputs)
    requires WithinCap(b, i)
    ensures Guaranteed(b, i)
  {
    ReserveKept(b, i);
    PowerConserved(b, i);
    if b.runtimeBudgetActive { RuntimeCovered(b, i); }
    if AtMinimumCharge(i) { NoAutoPowerAtMinimumCharge(b, i); }
  }

  // ---------------------------------------------------------------------------------------------------
  // The object
  // ---------------------------------------------------------------------------------------------------

  class PowerManager {
    var powerBudget: PowerBudget
    var battery: Battery
    var measurements: Measurements
    var chargePercent: real
    var chargeSource: ChargeSource
    var chargeInitialized: bool
    var remainingRequiredRuntimeHours: real

    function Inputs(): PlanningInputs
      reads this
    {
      PlanningInputs(battery, chargePercent, IsStateOfChargeValid(), remainingRequiredRuntimeHours, measurements)
    }

    predicate IsStateOfChargeValid()
      reads this
    {
      chargeInitialized && !chargeSource.Unknown? && ValidPercent(chargePercent)
    }

    method SetPowerBudgetWatts(w: Float) returns (accepted: bool)
      modifies this`powerBudget
      ensures accepted <==> FinitePositive(w)
      ensures powerBudget == if accepted then old(powerBudget).(budget := w.value) else old(powerBudget)
    {
      if !FinitePositive(w) {
        return false;
      }
      powerBudget := powerBudget.(budget := w.value);
      return true;
    }

    method SetPowerReserveWatts(w: Float) returns (accepted: bool)
      modifies this`powerBudget
      ensures accepted <==> FiniteNonNegative(w)
      ensures powerBudget == if accepted then old(powerBudget).(reserve := w.value) else old(powerBudget)
    {
      if !FiniteNonNegative(w) {
        return false;
      }
      powerBudget := powerBudget.(reserve := w.value);
      return true;
    }

    method SetFixedPowerWatts(w: real) returns (accepted: bool)
      modifies this`powerBudget
      ensures accepted <==> w >= 0.0
      ensures powerBudget == if accepted then old(powerBudget).(fixed := w) else old(powerBudget)
    {
      if w < 0.0 {
        return false;
      }
      powerBudget := powerBudget.(fixed := w);
      return true;
    }

    method SetAutoPowerWatts(w: real) returns (accepted: bool)
      modifies this`powerBudget
      ensures accepted <==> w >= 0.0
      ensures powerBudget == if accepted then old(powerBudget).(auto := w) else old(powerBudget)
    {
      if w < 0.0 {
        return false;
      }
      powerBudget := powerBudget.(auto := w);
      return true;
    }

    method SetRemainingRequiredRuntimeHours(hours: Float) returns (accepted: bool)
      modifies this`remainingRequiredRuntimeHours
      ensures accepted <==> FiniteNonNegative(hours)
      ensures remainingRequiredRuntimeHours == if accepted then hours.value else old(remainingRequiredRuntimeHours)
    {
      if !FiniteNonNegative(hours) {
        return false;
      }
      remainingRequiredRuntimeHours := hours.value;
      return true;
    }

    /** Either every derived field is renewed or, on bad inputs, nothing changes. */
    method UpdatePowerBudget() returns (updated: bool)
      modifies this`powerBudget
      ensures updated <==> Plannable(old(powerBudget), Inputs())
      ensures powerBudget == if updated then Updated(old(powerBudget), Inputs()) else old(powerBudget)
    {
      var b := powerBudget;
      ghost var i := Inputs();
      var minimum := battery.minimumPercent;
      if b.budget <= 0.0 || b.reserve < 0.0 || b.fixed < 0.0 || b.auto < 0.0 || b.reserve > b.budget ||
          !ValidPercent(minimum) {
        return false;
      }
      var chargeRequired := minimum > 0.0 || remainingRequiredRuntimeHours > 0.0;
      if chargeRequired && !IsStateOfChargeValid() {
        return false;
      }
      var afterReserve := MaxReal(0.0, b.budget - b.reserve);
      var allowance := afterReserve;
      var runtimeActive := remainingRequiredRuntimeHours > 0.0;
      var achievable := true;
      if runtimeActive {
        if battery.capacityAmpHours <= 0.0 || battery.nameplateVolts <= 0.0 {
          return false;
        }
        var usableFraction := MaxReal(0.0, (chargePercent - minimum) / 100.0);
        var usableEnergy := battery.capacityAmpHours * battery.nameplateVolts * usableFraction;
        assert usableEnergy == UsableEnergy(i);
        var runtimeAllowance := usableEnergy / remainingRequiredRuntimeHours;
        if runtimeAllowance >= FLOAT_OVERFLOW {
          return false;
        }
        allowance := MinReal(afterReserve, runtimeAllowance);
        achievable := b.fixed <= allowance;
      }
      assert allowance == PolicyAllowance(b, i);
      if IsStateOfChargeValid() && chargePercent <= minimum {
        allowance := 0.0;
        if runtimeActive && b.fixed > 0.0 {
          achievable := false;
        }
      }
      assert allowance == Allowance(b, i) && achievable == Achievable(b, i);
      powerBudget := b.(autoAvailable := MaxReal(0.0, allowance - b.fixed),
                        remaining := MaxReal(0.0, b.budget - (b.fixed + b.auto)),
                        runtimeBudgetActive := runtimeActive,
                        requiredRuntimeAchievable := achievable,
                        measured := measurements);
      return true;
    }
  }
}
