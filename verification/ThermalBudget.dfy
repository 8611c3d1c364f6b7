/** What the power budget of one sensor is, in plain numbers, and when a hotter reading may get
    a larger one. */
module ThermalBudget {
  import opened Common
  import opened ThermalSeverity
  import opened ThermalPid

  /** The budget before its limits, given the integral as stored afterwards. */
  function Demand(g: Gains, threshold: real, prevErr: Option<real>, temp: real, elapsedMs: nat, integral: real): real {
    g.sPower
    + (if temp > threshold then g.kPo * (threshold - temp) else g.kPu * (threshold - temp))
    + g.kI * integral
    + (if prevErr.Some? && elapsedMs > 0 then g.kD * ((threshold - temp) - prevErr.value) / elapsedMs as real else 0.0)
  }

  /** The error is below the cut-off, and the integral term with it strictly inside its limit. */
  predicate TakenIn(g: Gains, integral: real, err: real) {
    err < g.iCutoff && -g.iMax < (integral + err) * g.kI < g.iMax
  }

  lemma TakenInCounts(g: Gains, integral: real, err: real)
    ensures TakenIn(g, integral, err) <==> Counts(g, integral, err)
  {
    Distribute(integral, err, g.kI);
  }

  /** Which level is aimed at, when control is active, and what the budget and the new state
      are: the overtemperature gain above the threshold and the undertemperature gain below,
      the integral gain on the stored integral, and the derivative gain on the error's change
      per elapsed time, cut by the limits. */
  lemma BudgetFromNumbers(p: PidTable, hot: Thresholds, st: PidState, severity: Severity, temp: real, elapsedMs: nat)
    requires Aimed(p, hot) && Active(p, severity)
    ensures var t := TargetState(p, severity);
      var (g, threshold, (st', budget)) := (p[t].value, hot[t].value, NextPid(p, hot, st, severity, temp, elapsedMs));
      var x := Demand(g, threshold, st.prevErr, temp, elapsedMs, st'.errIntegral);
      && (g.minAllocPower <= x <= g.maxAllocPower ==> budget == x)
      && (x < g.minAllocPower <= g.maxAllocPower ==> budget == g.minAllocPower)
      && (x > g.maxAllocPower || g.minAllocPower > g.maxAllocPower ==> budget == g.maxAllocPower)
      && st'.prevErr == Some(threshold - temp)
      && st'.errIntegral == st.errIntegral + if TakenIn(g, st.errIntegral, threshold - temp) then threshold - temp else 0.0
  {
    var t := TargetState(p, severity);
    StepFromNumbers(p[t].value, hot[t].value, st, temp, elapsedMs);
  }

  lemma StepFromNumbers(g: Gains, threshold: real, st: PidState, temp: real, elapsedMs: nat)
    ensures var (st', budget) := PidStep(g, threshold, st, temp, elapsedMs);
      && budget == Clamp(Demand(g, threshold, st.prevErr, temp, elapsedMs, st'.errIntegral), g.minAllocPower, g.maxAllocPower)
      && st'.prevErr == Some(threshold - temp)
      && st'.errIntegral == st.errIntegral + if TakenIn(g, st.errIntegral, threshold - temp) then threshold - temp else 0.0
  {
    TakenInCounts(g, st.errIntegral, threshold - temp);
    SumIsDemand(g, threshold, st, temp, elapsedMs);
  }

  lemma SumIsDemand(g: Gains, threshold: real, st: PidState, temp: real, elapsedMs: nat)
    ensures var err := threshold - temp;
      g.sPower + PTerm(g, err) + ITerm(g, st.errIntegral, err) + DTerm(g, st, err, elapsedMs)
      == Demand(g, threshold, st.prevErr, temp, elapsedMs, NextIntegral(g, st.errIntegral, err))
  {
    var err, integral := threshold - temp, NextIntegral(g, st.errIntegral, threshold - temp);
    DemandIsSum(g, threshold, st.prevErr, temp, elapsedMs, integral);
    ITermIs(g, st.errIntegral, err);
    PTermIs(g, err);
    DTermIs(g, st, err, elapsedMs);
  }

  lemma DemandIsSum(g: Gains, threshold: real, prevErr: Option<real>, temp: real, elapsedMs: nat, integral: real)
    ensures Demand(g, threshold, prevErr, temp, elapsedMs, integral)
         == g.sPower + PPart(g, threshold - temp) + g.kI * integral + DPart(g, prevErr, elapsedMs, threshold - temp)
  {
  }

  lemma ITermIs(g: Gains, integral: real, err: real)
    ensures ITerm(g, integral, err) == g.kI * NextIntegral(g, integral, err)
  {
    ITermFollowsIntegral(g, integral, err);
    Commutes(NextIntegral(g, integral, err), g.kI);
  }

  lemma Commutes(a: real, b: real)
    ensures a * b == b * a
  {
  }

  lemma PTermIs(g: Gains, err: real)
    ensures PTerm(g, err) == PPart(g, err)
  {
    Commutes(err, if err < 0.0 then g.kPo else g.kPu);
  }

  lemma DTermIs(g: Gains, st: PidState, err: real, elapsedMs: nat)
    ensures DTerm(g, st, err, elapsedMs) == DPart(g, st.prevErr, elapsedMs, err)
  {
  }

  function PPart(g: Gains, err: real): real {
    if err < 0.0 then g.kPo * err else g.kPu * err
  }

  function DPart(g: Gains, prevErr: Option<real>, elapsedMs: nat, err: real): real {
    if prevErr.Some? && elapsedMs > 0 then g.kD * (err - prevErr.value) / elapsedMs as real else 0.0
  }

  /** Control is off exactly at severity NONE and for a controller without levels; then the
      state is reset and the budget does not limit. */
  lemma InactiveExactly(p: PidTable, hot: Thresholds, st: PidState, severity: Severity, temp: real, elapsedMs: nat)
    requires Aimed(p, hot)
    ensures !Active(p, severity) <==> severity == NONE || forall k: Severity :: k > 0 ==> p[k].None?
    ensures !Active(p, severity) ==> NextPid(p, hot, st, severity, temp, elapsedMs) == (PidState(0.0, None), UNLIMITED)
  {
    var next, last := FirstFrom(p, severity + 1), LastBelow(p, severity + 1);
    assert forall k: Severity :: severity < k < next ==> p[k].None?;
    assert forall k: Severity :: last < k <= severity ==> p[k].None?;
  }

  // ------------------------------------------------------------ hotter readings

  predicate NonNegativeGains(g: Gains) {
    g.kPo >= 0.0 && g.kPu >= 0.0 && g.kI >= 0.0 && g.kD >= 0.0
  }

  function IPart(g: Gains, integral: real, err: real): real {
    g.kI * (integral + if TakenIn(g, integral, err) then err else 0.0)
  }

  /** The demand as a function of the error alone. */
  function DemandAt(g: Gains, st: PidState, elapsedMs: nat, err: real): real {
    g.sPower + PPart(g, err) + IPart(g, st.errIntegral, err) + DPart(g, st.prevErr, elapsedMs, err)
  }

  lemma DemandIsAt(g: Gains, threshold: real, st: PidState, temp: real, elapsedMs: nat)
    ensures Demand(g, threshold, st.prevErr, temp, elapsedMs,
                   st.errIntegral + if TakenIn(g, st.errIntegral, threshold - temp) then threshold - temp else 0.0)
         == DemandAt(g, st, elapsedMs, threshold - temp)
  {
  }

  /** The derivative gain per unit of error. */
  function Rate(g: Gains, st: PidState, elapsedMs: nat): (r: real)
    ensures g.kD >= 0.0 ==> r >= 0.0
  {
    if st.prevErr.Some? && elapsedMs > 0 then g.kD / elapsedMs as real else 0.0
  }

  lemma NotNegative(k: real, x: real)
    requires k >= 0.0 && x >= 0.0
    ensures k * x >= 0.0
  {
  }

  lemma Difference(k: real, x: real, y: real)
    ensures k * x - k * y == k * (x - y)
  {
  }

  lemma DifferenceOver(k: real, x: real, y: real, n: real)
    requires n > 0.0
    ensures k * x / n - k * y / n == k / n * (x - y)
  {
    assert k * x / n == k / n * x;
    assert k * y / n == k / n * y;
  }

  /** Between two errors on the same side of the threshold the proportional part changes by the
      gain of that side. */
  lemma PChanges(g: Gains, a: real, b: real)
    requires a < b && (b < 0.0 || 0.0 <= a)
    ensures PPart(g, b) - PPart(g, a) == (if b < 0.0 then g.kPo else g.kPu) * (b - a)
  {
    Difference(if b < 0.0 then g.kPo else g.kPu, b, a);
  }

  lemma PGrows(g: Gains, a: real, b: real)
    requires NonNegativeGains(g) && a < b
    ensures PPart(g, a) <= PPart(g, b)
  {
    if a < 0.0 <= b {
      NotNegative(g.kPo, -a);
      assert g.kPo * a == -(g.kPo * -a);
      NotNegative(g.kPu, b);
    } else {
      PChanges(g, a, b);
      NotNegative(if b < 0.0 then g.kPo else g.kPu, b - a);
    }
  }

  lemma DChanges(g: Gains, st: PidState, elapsedMs: nat, a: real, b: real)
    ensures DPart(g, st.prevErr, elapsedMs, b) - DPart(g, st.prevErr, elapsedMs, a) == Rate(g, st, elapsedMs) * (b - a)
  {
    if st.prevErr.Some? && elapsedMs > 0 {
      DifferenceOver(g.kD, b - st.prevErr.value, a - st.prevErr.value, elapsedMs as real);
    }
  }

  lemma IChanges(g: Gains, integral: real, a: real, b: real)
    ensures IPart(g, integral, b) - IPart(g, integral, a) ==
      g.kI * ((if TakenIn(g, integral, b) then b else 0.0) - (if TakenIn(g, integral, a) then a else 0.0))
  {
    Difference(g.kI, integral + (if TakenIn(g, integral, b) then b else 0.0), integral + (if TakenIn(g, integral, a) then a else 0.0));
  }

  /** Of two errors that are both taken in or both not, the larger one demands no less. */
  lemma CoolerDemandsMore(g: Gains, st: PidState, elapsedMs: nat, a: real, b: real)
    requires NonNegativeGains(g) && a < b
    requires g.kI == 0.0 || (TakenIn(g, st.errIntegral, a) <==> TakenIn(g, st.errIntegral, b))
    ensures DemandAt(g, st, elapsedMs, a) <= DemandAt(g, st, elapsedMs, b)
  {
    PGrows(g, a, b);
    DGrows(g, st, elapsedMs, a, b);
    IGrows(g, st.errIntegral, a, b);
  }

  lemma DGrows(g: Gains, st: PidState, elapsedMs: nat, a: real, b: real)
    requires NonNegativeGains(g) && a < b
    ensures DPart(g, st.prevErr, elapsedMs, a) <= DPart(g, st.prevErr, elapsedMs, b)
  {
    DChanges(g, st, elapsedMs, a, b);
    NotNegative(Rate(g, st, elapsedMs), b - a);
  }

  lemma IGrows(g: Gains, integral: real, a: real, b: real)
    requires NonNegativeGains(g) && a < b
    requires g.kI == 0.0 || (TakenIn(g, integral, a) <==> TakenIn(g, integral, b))
    ensures IPart(g, integral, a) <= IPart(g, integral, b)
  {
    IChanges(g, integral, a, b);
    NotNegative(g.kI, if TakenIn(g, integral, a) then b - a else 0.0);
  }

  /** With non-negative gains and the same history, of two readings whose errors are both taken
      in or both not the hotter one never gets the larger budget. */
  lemma HotterGetsNoMore(p: PidTable, hot: Thresholds, st: PidState, severity: Severity, temp: real, hotter: real, elapsedMs: nat)
    requires Aimed(p, hot) && Active(p, severity) && temp < hotter
    requires var (g, threshold) := (p[TargetState(p, severity)].value, hot[TargetState(p, severity)].value);
      NonNegativeGains(g)
      && (g.kI == 0.0 || (TakenIn(g, st.errIntegral, threshold - temp) <==> TakenIn(g, st.errIntegral, threshold - hotter)))
    ensures NextPid(p, hot, st, severity, hotter, elapsedMs).1 <= NextPid(p, hot, st, severity, temp, elapsedMs).1
  {
    var t := TargetState(p, severity);
    BudgetIsCut(p, hot, st, severity, temp, elapsedMs);
    BudgetIsCut(p, hot, st, severity, hotter, elapsedMs);
    CoolerDemandsMore(p[t].value, st, elapsedMs, hot[t].value - hotter, hot[t].value - temp);
  }

  lemma BudgetIsCut(p: PidTable, hot: Thresholds, st: PidState, severity: Severity, temp: real, elapsedMs: nat)
    requires Aimed(p, hot) && Active(p, severity)
    ensures var g := p[TargetState(p, severity)].value;
      NextPid(p, hot, st, severity, temp, elapsedMs).1 ==
      Clamp(DemandAt(g, st, elapsedMs, hot[TargetState(p, severity)].value - temp), g.minAllocPower, g.maxAllocPower)
  {
    BudgetFromNumbers(p, hot, st, severity, temp, elapsedMs);
    DemandIsAt(p[TargetState(p, severity)].value, hot[TargetState(p, severity)].value, st, temp, elapsedMs);
  }

  // ------------------------------------------------------------ exactly when

  /** Of any two readings the hotter one demands no more. */
  ghost predicate HotterDemandsNoMore(g: Gains, st: PidState, elapsedMs: nat) {
    forall a: real, b: real :: a < b ==> DemandAt(g, st, elapsedMs, a) <= DemandAt(g, st, elapsedMs, b)
  }

  /** No error can be taken in, as the settings and the stored integral stand. */
  predicate TakesNothingIn(g: Gains, integral: real) {
    g.iMax <= 0.0 || (integral + g.iCutoff) * g.kI <= -g.iMax
  }

  /** The error at which the integral term reaches a given value. */
  function ErrAt(g: Gains, integral: real, term: real): (err: real)
    requires g.kI > 0.0
    ensures (integral + err) * g.kI == term
  {
    assert term / g.kI * g.kI == term;
    term / g.kI - integral
  }

  lemma Monotone(a: real, b: real, k: real)
    requires k > 0.0
    ensures a < b <==> a * k < b * k
  {
  }

  /** Errors are taken in exactly between two bounds. */
  lemma TakenInBetween(g: Gains, integral: real, err: real)
    requires g.kI > 0.0
    ensures TakenIn(g, integral, err) <==>
      err < g.iCutoff && ErrAt(g, integral, -g.iMax) < err < ErrAt(g, integral, g.iMax)
  {
    Monotone(integral + ErrAt(g, integral, -g.iMax), integral + err, g.kI);
    Monotone(integral + err, integral + ErrAt(g, integral, g.iMax), g.kI);
  }

  /** Steps small enough for a jump to win over a slope. */
  lemma SmallStep(slope: real, jump: real, room: real) returns (d: real)
    requires slope >= 0.0 && jump > 0.0 && room > 0.0
    ensures 0.0 < d < room && slope * d < jump
  {
    var q := jump / (slope + 1.0);
    assert q * (slope + 1.0) == jump && q > 0.0;
    d := (if q < room then q else room) / 2.0;
    assert slope * d <= (slope + 1.0) * d;
    assert (slope + 1.0) * d < (slope + 1.0) * q;
  }

  /** The bounds between which errors are taken in, and that there is room between them. */
  lemma Room(g: Gains, integral: real)
    requires g.kI > 0.0 && !TakesNothingIn(g, integral)
    ensures ErrAt(g, integral, -g.iMax) < ErrAt(g, integral, g.iMax) && ErrAt(g, integral, -g.iMax) < g.iCutoff
  {
    var low, high := ErrAt(g, integral, -g.iMax), ErrAt(g, integral, g.iMax);
    Monotone(integral + low, integral + g.iCutoff, g.kI);
    Monotone(integral + low, integral + high, g.kI);
  }

  lemma Positive(k: real, x: real)
    requires k > 0.0 && x > 0.0
    ensures k * x > 0.0
  {
  }

  lemma Sums(a: real, b: real, c: real, d: real)
    ensures (a + b + c) * d == a * d + b * d + c * d
  {
  }

  /** A jump of the integral part against the slopes of all three. */
  lemma Jumps(g: Gains, st: PidState, elapsedMs: nat, a: real, b: real, kp: real, kd: real, ki: real, jump: real)
    requires PPart(g, b) - PPart(g, a) == kp
    requires DPart(g, st.prevErr, elapsedMs, b) - DPart(g, st.prevErr, elapsedMs, a) == kd
    requires IPart(g, st.errIntegral, b) - IPart(g, st.errIntegral, a) == ki - jump
    requires kp + kd + ki < jump
    ensures DemandAt(g, st, elapsedMs, b) < DemandAt(g, st, elapsedMs, a)
  {
  }

  lemma Outweighed(g: Gains, st: PidState, elapsedMs: nat, a: real, b: real, k: real, jump: real)
    requires a < b && (b < 0.0 || 0.0 <= a) && k == (if b < 0.0 then g.kPo else g.kPu)
    requires IPart(g, st.errIntegral, b) - IPart(g, st.errIntegral, a) == g.kI * (b - a) - jump
    requires k * (b - a) + Rate(g, st, elapsedMs) * (b - a) + g.kI * (b - a) < jump
    ensures DemandAt(g, st, elapsedMs, b) < DemandAt(g, st, elapsedMs, a)
  {
    PChanges(g, a, b);
    DChanges(g, st, elapsedMs, a, b);
    Jumps(g, st, elapsedMs, a, b, k * (b - a), Rate(g, st, elapsedMs) * (b - a), g.kI * (b - a), jump);
  }

  /** Just above its lower bound a negative error is taken in and lowers the demand by a jump. */
  lemma JumpBelow(g: Gains, st: PidState, elapsedMs: nat)
    requires NonNegativeGains(g) && g.kI > 0.0 && !TakesNothingIn(g, st.errIntegral)
    requires ErrAt(g, st.errIntegral, -g.iMax) < 0.0
    ensures !HotterDemandsNoMore(g, st, elapsedMs)
  {
    var i, low, high := st.errIntegral, ErrAt(g, st.errIntegral, -g.iMax), ErrAt(g, st.errIntegral, g.iMax);
    Room(g, i);
    Positive(g.kI, -low);
    var top := if g.iCutoff < high then g.iCutoff else high;
    var d := SmallStep(g.kPo + Rate(g, st, elapsedMs) + g.kI, g.kI * -low, if top - low < -low then top - low else -low);
    TakenInBetween(g, i, low);
    TakenInBetween(g, i, low + d);
    IChanges(g, i, low, low + d);
    Difference(g.kI, d, -low);
    Sums(g.kPo, Rate(g, st, elapsedMs), g.kI, d);
    assert low + d - low == d;
    Outweighed(g, st, elapsedMs, low, low + d, g.kPo, g.kI * -low);
  }

  /** Just below its upper bound a positive error is taken in and raises the demand by a jump. */
  lemma JumpAbove(g: Gains, st: PidState, elapsedMs: nat)
    requires NonNegativeGains(g) && g.kI > 0.0 && !TakesNothingIn(g, st.errIntegral)
    requires ErrAt(g, st.errIntegral, -g.iMax) >= 0.0
    ensures !HotterDemandsNoMore(g, st, elapsedMs)
  {
    var i, low, high := st.errIntegral, ErrAt(g, st.errIntegral, -g.iMax), ErrAt(g, st.errIntegral, g.iMax);
    Room(g, i);
    var top := if g.iCutoff < high then g.iCutoff else high;
    Positive(g.kI, top);
    var d := SmallStep(g.kPu + Rate(g, st, elapsedMs) + g.kI, g.kI * top, top - low);
    TakenInBetween(g, i, top);
    TakenInBetween(g, i, top - d);
    IChanges(g, i, top - d, top);
    Difference(g.kI, d, top);
    Sums(g.kPu, Rate(g, st, elapsedMs), g.kI, d);
    assert top - (top - d) == d;
    Outweighed(g, st, elapsedMs, top - d, top, g.kPu, g.kI * top);
  }

  lemma NothingTakenIn(g: Gains, integral: real, err: real)
    requires g.kI > 0.0 && TakesNothingIn(g, integral)
    ensures !TakenIn(g, integral, err)
  {
    if err < g.iCutoff { Monotone(integral + err, integral + g.iCutoff, g.kI); }
  }

  /** With non-negative gains and the same history a hotter reading demands no more than a cooler
      one, for all pairs of readings, exactly when there is no integral gain or the settings
      keep every error out: wherever errors begin or cease to be taken in, the demand jumps. */
  lemma HotterDemandsNoMoreExactly(g: Gains, st: PidState, elapsedMs: nat)
    requires NonNegativeGains(g)
    ensures HotterDemandsNoMore(g, st, elapsedMs) <==> g.kI == 0.0 || TakesNothingIn(g, st.errIntegral)
  {
    if g.kI == 0.0 || TakesNothingIn(g, st.errIntegral) {
      forall a: real, b: real | a < b ensures DemandAt(g, st, elapsedMs, a) <= DemandAt(g, st, elapsedMs, b) {
        if g.kI > 0.0 {
          NothingTakenIn(g, st.errIntegral, a);
          NothingTakenIn(g, st.errIntegral, b);
        }
        CoolerDemandsMore(g, st, elapsedMs, a, b);
      }
    } else if ErrAt(g, st.errIntegral, -g.iMax) < 0.0 {
      JumpBelow(g, st, elapsedMs);
    } else {
      JumpAbove(g, st, elapsedMs);
    }
  }

  /** A sensor one degree above its threshold of 50 gets 89, two degrees above it 98: the
      larger error is kept out of the integral. */
  lemma HotterGetsMore()
    ensures var p := [None, Some(Gains(1.0, 1.0, 10.0, 0.0, 15.0, 100.0, 100.0, 0.0, 1000.0)), None, None, None, None, None];
      var hot := [None, Some(50.0), None, None, None, None, None];
      && NextPid(p, hot, FRESH, 1, 51.0, 1000).1 == 89.0
      && NextPid(p, hot, FRESH, 1, 52.0, 1000).1 == 98.0
  {
    var g := Gains(1.0, 1.0, 10.0, 0.0, 15.0, 100.0, 100.0, 0.0, 1000.0);
    var p: PidTable := [None, Some(g), None, None, None, None, None];
    var hot: Thresholds := [None, Some(50.0), None, None, None, None, None];
    assert FirstFrom(p, 2) == LEVELS by { assert forall k :: 2 <= k < LEVELS ==> p[k].None?; }
    assert LastBelow(p, 2) == 1 && Active(p, 1);
    BudgetFromNumbers(p, hot, FRESH, 1, 51.0, 1000);
    BudgetFromNumbers(p, hot, FRESH, 1, 52.0, 1000);
  }
}
