/** The PID power budget of one sensor: which level it aims at, the anti-windup rule of the
    integral term, and the clamp of the budget. */
module ThermalPid {
  import opened Common
  import opened ThermalSeverity

  /** The gains of one configured level; a level without `s_power` is not configured. */
  datatype Gains = Gains(kPo: real, kPu: real, kI: real, kD: real, iMax: real, iCutoff: real,
                         sPower: real, minAllocPower: real, maxAllocPower: real)

  type PidTable = p: seq<Option<Gains>> | |p| == LEVELS witness seq(LEVELS, _ => None)

  /** The largest single-precision number: the budget of a sensor that does not limit. */
  const UNLIMITED: real := 340282346638528859811704183484516925440.0

  /** `prevErr` is NaN, here None, until a first error has been seen. */
  datatype PidState = PidState(errIntegral: real, prevErr: Option<real>)

  const FRESH := PidState(0.0, None)

  // ------------------------------------------------------------ the target level

  /** The first configured level from `i` on, or the number of levels. */
  function FirstFrom(p: PidTable, i: nat): (r: nat)
    requires i <= LEVELS
    ensures i <= r <= LEVELS && (r < LEVELS ==> p[r].Some?)
    ensures forall k :: i <= k < r ==> p[k].None?
    decreases LEVELS - i
  {
    if i == LEVELS || p[i].Some? then i else FirstFrom(p, i + 1)
  }

  /** The last configured level below `i`, or NONE. */
  function LastBelow(p: PidTable, i: nat): (r: Severity)
    requires i <= LEVELS
    ensures r == NONE || (r < i && p[r].Some?)
    ensures forall k :: r < k < i ==> p[k].None?
  {
    if i == 0 then NONE else if p[i - 1].Some? then i - 1 else LastBelow(p, i - 1)
  }

  /** The first configured level above the severity, or else the last configured one. */
  function TargetState(p: PidTable, severity: Severity): Severity {
    var next := FirstFrom(p, severity + 1);
    if next < LEVELS then next else LastBelow(p, severity + 1)
  }

  method GetTargetStateOfPID(p: PidTable, severity: Severity) returns (targetState: Severity)
    ensures targetState == TargetState(p, severity)
  {
    targetState := 0;
    var state: nat := 0;
    while state < LEVELS
      invariant state <= LEVELS && targetState == LastBelow(p, state)
      invariant forall k :: severity < k < state ==> p[k].None?
    {
      if p[state].Some? {
        targetState := state;
        if state > severity {
          break;
        }
      }
      state := state + 1;
    }
  }

  // ------------------------------------------------------------ one computation

  function Clamp(x: real, low: real, high: real): real {
    var y := if x < low then low else x;
    if y > high then high else y
  }

  /** The error counts towards the integral only below the cut-off and while the integral
      term stays inside its limit. */
  predicate Counts(g: Gains, integral: real, err: real) {
    err < g.iCutoff && Abs(integral * g.kI + err * g.kI) < g.iMax
  }

  function NextIntegral(g: Gains, integral: real, err: real): real {
    if Counts(g, integral, err) then integral + err else integral
  }

  function ITerm(g: Gains, integral: real, err: real): real {
    if Counts(g, integral, err) then integral * g.kI + err * g.kI else integral * g.kI
  }

  function PTerm(g: Gains, err: real): real {
    err * if err < 0.0 then g.kPo else g.kPu
  }

  function Slope(kD: real, err: real, prev: real, elapsedMs: nat): real
    requires elapsedMs != 0
  {
    kD * (err - prev) / elapsedMs as real
  }

  function DTerm(g: Gains, st: PidState, err: real, elapsedMs: nat): real {
    if st.prevErr.Some? && elapsedMs != 0 then Slope(g.kD, err, st.prevErr.value, elapsedMs) else 0.0
  }

  /** The new state and the budget at an active target level. */
  function PidStep(g: Gains, threshold: real, st: PidState, temp: real, elapsedMs: nat): (PidState, real) {
    var err := threshold - temp;
    (PidState(NextIntegral(g, st.errIntegral, err), Some(err)),
     Clamp(g.sPower + PTerm(g, err) + ITerm(g, st.errIntegral, err) + DTerm(g, st, err, elapsedMs),
           g.minAllocPower, g.maxAllocPower))
  }

  /** The integral term is the gain times the integral as stored afterwards. */
  lemma ITermFollowsIntegral(g: Gains, integral: real, err: real)
    ensures ITerm(g, integral, err) == NextIntegral(g, integral, err) * g.kI
  {
    Distribute(integral, err, g.kI);
  }

  /** Whether control is active: there is a target above NONE and the sensor is not at NONE. */
  predicate Active(p: PidTable, severity: Severity) {
    severity != NONE && TargetState(p, severity) != NONE
  }

  /** Every configured level of the controller has a temperature threshold. */
  predicate Aimed(p: PidTable, hot: Thresholds) {
    forall i: Severity :: i > 0 && p[i].Some? ==> hot[i].Some?
  }

  function NextPid(p: PidTable, hot: Thresholds, st: PidState, severity: Severity, temp: real, elapsedMs: nat): (PidState, real)
    requires Aimed(p, hot)
  {
    var target := TargetState(p, severity);
    if Active(p, severity) then PidStep(p[target].value, hot[target].value, st, temp, elapsedMs)
    else (FRESH, UNLIMITED)
  }

  method PidPowerCalculator(p: PidTable, hot: Thresholds, severity: Severity, st: PidState, temp: real,
                            elapsedMs: nat, targetState: Severity)
    returns (st': PidState, powerBudget: real)
    requires Aimed(p, hot) && targetState == TargetState(p, severity)
    ensures (st', powerBudget) == NextPid(p, hot, st, severity, temp, elapsedMs)
  {
    powerBudget := UNLIMITED;
    if targetState == 0 || severity == NONE {
      st' := PidState(0.0, None);
      return;
    }
    var g := p[targetState].value;
    var err := hot[targetState].value - temp;
    var pTerm := PTerm(g, err);
    var iTerm, errIntegral := IntegralTerm(g, st.errIntegral, err);
    var dTerm := 0.0;
    if st.prevErr.Some? && elapsedMs != 0 {
      dTerm := Slope(g.kD, err, st.prevErr.value, elapsedMs);
    }
    st' := PidState(errIntegral, Some(err));
    powerBudget := PowerBudget(g, pTerm, iTerm, dTerm);
  }

  /** The integral term, and the integral with the error taken in if both guards allow it. */
  method IntegralTerm(g: Gains, integral: real, err: real) returns (iTerm: real, errIntegral: real)
    ensures iTerm == ITerm(g, integral, err) && errIntegral == NextIntegral(g, integral, err)
  {
    iTerm, errIntegral := integral * g.kI, integral;
    if err < g.iCutoff {
      var iNext := iTerm + err * g.kI;
      if Abs(iNext) < g.iMax {
        iTerm, errIntegral := iNext, errIntegral + err;
      }
    }
  }

  method PowerBudget(g: Gains, pTerm: real, iTerm: real, dTerm: real) returns (powerBudget: real)
    ensures powerBudget == Clamp(g.sPower + pTerm + iTerm + dTerm, g.minAllocPower, g.maxAllocPower)
  {
    powerBudget := g.sPower + pTerm + iTerm + dTerm;
    if powerBudget < g.minAllocPower {
      powerBudget := g.minAllocPower;
    }
    if powerBudget > g.maxAllocPower {
      powerBudget := g.maxAllocPower;
    }
  }

  lemma Distribute(a: real, b: real, k: real)
    ensures a * k + b * k == (a + b) * k
  {
  }

  /** Whenever control is active, the budget lies between the limits of the target level,
      which is the first configured one above the severity or else the last one. */
  lemma BudgetWithinLimits(p: PidTable, hot: Thresholds, st: PidState, severity: Severity, temp: real, elapsedMs: nat)
    requires Aimed(p, hot) && Active(p, severity)
    ensures var t := TargetState(p, severity);
      && p[t].Some?
      && (if exists k :: severity < k < LEVELS && p[k].Some?
          then severity < t && forall k :: severity < k < t ==> p[k].None?
          else forall k :: t < k < LEVELS ==> p[k].None?)
      && var g := p[t].value;
         (g.minAllocPower <= g.maxAllocPower ==>
            g.minAllocPower <= NextPid(p, hot, st, severity, temp, elapsedMs).1 <= g.maxAllocPower)
  {
  }

  // ------------------------------------------------------------ anti-windup over runs

  datatype Input = Input(severity: Severity, temp: real, elapsedMs: nat)

  function PidAfter(p: PidTable, hot: Thresholds, run: seq<Input>): PidState
    requires Aimed(p, hot)
  {
    if run == [] then FRESH else
    var last := run[|run| - 1];
    NextPid(p, hot, PidAfter(p, hot, run[..|run| - 1]), last.severity, last.temp, last.elapsedMs).0
  }

  /** What the integral may reach under one level's rule. */
  function Limit(g: Gains): real {
    if g.kI == 0.0 then 0.0 else g.iMax / Abs(g.kI)
  }

  /** The largest of those limits over the levels below `n`. */
  function WindupBound(p: PidTable, n: nat := LEVELS): (r: real)
    requires n <= LEVELS
    ensures r >= 0.0
    ensures forall k: nat :: k < n && p[k].Some? ==> Limit(p[k].value) <= r
  {
    if n == 0 then 0.0 else
    var rest := WindupBound(p, n - 1);
    if p[n - 1].Some? && Limit(p[n - 1].value) > rest then Limit(p[n - 1].value) else rest
  }

  /** A level whose rule limits the integral: its gain is not zero, or it never integrates. */
  predicate Limits(g: Gains) {
    g.kI != 0.0 || g.iMax <= 0.0
  }

  /** Every level that some severity can select as a target limits the integral. */
  predicate AllLimit(p: PidTable) {
    forall s: Severity :: Active(p, s) ==> Limits(p[TargetState(p, s)].value)
  }

  lemma IntegralWithinLimit(g: Gains, integral: real, err: real)
    requires Limits(g) && NextIntegral(g, integral, err) != integral
    ensures Abs(NextIntegral(g, integral, err)) < Limit(g)
  {
    var x := integral + err;
    Distribute(integral, err, g.kI);
    assert Abs(x * g.kI) < g.iMax;
    assert g.kI != 0.0;
    AbsProduct(x, g.kI);
    BelowQuotient(Abs(x), Abs(g.kI), g.iMax);
  }

  lemma AbsProduct(x: real, k: real)
    ensures Abs(x * k) == Abs(x) * Abs(k)
  {
  }

  lemma BelowQuotient(x: real, k: real, m: real)
    requires k > 0.0 && x * k < m
    ensures x < m / k
  {
    assert x * k / k == x;
    QuotientMonotone(x * k, m, k);
  }

  lemma QuotientMonotone(a: real, b: real, k: real)
    requires k > 0.0 && a < b
    ensures a / k < b / k
  {
  }

  /** Over any run of readings, severities and target changes the integral is zero or
      strictly inside the largest limit of the configured levels. */
  lemma {:induction false} IntegralIsBounded(p: PidTable, hot: Thresholds, run: seq<Input>)
    requires Aimed(p, hot) && AllLimit(p)
    ensures var x := PidAfter(p, hot, run).errIntegral; x == 0.0 || Abs(x) < WindupBound(p)
  {
    if run != [] {
      var init, last := run[..|run| - 1], run[|run| - 1];
      IntegralIsBounded(p, hot, init);
      if Active(p, last.severity) {
        var t := TargetState(p, last.severity);
        var x, err := PidAfter(p, hot, init).errIntegral, hot[t].value - last.temp;
        if NextIntegral(p[t].value, x, err) != x {
          IntegralWithinLimit(p[t].value, x, err);
        }
      }
    }
  }

  lemma IntegratesFreely(g: Gains, integral: real, err: real)
    requires !Limits(g) && err < g.iCutoff
    ensures NextIntegral(g, integral, err) == integral + err
  {
    assert integral * g.kI == 0.0 && err * g.kI == 0.0;
  }
}
