/** One monitored sensor: its configuration, its status, and what one reading does to the status. */
module ThermalSensor {
  import opened Common
  import opened ThermalSeverity
  import opened ThermalPid
  import opened ThermalAllocation
  import opened ThermalCooling

  datatype CdevInfo = CdevInfo(state2power: seq<real>, maxState: int)

  /** `order` lists the bound devices in the iteration order of the configured map. */
  datatype SensorInfo = SensorInfo(
    isMonitor: bool, sendPowerHint: bool,
    hot: Thresholds, cold: Thresholds, hotHysteresis: Hysteresis, coldHysteresis: Hysteresis,
    pid: PidTable, order: seq<string>, bound: map<string, Binding>)

  datatype SensorStatus = SensorStatus(
    severity: Severity, prevHot: Severity, prevCold: Severity, pid: PidState,
    pidRequest: map<string, int>, hardRequest: map<string, int>)

  datatype Reading = Reading(value: real, elapsedMs: nat)

  predicate Weighted(b: Binding) {
    exists i :: 0 <= i < |b.weights| && b.weights[i].Some?
  }

  predicate Limited(b: Binding) {
    exists i :: 0 <= i < |b.limits| && b.limits[i] > 0
  }

  /** What the parser and the start-up code provide: only a device with a weight needs to say
      what its states draw. */
  ghost predicate Parsed(info: SensorInfo, cdevs: map<string, CdevInfo>) {
    && (forall c :: c in info.order <==> c in info.bound)
    && Distinct(info.order)
    && (forall c :: c in info.bound ==> Complete(info.bound[c]) && c in cdevs && cdevs[c].maxState >= 0)
    && (forall c :: c in info.bound && Weighted(info.bound[c]) ==> cdevs[c].state2power != [])
    && Aimed(info.pid, info.hot)
  }

  /** Limits on one bound device mean limits on all. */
  predicate LimitsOnAllOrNone(info: SensorInfo) {
    forall c, d :: c in info.bound && d in info.bound && Limited(info.bound[c]) ==> Limited(info.bound[d])
  }

  /** What the configuration must provide: besides, what the unchecked map access of the
      hard-limit step demands. */
  ghost predicate WellFormed(info: SensorInfo, cdevs: map<string, CdevInfo>) {
    Parsed(info, cdevs) && LimitsOnAllOrNone(info)
  }

  ghost predicate Fits(info: SensorInfo, st: SensorStatus) {
    && (forall c :: c in st.pidRequest <==> c in info.bound && Weighted(info.bound[c]))
    && (forall c :: c in st.hardRequest <==> c in info.bound && Limited(info.bound[c]))
  }

  function Initial(info: SensorInfo): (st: SensorStatus)
    ensures Fits(info, st)
  {
    SensorStatus(NONE, NONE, NONE, FRESH,
      map c | c in info.bound && Weighted(info.bound[c]) :: 0,
      map c | c in info.bound && Limited(info.bound[c]) :: 0)
  }

  /** The bound devices with their weights at the target level. */
  function DevicesAt(info: SensorInfo, cdevs: map<string, CdevInfo>, target: Severity): (r: seq<Device>)
    requires WellFormed(info, cdevs)
    ensures |r| == |info.order| && DistinctNames(r) && Usable(r)
  {
    seq(|info.order|, i requires 0 <= i < |info.order| =>
      var c := info.order[i]; Device(c, info.bound[c].weights[target], cdevs[c].state2power))
  }

  /** The stronger of the hot and the cold severity. */
  function Stronger(hot: Severity, cold: Severity): Severity {
    if hot > cold then hot else cold
  }

  ghost predicate PidRequests(info: SensorInfo, cdevs: map<string, CdevInfo>, st: SensorStatus, st': SensorStatus, r: Reading)
    requires WellFormed(info, cdevs)
  {
    if st.pidRequest == map[] then st'.pid == st.pid && st'.pidRequest == map[]
    else
      var devices := DevicesAt(info, cdevs, TargetState(info.pid, st'.severity));
      var (pid, budget) := NextPid(info.pid, info.hot, st.pid, st'.severity, r.value, r.elapsedMs);
      && st'.pid == pid
      && if TotalWeight(devices) != 0.0 then Allocated(devices, budget, st.pidRequest, st'.pidRequest)
         else st'.pidRequest == st.pidRequest
  }

  /** What one reading makes of a sensor's status. */
  ghost predicate SensorStep(info: SensorInfo, cdevs: map<string, CdevInfo>, st: SensorStatus, st': SensorStatus, r: Reading)
  {
    && WellFormed(info, cdevs) && Fits(info, st)
    && st'.prevHot == NextHot(info.hot, info.hotHysteresis, st.prevHot, r.value)
    && st'.prevCold == NextCold(info.cold, info.coldHysteresis, st.prevCold, r.value)
    && st'.severity == Stronger(st'.prevHot, st'.prevCold)
    && PidRequests(info, cdevs, st, st', r)
    && st'.hardRequest == map c | c in st.hardRequest :: info.bound[c].limits[st'.severity]
  }

  method UpdateSensor(info: SensorInfo, cdevs: map<string, CdevInfo>, st: SensorStatus, r: Reading) returns (st': SensorStatus)
    requires WellFormed(info, cdevs) && Fits(info, st)
    ensures SensorStep(info, cdevs, st, st', r) && Fits(info, st')
  {
    var hot, cold := GetSeverityFromThresholds(info.hot, info.cold, info.hotHysteresis, info.coldHysteresis,
                                               st.prevHot, st.prevCold, r.value);
    st' := st.(prevHot := hot, prevCold := cold, severity := Stronger(hot, cold));
    if st.pidRequest != map[] {
      st' := RunPid(info, cdevs, st', r);
    }
    if st.hardRequest != map[] {
      LimitsFoundExactly(info, st');
      var ok;
      ok, st' := RequestCdevBySeverity(info, cdevs, st');
    }
  }

  method RunPid(info: SensorInfo, cdevs: map<string, CdevInfo>, st: SensorStatus, r: Reading) returns (st': SensorStatus)
    requires WellFormed(info, cdevs) && Fits(info, st) && st.pidRequest != map[]
    ensures st' == st.(pid := st'.pid, pidRequest := st'.pidRequest)
    ensures PidRequests(info, cdevs, st, st', r) && Fits(info, st')
  {
    var targetState := GetTargetStateOfPID(info.pid, st.severity);
    var pid, powerBudget := PidPowerCalculator(info.pid, info.hot, st.severity, st.pid, r.value, r.elapsedMs, targetState);
    var devices := DevicesAt(info, cdevs, targetState);
    forall i | 0 <= i < |devices| && devices[i].weight.Some? ensures devices[i].name in st.pidRequest {
      var c := info.order[i];
      assert c in info.order && info.bound[c].weights[targetState].Some?;
    }
    var ok, pidRequest := RequestCdevByPower(devices, powerBudget, st.pidRequest);
    st' := st.(pid := pid, pidRequest := pidRequest);
    SameFit(info, st, st');
  }

  /** Fails, as the source throws, at a bound device without an entry. */
  method RequestCdevBySeverity(info: SensorInfo, cdevs: map<string, CdevInfo>, st: SensorStatus) returns (ok: bool, st': SensorStatus)
    requires Parsed(info, cdevs) && Fits(info, st)
    ensures ok <==> forall c :: c in info.bound ==> c in st.hardRequest
    ensures ok ==> st' == st.(hardRequest := map c | c in st.hardRequest :: info.bound[c].limits[st.severity])
    ensures Fits(info, st')
  {
    ghost var expected := map c | c in st.hardRequest :: info.bound[c].limits[st.severity];
    var hardRequest;
    ok, hardRequest := HardLimits(info, cdevs, st.severity, st.hardRequest);
    assert ok ==> forall c :: c in info.bound ==> c in info.order;
    if ok {
      SameLimits(info, hardRequest, expected);
    }
    st' := st.(hardRequest := hardRequest);
    SameFit(info, st, st');
  }

  lemma SameLimits(info: SensorInfo, a: map<string, int>, b: map<string, int>)
    requires a.Keys == b.Keys && (forall c :: c in a ==> c in info.order)
    requires forall i :: 0 <= i < |info.order| && info.order[i] in a ==> a[info.order[i]] == b[info.order[i]]
    ensures a == b
  {
  }

  method HardLimits(info: SensorInfo, cdevs: map<string, CdevInfo>, severity: Severity, before: map<string, int>)
    returns (ok: bool, after: map<string, int>)
    requires Parsed(info, cdevs)
    ensures after.Keys == before.Keys
    ensures ok <==> forall i :: 0 <= i < |info.order| ==> info.order[i] in before
    ensures ok ==> forall i :: 0 <= i < |info.order| ==> after[info.order[i]] == info.bound[info.order[i]].limits[severity]
  {
    after := before;
    for i := 0 to |info.order|
      invariant after.Keys == before.Keys
      invariant forall k :: 0 <= k < i ==>
        info.order[k] in after && after[info.order[k]] == info.bound[info.order[k]].limits[severity]
    {
      if info.order[i] !in after {
        return false, after;
      }
      after := after[info.order[i] := info.bound[info.order[i]].limits[severity]];
    }
    ok := true;
  }

  lemma SameFit(info: SensorInfo, st: SensorStatus, st': SensorStatus)
    requires Fits(info, st) && st'.pidRequest.Keys == st.pidRequest.Keys && st'.hardRequest.Keys == st.hardRequest.Keys
    ensures Fits(info, st')
  {
    assert forall c :: c in st'.pidRequest.Keys <==> c in st.pidRequest;
    assert forall c :: c in st'.hardRequest.Keys <==> c in st.hardRequest;
  }

  /** The step that is taken when there are hard-limit requests finds an entry for every bound
      device exactly when limits on one mean limits on all. */
  lemma LimitsFoundExactly(info: SensorInfo, st: SensorStatus)
    requires Fits(info, st)
    ensures (st.hardRequest == map[] || forall c :: c in info.bound ==> c in st.hardRequest) <==> LimitsOnAllOrNone(info)
  {
    if LimitsOnAllOrNone(info) && st.hardRequest != map[] {
      var d :| d in st.hardRequest;
      assert Limited(info.bound[d]);
    }
  }

  // ------------------------------------------------------------ what every reading keeps

  /** The stored severities are configured levels or NONE, the reported severity is the
      stronger of them, the integral is inside its bound and PID requests are states. */
  ghost predicate SensorInvariant(info: SensorInfo, st: SensorStatus) {
    && Fits(info, st)
    && Storable(info.hot, st.prevHot) && Storable(Mirrored(info.cold), st.prevCold)
    && st.severity == Stronger(st.prevHot, st.prevCold)
    && (AllLimit(info.pid) ==> st.pid.errIntegral == 0.0 || Abs(st.pid.errIntegral) < WindupBound(info.pid))
    && (forall c :: c in st.pidRequest ==> st.pidRequest[c] >= 0)
  }

  lemma InitialInvariant(info: SensorInfo)
    ensures SensorInvariant(info, Initial(info))
  {
  }

  lemma StepKeepsInvariant(info: SensorInfo, cdevs: map<string, CdevInfo>, st: SensorStatus, st': SensorStatus, r: Reading)
    requires WellFormed(info, cdevs) && SensorInvariant(info, st)
    requires SensorStep(info, cdevs, st, st', r) && Fits(info, st')
    ensures SensorInvariant(info, st')
  {
    NextHotStorable(info.hot, info.hotHysteresis, st.prevHot, r.value);
    NextHotStorable(Mirrored(info.cold), info.coldHysteresis, st.prevCold, -r.value);
    if st.pidRequest != map[] {
      IntegralStaysInside(info.pid, info.hot, st.pid, st'.severity, r.value, r.elapsedMs);
      AllocationIsStates(info, cdevs, st, st', r);
    }
  }

  lemma IntegralStaysInside(p: PidTable, hot: Thresholds, st: PidState, severity: Severity, temp: real, elapsedMs: nat)
    requires Aimed(p, hot)
    requires AllLimit(p) ==> st.errIntegral == 0.0 || Abs(st.errIntegral) < WindupBound(p)
    ensures AllLimit(p) ==>
      var x := NextPid(p, hot, st, severity, temp, elapsedMs).0.errIntegral;
      x == 0.0 || Abs(x) < WindupBound(p)
  {
    if AllLimit(p) && Active(p, severity) {
      var t := TargetState(p, severity);
      var err := hot[t].value - temp;
      if NextIntegral(p[t].value, st.errIntegral, err) != st.errIntegral {
        IntegralWithinLimit(p[t].value, st.errIntegral, err);
      }
    }
  }

  lemma AllocationIsStates(info: SensorInfo, cdevs: map<string, CdevInfo>, st: SensorStatus, st': SensorStatus, r: Reading)
    requires WellFormed(info, cdevs) && Fits(info, st) && st.pidRequest != map[]
    requires forall c :: c in st.pidRequest ==> st.pidRequest[c] >= 0
    requires PidRequests(info, cdevs, st, st', r)
    ensures forall c :: c in st'.pidRequest ==> st'.pidRequest[c] >= 0
  {
    var devices := DevicesAt(info, cdevs, TargetState(info.pid, st'.severity));
    forall c | c in st'.pidRequest ensures st'.pidRequest[c] >= 0 {
      if !Spared(devices, c) {
        var i :| 0 <= i < |devices| && devices[i].weight.Some? && devices[i].name == c;
      }
    }
  }

  // ------------------------------------------------------------ one reading in plain numbers

  /** The weights of the listed devices at one level, added up. */
  function WeightsAt(bound: map<string, Binding>, order: seq<string>, t: Severity): real
    requires forall c :: c in order ==> c in bound && Complete(bound[c])
  {
    if order == [] then 0.0
    else
      var n := |order| - 1;
      var c := order[n];
      assert c in order && Complete(bound[c]);
      WeightsAt(bound, order[..n], t) + if bound[c].weights[t].Some? then bound[c].weights[t].value else 0.0
  }

  /** Of a device's part of the budget, by its weight in the total: the first state that draws
      less than that, or the last one. */
  predicate Affords(state2power: seq<real>, budget: real, weight: real, total: real, state: int)
    requires total != 0.0
  {
    && 0 <= state < |state2power|
    && (forall k :: 0 <= k < state ==> state2power[k] >= budget * (weight / total))
    && (state == |state2power| - 1 || state2power[state] < budget * (weight / total))
  }

  lemma {:induction false} WeightsAddUp(info: SensorInfo, cdevs: map<string, CdevInfo>, t: Severity, n: nat)
    requires WellFormed(info, cdevs) && n <= |info.order|
    ensures TotalWeight(DevicesAt(info, cdevs, t)[..n]) == WeightsAt(info.bound, info.order[..n], t)
  {
    var devices := DevicesAt(info, cdevs, t);
    if n > 0 {
      WeightsAddUp(info, cdevs, t, n - 1);
      assert devices[..n][..n - 1] == devices[..n - 1] && info.order[..n][..n - 1] == info.order[..n - 1];
    }
  }

  lemma AllWeightsAddUp(info: SensorInfo, cdevs: map<string, CdevInfo>, t: Severity)
    requires WellFormed(info, cdevs)
    ensures TotalWeight(DevicesAt(info, cdevs, t)) == WeightsAt(info.bound, info.order, t)
  {
    WeightsAddUp(info, cdevs, t, |info.order|);
    assert DevicesAt(info, cdevs, t)[..|info.order|] == DevicesAt(info, cdevs, t) && info.order[..|info.order|] == info.order;
  }

  /** The severities are those of both sides and the stronger of them, and every hard limit is
      the limit configured for it. */
  lemma SeverityFromNumbers(info: SensorInfo, cdevs: map<string, CdevInfo>, st: SensorStatus, st': SensorStatus, r: Reading)
    requires SensorStep(info, cdevs, st, st', r)
    ensures HotAnswer(info.hot, info.hotHysteresis, st.prevHot, r.value, st'.prevHot)
    ensures ColdAnswer(info.cold, info.coldHysteresis, st.prevCold, r.value, st'.prevCold)
    ensures st'.severity >= st'.prevHot && st'.severity >= st'.prevCold && (st'.severity == st'.prevHot || st'.severity == st'.prevCold)
    ensures st'.hardRequest.Keys == st.hardRequest.Keys
    ensures forall c :: c in st.hardRequest ==> c in info.bound && Complete(info.bound[c])
                                                && st'.hardRequest[c] == info.bound[c].limits[st'.severity]
  {
    HotAnswerExactly(info.hot, info.hotHysteresis, st.prevHot, r.value, st'.prevHot);
    ColdAnswerExactly(info.cold, info.coldHysteresis, st.prevCold, r.value, st'.prevCold);
  }

  /** Each device with a weight at the target level gets the state that its part of the budget
      affords, by weight; all other requests stay.  Without a controller, or with weights that
      add up to zero, nothing is allotted. */
  lemma AllotmentFromNumbers(info: SensorInfo, cdevs: map<string, CdevInfo>, st: SensorStatus, st': SensorStatus, r: Reading, c: string)
    requires SensorStep(info, cdevs, st, st', r) && c in st.pidRequest
    ensures c in st'.pidRequest && c in info.bound && Complete(info.bound[c]) && c in cdevs
    ensures forall d :: d in info.order ==> d in info.bound && Complete(info.bound[d])
    ensures Aimed(info.pid, info.hot)
    ensures var t := TargetState(info.pid, st'.severity);
      var (total, w) := (WeightsAt(info.bound, info.order, t), info.bound[c].weights[t]);
      var (pid, budget) := NextPid(info.pid, info.hot, st.pid, st'.severity, r.value, r.elapsedMs);
      && st'.pid == pid
      && if w.Some? && total != 0.0 then Affords(cdevs[c].state2power, budget, w.value, total, st'.pidRequest[c])
         else st'.pidRequest[c] == st.pidRequest[c]
  {
    var t := TargetState(info.pid, st'.severity);
    var budget := NextPid(info.pid, info.hot, st.pid, st'.severity, r.value, r.elapsedMs).1;
    AllWeightsAddUp(info, cdevs, t);
    if TotalWeight(DevicesAt(info, cdevs, t)) != 0.0 {
      AllottedTo(info, cdevs, t, budget, st.pidRequest, st'.pidRequest, c);
    }
  }

  lemma AllottedTo(info: SensorInfo, cdevs: map<string, CdevInfo>, t: Severity, budget: real,
                   before: map<string, int>, after: map<string, int>, c: string)
    requires WellFormed(info, cdevs) && c in info.bound && c in before
    requires var devices := DevicesAt(info, cdevs, t);
      TotalWeight(devices) != 0.0 && Allocated(devices, budget, before, after)
    ensures var (w, total) := (info.bound[c].weights[t], TotalWeight(DevicesAt(info, cdevs, t)));
      c in after && if w.Some? then Affords(cdevs[c].state2power, budget, w.value, total, after[c]) else after[c] == before[c]
  {
    var devices := DevicesAt(info, cdevs, t);
    var i :| 0 <= i < |info.order| && info.order[i] == c;
    assert devices[i].name == c && devices[i].weight == info.bound[c].weights[t];
    if devices[i].weight.Some? {
      assert after[c] == Choice(devices[i], budget, TotalWeight(devices));
    } else {
      assert Spared(devices, c);
    }
  }

  lemma NoControllerNoAllotment(info: SensorInfo, cdevs: map<string, CdevInfo>, st: SensorStatus, st': SensorStatus, r: Reading)
    requires SensorStep(info, cdevs, st, st', r)
    ensures st'.pidRequest.Keys == st.pidRequest.Keys
    ensures st.pidRequest == map[] ==> st'.pid == st.pid
  {
  }
}
