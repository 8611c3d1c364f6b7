/** What one pass of the watcher over all sensors does to the statuses and to the request
    table, as values. */
module ThermalPass {
  import opened ThermalSeverity
  import opened ThermalPid
  import opened ThermalCooling
  import opened ThermalSensor

  type Infos = map<string, SensorInfo>
  type Cdevs = map<string, CdevInfo>
  type Statuses = map<string, SensorStatus>
  type Requests = map<string, map<string, int>>
  type Release = (string, string) -> int

  /** Every sensor is well configured and its status keeps the sensor invariant. */
  ghost predicate StatusesOk(infos: Infos, cdevs: Cdevs, statuses: Statuses) {
    && statuses.Keys == infos.Keys
    && forall s :: s in infos ==> WellFormed(infos[s], cdevs) && SensorInvariant(infos[s], statuses[s])
  }

  /** A device knows a sensor only if the sensor binds it with a weight or a limit. */
  ghost predicate RequestsOk(infos: Infos, requests: Requests) {
    forall c, s :: c in requests && s in requests[c] ==> s in infos && c in infos[s].bound && TakesPart(infos[s].bound[c])
  }

  predicate TakesPart(b: Binding) {
    Weighted(b) || Limited(b)
  }

  /** The sensor is watched and has a reading in this pass. */
  predicate Due(infos: Infos, readings: map<string, Reading>, s: string) {
    s in infos && infos[s].isMonitor && s in readings
  }

  /** The request a sensor's status amounts to for each bound device. */
  function Asks(info: SensorInfo, st: SensorStatus, sensor: string, release: Release): (r: map<string, Ask>)
    ensures r.Keys == info.bound.Keys
  {
    map c | c in info.bound :: Ask(if c in st.pidRequest then st.pidRequest[c] else 0,
                                   if c in st.hardRequest then st.hardRequest[c] else 0,
                                   release(sensor, c))
  }

  /** What a sensor, as it stands, wants of each device it binds. */
  function WantsOf(info: SensorInfo, st: SensorStatus, sensor: string, release: Release): map<string, int> {
    Wants(info.bound, Asks(info, st, sensor, release), st.severity)
  }

  /** One sensor's status: a step if it was due and has been handled, else as before. */
  ghost predicate StatusAfter(infos: Infos, cdevs: Cdevs, before: SensorStatus, after: SensorStatus, due: bool,
                              readings: map<string, Reading>, s: string)
    requires s in infos && (due ==> s in readings)
  {
    if due then SensorStep(infos[s], cdevs, before, after, readings[s]) else after == before
  }

  /** Once the sensors in `handled` have been handled, those of them that were due have
      taken their step and all others are as before. */
  ghost predicate StatusesAfter(infos: Infos, cdevs: Cdevs, before: Statuses, after: Statuses, handled: set<string>,
                                readings: map<string, Reading>)
  {
    && before.Keys == infos.Keys && after.Keys == infos.Keys
    && forall s :: s in infos ==>
         StatusAfter(infos, cdevs, before[s], after[s], s in handled && Due(infos, readings, s), readings, s)
  }

  /** The entry of one sensor in the row of one device. */
  ghost predicate EntryAfter(infos: Infos, before: map<string, int>, after: map<string, int>, statuses: Statuses,
                             fromDue: bool, release: Release, c: string, s: string)
    requires s in before && s in after && s in infos && s in statuses
  {
    if fromDue
    then c in WantsOf(infos[s], statuses[s], s, release) && after[s] == WantsOf(infos[s], statuses[s], s, release)[c]
    else after[s] == before[s]
  }

  /** Handled sensors that were due have their fresh request in every row that knows them;
      all other entries are as before. */
  ghost predicate RequestsAfter(infos: Infos, before: Requests, after: Requests, statuses: Statuses, handled: set<string>,
                                readings: map<string, Reading>, release: Release)
    requires RequestsOk(infos, before) && statuses.Keys == infos.Keys
  {
    && after.Keys == before.Keys
    && forall c :: c in before ==>
      && after[c].Keys == before[c].Keys
      && forall s :: s in before[c] ==>
           EntryAfter(infos, before[c], after[c], statuses, s in handled && Due(infos, readings, s), release, c, s)
  }

  /** The dirty list names every row that is not as before. */
  ghost predicate Listed(before: Requests, after: Requests, dirty: seq<string>) {
    && after.Keys == before.Keys
    && (forall c :: c in before && c !in dirty ==> after[c] == before[c])
    && (forall c :: c in dirty ==> c in before)
  }

  /** The sensors whose severity is not as before. */
  ghost predicate Changed(before: Statuses, after: Statuses, changed: seq<string>) {
    && after.Keys == before.Keys
    && forall s :: s in changed <==> s in before && after[s].severity != before[s].severity
  }

  // ------------------------------------------------------------ one sensor more

  lemma StatusesOkStep(infos: Infos, cdevs: Cdevs, statuses: Statuses, s: string, st: SensorStatus)
    requires StatusesOk(infos, cdevs, statuses) && s in infos && SensorInvariant(infos[s], st)
    ensures StatusesOk(infos, cdevs, statuses[s := st])
  {
  }

  lemma KnownDevices(infos: Infos, cdevs: Cdevs, statuses: Statuses, requests: Requests, s: string)
    requires StatusesOk(infos, cdevs, statuses) && RequestsOk(infos, requests) && s in infos
    ensures forall c :: c in requests && s in requests[c] ==> c in infos[s].bound && Complete(infos[s].bound[c])
  {
    assert WellFormed(infos[s], cdevs);
  }

  /** A sensor whose status holds no request of either kind is known to no device. */
  lemma NoRequestNoDevice(infos: Infos, cdevs: Cdevs, statuses: Statuses, requests: Requests, s: string, wants: map<string, int>)
    requires StatusesOk(infos, cdevs, statuses) && RequestsOk(infos, requests) && s in infos
    requires statuses[s].pidRequest == map[] && statuses[s].hardRequest == map[]
    ensures CoolingDevices.Asked(requests, requests, s, wants)
  {
    forall c | c in requests ensures s !in requests[c] {
      assert Fits(infos[s], statuses[s]);
      assert c !in statuses[s].pidRequest && c !in statuses[s].hardRequest;
    }
  }

  lemma RequestsOkStep(infos: Infos, before: Requests, after: Requests, s: string, wants: map<string, int>)
    requires RequestsOk(infos, before) && CoolingDevices.Asked(before, after, s, wants)
    ensures RequestsOk(infos, after)
  {
    forall c, z | c in after && z in after[c] ensures z in infos && c in infos[z].bound && TakesPart(infos[z].bound[c]) {
      assert z in before[c];
    }
  }

  lemma SameStatus(infos: Infos, cdevs: Cdevs, before: SensorStatus, a: SensorStatus, b: SensorStatus, due: bool, due': bool,
                   readings: map<string, Reading>, s: string)
    requires s in infos && (due ==> s in readings)
    requires a == b && due == due' && StatusAfter(infos, cdevs, before, a, due, readings, s)
    ensures StatusAfter(infos, cdevs, before, b, due', readings, s)
  {
  }

  lemma StatusesSkip(infos: Infos, cdevs: Cdevs, before: Statuses, now: Statuses, handled: set<string>,
                     readings: map<string, Reading>, s: string)
    requires StatusesAfter(infos, cdevs, before, now, handled, readings)
    requires !Due(infos, readings, s)
    ensures StatusesAfter(infos, cdevs, before, now, handled + {s}, readings)
  {
    forall z | z in infos
      ensures StatusAfter(infos, cdevs, before[z], now[z], z in handled + {s} && Due(infos, readings, z), readings, z)
    {
      assert StatusAfter(infos, cdevs, before[z], now[z], z in handled && Due(infos, readings, z), readings, z);
    }
  }

  lemma StatusesStep(infos: Infos, cdevs: Cdevs, before: Statuses, now: Statuses, handled: set<string>,
                     readings: map<string, Reading>, s: string, st: SensorStatus)
    requires StatusesAfter(infos, cdevs, before, now, handled, readings)
    requires Due(infos, readings, s) && s !in handled && now[s] == before[s]
    requires SensorStep(infos[s], cdevs, before[s], st, readings[s])
    ensures StatusesAfter(infos, cdevs, before, now[s := st], handled + {s}, readings)
  {
    forall z | z in infos
      ensures StatusAfter(infos, cdevs, before[z], now[s := st][z], z in handled + {s} && Due(infos, readings, z), readings, z)
    {
      if z != s {
        assert StatusAfter(infos, cdevs, before[z], now[z], z in handled && Due(infos, readings, z), readings, z);
        SameStatus(infos, cdevs, before[z], now[z], now[s := st][z], z in handled && Due(infos, readings, z),
                   z in handled + {s} && Due(infos, readings, z), readings, z);
      }
    }
  }

  lemma RequestsSkip(infos: Infos, before: Requests, now: Requests, statuses: Statuses, handled: set<string>,
                     readings: map<string, Reading>, release: Release, s: string)
    requires RequestsOk(infos, before) && statuses.Keys == infos.Keys && !Due(infos, readings, s)
    requires RequestsAfter(infos, before, now, statuses, handled, readings, release)
    ensures RequestsAfter(infos, before, now, statuses, handled + {s}, readings, release)
  {
    forall c, z | c in before && z in before[c]
      ensures EntryAfter(infos, before[c], now[c], statuses, z in handled + {s} && Due(infos, readings, z), release, c, z)
    {
      assert EntryAfter(infos, before[c], now[c], statuses, z in handled && Due(infos, readings, z), release, c, z);
    }
  }

  lemma RequestsStep(infos: Infos, before: Requests, now: Requests, next: Requests, statuses: Statuses, handled: set<string>,
                     readings: map<string, Reading>, release: Release, s: string, st: SensorStatus)
    requires RequestsOk(infos, before) && statuses.Keys == infos.Keys && Due(infos, readings, s) && s !in handled
    requires forall c :: c in infos[s].bound ==> Complete(infos[s].bound[c])
    requires RequestsAfter(infos, before, now, statuses, handled, readings, release)
    requires CoolingDevices.Asked(now, next, s, WantsOf(infos[s], st, s, release))
    ensures RequestsAfter(infos, before, next, statuses[s := st], handled + {s}, readings, release)
  {
    var wants := WantsOf(infos[s], st, s, release);
    forall c | c in before ensures next[c].Keys == before[c].Keys {
      assert now[c].Keys == before[c].Keys;
    }
    forall c, z | c in before && z in before[c]
      ensures EntryAfter(infos, before[c], next[c], statuses[s := st], z in handled + {s} && Due(infos, readings, z), release, c, z)
    {
      assert EntryAfter(infos, before[c], now[c], statuses, z in handled && Due(infos, readings, z), release, c, z);
      if z == s { assert c in wants && next[c][s] == wants[c]; }
    }
  }

  lemma ListedStep(before: Requests, now: Requests, next: Requests, dirty: seq<string>, more: seq<string>)
    requires Listed(before, now, dirty) && Listed(now, next, more)
    ensures Listed(before, next, dirty + more)
  {
  }

  lemma ChangedStep(before: Statuses, now: Statuses, changed: seq<string>, s: string, st: SensorStatus)
    requires Changed(before, now, changed) && s in before && now[s] == before[s]
    ensures Changed(before, now[s := st], if st.severity != before[s].severity then changed + [s] else changed)
  {
  }

  /** A pass that has handled some of the sensors. */
  ghost predicate PassSoFar(infos: Infos, cdevs: Cdevs, st0: Statuses, rq0: Requests, st: Statuses, rq: Requests,
                            handled: set<string>, dirty: seq<string>, changed: seq<string>,
                            readings: map<string, Reading>, release: Release)
    requires StatusesOk(infos, cdevs, st0) && RequestsOk(infos, rq0)
  {
    && StatusesAfter(infos, cdevs, st0, st, handled, readings)
    && RequestsAfter(infos, rq0, rq, st, handled, readings, release)
    && Listed(rq0, rq, dirty)
    && Changed(st0, st, changed)
  }

  lemma PassSkips(infos: Infos, cdevs: Cdevs, st0: Statuses, rq0: Requests, st: Statuses, rq: Requests,
                  handled: set<string>, dirty: seq<string>, changed: seq<string>,
                  readings: map<string, Reading>, release: Release, s: string)
    requires StatusesOk(infos, cdevs, st0) && RequestsOk(infos, rq0) && !Due(infos, readings, s)
    requires PassSoFar(infos, cdevs, st0, rq0, st, rq, handled, dirty, changed, readings, release)
    ensures PassSoFar(infos, cdevs, st0, rq0, st, rq, handled + {s}, dirty, changed, readings, release)
  {
    StatusesSkip(infos, cdevs, st0, st, handled, readings, s);
    RequestsSkip(infos, rq0, rq, st, handled, readings, release, s);
  }

  lemma PassHandles(infos: Infos, cdevs: Cdevs, st0: Statuses, rq0: Requests, st: Statuses, rq: Requests,
                    handled: set<string>, dirty: seq<string>, changed: seq<string>,
                    readings: map<string, Reading>, release: Release, s: string,
                    new_st: Statuses, new_rq: Requests, more: seq<string>)
    requires StatusesOk(infos, cdevs, st0) && RequestsOk(infos, rq0) && Due(infos, readings, s) && s !in handled
    requires PassSoFar(infos, cdevs, st0, rq0, st, rq, handled, dirty, changed, readings, release)
    requires s in new_st && new_st == st[s := new_st[s]] && st[s] == st0[s]
    requires SensorStep(infos[s], cdevs, st0[s], new_st[s], readings[s])
    requires CoolingDevices.Asked(rq, new_rq, s, WantsOf(infos[s], new_st[s], s, release))
    requires Listed(rq, new_rq, more)
    ensures PassSoFar(infos, cdevs, st0, rq0, new_st, new_rq, handled + {s}, dirty + more,
                      if new_st[s].severity != st0[s].severity then changed + [s] else changed, readings, release)
  {
    StatusesStep(infos, cdevs, st0, st, handled, readings, s, new_st[s]);
    RequestsStep(infos, rq0, rq, new_rq, st, handled, readings, release, s, new_st[s]);
    ListedStep(rq0, rq, new_rq, dirty, more);
    ChangedStep(st0, st, changed, s, new_st[s]);
  }

  // ------------------------------------------------------------ a pass in plain numbers

  function Request(requests: map<string, int>, c: string): int {
    if c in requests then requests[c] else 0
  }

  /** What a pass leaves of one sensor's request to one device that knows it: of a sensor that
      is watched and has a reading, what its two request maps, the release step, and the floor
      and ceiling for its severity amount to; of any other, what was there before. */
  lemma EntryFromNumbers(infos: Infos, cdevs: Cdevs, before: Requests, after: Requests, statuses: Statuses,
                         readings: map<string, Reading>, release: Release, c: string, s: string)
    requires StatusesOk(infos, cdevs, statuses) && RequestsOk(infos, before)
    requires RequestsAfter(infos, before, after, statuses, infos.Keys, readings, release)
    requires c in before && s in before[c]
    ensures c in after && s in after[c] && s in infos && c in infos[s].bound && Complete(infos[s].bound[c])
    ensures var (b, st) := (infos[s].bound[c], statuses[s]);
      if infos[s].isMonitor && s in readings
      then Amounts(after[c][s], Request(st.pidRequest, c), Request(st.hardRequest, c), release(s, c),
                   b.floors[st.severity], b.ceilings[st.severity])
      else after[c][s] == before[c][s]
  {
    assert WellFormed(infos[s], cdevs);
    assert EntryAfter(infos, before[c], after[c], statuses, s in infos.Keys && Due(infos, readings, s), release, c, s);
    WantedAmounts(infos[s].bound[c], statuses[s].severity, Asks(infos[s], statuses[s], s, release)[c]);
  }

  /** So the kernel's state of a device is at least what a watched sensor's controller allotted to
      it and at least its hard limit, unless that lies above the ceiling. */
  lemma DeviceIsThrottled(infos: Infos, cdevs: Cdevs, before: Requests, after: Requests, statuses: Statuses,
                          readings: map<string, Reading>, release: Release, c: string, s: string, state: int)
    requires StatusesOk(infos, cdevs, statuses) && RequestsOk(infos, before)
    requires RequestsAfter(infos, before, after, statuses, infos.Keys, readings, release)
    requires c in before && s in before[c] && infos[s].isMonitor && s in readings && release(s, c) == 0
    requires c in after && IsAggregate(after[c], state)
    ensures c in infos[s].bound && Complete(infos[s].bound[c])
    ensures var ceiling := infos[s].bound[c].ceilings[statuses[s].severity];
      && (Request(statuses[s].pidRequest, c) <= state || ceiling <= state)
      && (Request(statuses[s].hardRequest, c) <= state || ceiling <= state)
  {
    var (b, st) := (infos[s].bound[c], statuses[s]);
    EntryFromNumbers(infos, cdevs, before, after, statuses, readings, release, c, s);
    AmountIs(after[c][s], Request(st.pidRequest, c), Request(st.hardRequest, c), 0, b.floors[st.severity], b.ceilings[st.severity]);
  }

  /** A sensor that is not watched or has no reading keeps its status. */
  lemma OthersKeepStatus(infos: Infos, cdevs: Cdevs, before: Statuses, after: Statuses, readings: map<string, Reading>, s: string)
    requires StatusesAfter(infos, cdevs, before, after, infos.Keys, readings) && s in infos
    ensures s in before && s in after
    ensures if infos[s].isMonitor && s in readings then SensorStep(infos[s], cdevs, before[s], after[s], readings[s])
            else after[s] == before[s]
  {
    assert StatusAfter(infos, cdevs, before[s], after[s], s in infos.Keys && Due(infos, readings, s), readings, s);
  }

  // ------------------------------------------------------------ ranges

  /** Every ceiling and every request lies within its device's range. */
  ghost predicate InRange(infos: Infos, cdevs: Cdevs, requests: Requests) {
    && (forall s, c :: s in infos && c in infos[s].bound && c in cdevs ==> CeilingsWithin(infos[s].bound[c], cdevs[c].maxState))
    && (forall c, s :: c in requests && s in requests[c] && c in cdevs ==> 0 <= requests[c][s] <= cdevs[c].maxState)
  }

  /** A pass keeps all requests within range. */
  lemma PassKeepsRange(infos: Infos, cdevs: Cdevs, before: Requests, after: Requests, statuses: Statuses,
                       handled: set<string>, readings: map<string, Reading>, release: Release)
    requires StatusesOk(infos, cdevs, statuses) && RequestsOk(infos, before) && InRange(infos, cdevs, before)
    requires RequestsAfter(infos, before, after, statuses, handled, readings, release)
    ensures InRange(infos, cdevs, after)
  {
    forall c, s | c in after && s in after[c] && c in cdevs ensures 0 <= after[c][s] <= cdevs[c].maxState {
      assert c in before && s in before[c];
      assert EntryAfter(infos, before[c], after[c], statuses, s in handled && Due(infos, readings, s), release, c, s);
      var b := infos[s].bound[c];
      assert WellFormed(infos[s], cdevs) && CeilingsWithin(b, cdevs[c].maxState);
      WantedInRange(b, cdevs[c].maxState, statuses[s].severity, Asks(infos[s], statuses[s], s, release)[c]);
    }
  }

  /** So the aggregate that reaches the kernel is a state the device has. */
  lemma AggregateInRange(infos: Infos, cdevs: Cdevs, requests: Requests, c: string, state: int)
    requires InRange(infos, cdevs, requests) && c in requests && c in cdevs && cdevs[c].maxState >= 0
    requires IsAggregate(requests[c], state)
    ensures 0 <= state <= cdevs[c].maxState
  {
  }
}
