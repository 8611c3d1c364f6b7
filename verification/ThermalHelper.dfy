/** The thermal governor as an object: one pass of the watcher over all sensors, from
    readings to severities, requests, sysfs and power hints. */
module ThermalHelper {
  import opened ThermalSeverity
  import opened ThermalPid
  import opened ThermalCooling
  import opened ThermalSensor
  import opened ThermalPass
  import opened ThermalHints

  class ThermalHelper {
    const sensorInfo: Infos
    const cdevInfo: Cdevs
    const cooling: CoolingDevices
    const hints: PowerHints
    var sensorStatus: Statuses

    ghost predicate Valid()
      reads this, cooling, hints
    {
      && StatusesOk(sensorInfo, cdevInfo, sensorStatus)
      && RequestsOk(sensorInfo, cooling.requests)
      && hints.Valid()
    }

    /** Lowers ceilings to the devices' deepest states and starts every status and every
        request at nothing. */
    constructor (infos: Infos, cdevs: Cdevs)
      requires forall s :: s in infos ==> WellFormed(infos[s], cdevs)
      ensures Valid() && fresh(cooling) && fresh(hints) && cooling.Coherent()
      ensures sensorInfo == AllClamped(infos, cdevs) && cdevInfo == cdevs && sensorStatus == AllInitial(sensorInfo)
      ensures AllZero(cooling.requests) && cooling.requests.Keys == cdevs.Keys
      ensures forall c :: c in cdevs ==> cooling.requests[c].Keys == BoundSensors(sensorInfo, cdevs)[c]
      ensures hints.notified == map[] && hints.asked == {} && InTouch()
    {
      var clamped := AllClamped(infos, cdevs);
      sensorInfo, cdevInfo, sensorStatus := clamped, cdevs, AllInitial(clamped);
      cooling := new CoolingDevices(BoundSensors(clamped, cdevs));
      hints := new PowerHints();
      new;
      InitialOk(infos, cdevs);
    }

    /** Asks a connected power HAL which modes the hinting sensors have; done once, at start-up,
        when the watcher may have made passes already. */
    method UpdateSupportedPowerHints(isModeSupported: (string, Severity) -> bool)
      requires Valid() && hints.asked == {}
      modifies hints
      ensures Valid() && hints.notified == old(hints.notified) && hints.supports == isModeSupported
      ensures InTouch() <==> old(InTouch())
      ensures forall s :: s in hints.asked <==> s in sensorInfo && sensorInfo[s].sendPowerHint
      ensures forall s :: s in sensorInfo ==> (hints.InStep(s) <==>
        !(sensorInfo[s].sendPowerHint && GreatestSupported(isModeSupported, s, hints.Notified(s)) != NONE))
    {
      var sensors := set s | s in sensorInfo && sensorInfo[s].sendPowerHint;
      hints.UpdateSupportedPowerHints(sensors, isModeSupported);
    }

    /** Every sensor that sends hints has been notified of its present severity. */
    ghost predicate InTouch()
      reads this, hints
    {
      Touched(sensorInfo, sensorStatus, hints.notified)
    }

    /** The sensors in step with the table of supported modes. */
    ghost function InStep(): set<string>
      reads this, hints
    {
      set s | s in sensorInfo && hints.InStep(s)
    }

    /** Handles one due sensor: its status, then its requests. */
    method HandleSensor(s: string, r: Reading, release: Release) returns (dirty: seq<string>, severityChanged: bool, ghost st': SensorStatus)
      requires Valid() && s in sensorInfo
      modifies this`sensorStatus, cooling`requests
      ensures Valid()
      ensures sensorStatus == old(sensorStatus)[s := st']
      ensures SensorStep(sensorInfo[s], cdevInfo, old(sensorStatus)[s], st', r)
      ensures severityChanged <==> st'.severity != old(sensorStatus)[s].severity
      ensures CoolingDevices.Asked(old(cooling.requests), cooling.requests, s, WantsOf(sensorInfo[s], st', s, release))
      ensures Listed(old(cooling.requests), cooling.requests, dirty)
    {
      ghost var requests := cooling.requests;
      var now;
      now, severityChanged := UpdateStatus(s, r);
      st' := now;
      dirty := [];
      if now.pidRequest != map[] || now.hardRequest != map[] {
        dirty := RequestDevices(s, now, release);
      } else {
        NoRequestNoDevice(sensorInfo, cdevInfo, sensorStatus, requests, s, WantsOf(sensorInfo[s], now, s, release));
      }
    }

    /** Feeds one reading to a sensor's status. */
    method UpdateStatus(s: string, r: Reading) returns (st': SensorStatus, severityChanged: bool)
      requires Valid() && s in sensorInfo
      modifies this`sensorStatus
      ensures Valid()
      ensures sensorStatus == old(sensorStatus)[s := st']
      ensures SensorStep(sensorInfo[s], cdevInfo, old(sensorStatus)[s], st', r)
      ensures severityChanged <==> st'.severity != old(sensorStatus)[s].severity
    {
      var info, st := sensorInfo[s], sensorStatus[s];
      st' := UpdateSensor(info, cdevInfo, st, r);
      StepKeepsInvariant(info, cdevInfo, st, st', r);
      StatusesOkStep(sensorInfo, cdevInfo, sensorStatus, s, st');
      severityChanged := st'.severity != st.severity;
      sensorStatus := sensorStatus[s := st'];
    }

    /** Turns a sensor's status into requests to the devices that know the sensor. */
    method RequestDevices(s: string, st: SensorStatus, release: Release) returns (dirty: seq<string>)
      requires Valid() && s in sensorInfo
      modifies cooling`requests
      ensures Valid()
      ensures CoolingDevices.Asked(old(cooling.requests), cooling.requests, s, WantsOf(sensorInfo[s], st, s, release))
      ensures Listed(old(cooling.requests), cooling.requests, dirty)
    {
      var info := sensorInfo[s];
      KnownDevices(sensorInfo, cdevInfo, sensorStatus, cooling.requests, s);
      dirty := cooling.ComputeCoolingDevicesRequest(s, st.severity, info.bound, Asks(info, st, s, release));
      RequestsOkStep(sensorInfo, old(cooling.requests), cooling.requests, s, WantsOf(info, st, s, release));
    }

    /** The sensors one after the other. */
    method HandleAll(readings: map<string, Reading>, release: Release) returns (dirty: seq<string>, changed: seq<string>)
      requires Valid()
      modifies this`sensorStatus, cooling`requests
      ensures Valid()
      ensures PassSoFar(sensorInfo, cdevInfo, old(sensorStatus), old(cooling.requests), sensorStatus, cooling.requests,
                        sensorInfo.Keys, dirty, changed, readings, release)
    {
      dirty, changed := [], [];
      var todo := sensorStatus.Keys;
      ghost var handled: set<string> := {};
      ghost var st0, rq0 := sensorStatus, cooling.requests;
      while todo != {}
        invariant Valid() && todo !! handled && todo + handled == sensorInfo.Keys
        invariant forall s :: s in todo ==> sensorStatus[s] == st0[s]
        invariant PassSoFar(sensorInfo, cdevInfo, st0, rq0, sensorStatus, cooling.requests,
                            handled, dirty, changed, readings, release)
        decreases todo
      {
        var s :| s in todo;
        ghost var statuses, requests := sensorStatus, cooling.requests;
        OneHandled(sensorInfo.Keys, todo, handled, s);
        todo := todo - {s};
        if Due(sensorInfo, readings, s) {
          var more, severityChanged, st' := HandleSensor(s, readings[s], release);
          PassHandles(sensorInfo, cdevInfo, st0, rq0, statuses, requests,
                      handled, dirty, changed, readings, release, s, sensorStatus, cooling.requests, more);
          dirty := dirty + more;
          if severityChanged {
            changed := changed + [s];
          }
        } else {
          PassSkips(sensorInfo, cdevInfo, st0, rq0, statuses, requests,
                    handled, dirty, changed, readings, release, s);
        }
        handled := handled + {s};
      }
    }

    /** All sensors, then the listed devices. */
    method HandleAndWrite(readings: map<string, Reading>, release: Release) returns (changed: seq<string>)
      requires Valid() && cooling.Coherent()
      modifies this`sensorStatus, cooling
      ensures Valid() && cooling.Coherent()
      ensures StatusesAfter(sensorInfo, cdevInfo, old(sensorStatus), sensorStatus, sensorInfo.Keys, readings)
      ensures RequestsAfter(sensorInfo, old(cooling.requests), cooling.requests, sensorStatus, sensorInfo.Keys, readings, release)
      ensures old(InRange(sensorInfo, cdevInfo, cooling.requests)) ==> InRange(sensorInfo, cdevInfo, cooling.requests)
      ensures Changed(old(sensorStatus), sensorStatus, changed)
    {
      var dirty;
      dirty, changed := HandleAll(readings, release);
      if InRange(sensorInfo, cdevInfo, old(cooling.requests)) {
        PassKeepsRange(sensorInfo, cdevInfo, old(cooling.requests), cooling.requests, sensorStatus, sensorInfo.Keys, readings, release);
      }
      forall c | c in cooling.requests && c !in dirty ensures cooling.UpToDate(c) {
        assert old(cooling.UpToDate(c));
      }
      if dirty != [] {
        cooling.UpdateCoolingDevices(dirty);
      }
    }

    /** One pass: afterwards the kernel's state of every device is the aggregate of all
        sensors' current requests, although only listed devices were rewritten; and each
        sensor that sends hints has been notified of a changed severity, and is in step with
        the table of supported modes if it was so notified or was before. */
    method ThermalWatcherCallback(readings: map<string, Reading>, release: Release, powerHalExists: bool)
      requires Valid() && cooling.Coherent()
      modifies this`sensorStatus, cooling, hints
      ensures Valid() && cooling.Coherent() && hints.asked == old(hints.asked) && hints.supports == old(hints.supports)
      ensures old(InTouch()) ==> (InTouch() <==> powerHalExists || !SomeHintDue(sensorInfo, old(sensorStatus), sensorStatus))
      ensures HintsAfter(sensorInfo, old(sensorStatus), sensorStatus, old(hints.notified), hints.notified, old(InStep()), InStep(), powerHalExists)
      ensures StatusesAfter(sensorInfo, cdevInfo, old(sensorStatus), sensorStatus, sensorInfo.Keys, readings)
      ensures RequestsAfter(sensorInfo, old(cooling.requests), cooling.requests, sensorStatus, sensorInfo.Keys, readings, release)
      ensures old(InRange(sensorInfo, cdevInfo, cooling.requests)) ==> InRange(sensorInfo, cdevInfo, cooling.requests)
    {
      var changed := HandleAndWrite(readings, release);
      SendDueHints(old(sensorStatus), changed, powerHalExists);
      TouchedExactly(sensorInfo, old(sensorStatus), sensorStatus, old(hints.notified), hints.notified, old(InStep()), InStep(), powerHalExists);
    }

    /** The hints that the changed severities call for. */
    method SendDueHints(ghost before: Statuses, changed: seq<string>, powerHalExists: bool)
      requires Valid() && before.Keys == sensorInfo.Keys && Changed(before, sensorStatus, changed)
      modifies hints
      ensures Valid() && hints.asked == old(hints.asked) && hints.supports == old(hints.supports)
      ensures HintsAfter(sensorInfo, before, sensorStatus, old(hints.notified), hints.notified, old(InStep()), InStep(), powerHalExists)
    {
      SendHints(changed, powerHalExists);
      forall s | s in sensorInfo
        ensures HintAfter(sensorInfo, before, sensorStatus, old(hints.notified), hints.notified, old(InStep()), InStep(), powerHalExists, s)
      {
        assert hints.Notified(s) == Noted(hints.notified, s) && old(hints.Notified(s)) == Noted(old(hints.notified), s);
        assert s in InStep() <==> hints.InStep(s);
        assert s in old(InStep()) <==> old(hints.InStep(s));
      }
    }

    method SendHints(changed: seq<string>, powerHalExists: bool)
      requires hints.Valid() && forall s :: s in changed ==> s in sensorInfo && s in sensorStatus
      modifies hints
      ensures hints.Valid() && hints.asked == old(hints.asked) && hints.supports == old(hints.supports)
      ensures forall s ::
        hints.Notified(s) == if Hinted(sensorInfo, changed, powerHalExists, s) && s in sensorStatus then sensorStatus[s].severity else old(hints.Notified(s))
      ensures forall s :: hints.InStep(s) <==> Hinted(sensorInfo, changed, powerHalExists, s) || old(hints.InStep(s))
    {
      for i := 0 to |changed|
        invariant hints.Valid() && hints.asked == old(hints.asked) && hints.supports == old(hints.supports)
        invariant forall s ::
          hints.Notified(s) == if Hinted(sensorInfo, changed[..i], powerHalExists, s) && s in sensorStatus then sensorStatus[s].severity else old(hints.Notified(s))
        invariant forall s :: hints.InStep(s) <==> Hinted(sensorInfo, changed[..i], powerHalExists, s) || old(hints.InStep(s))
      {
        var s := changed[i];
        if sensorInfo[s].sendPowerHint && powerHalExists {
          hints.SendPowerExtHint(s, sensorStatus[s].severity);
        }
        assert changed[..i + 1] == changed[..i] + [s];
      }
      assert changed[..|changed|] == changed;
    }

    /** At any time a sensor's mode that is on is the greatest one the power HAL supports for the
        severity last notified, and it is on exactly for sensors in step; with a power HAL that
        was there whenever severities changed, that is the present severity. */
    lemma HintsFollowSeverities(s: string)
      requires Valid() && s in hints.asked
      ensures forall l: Severity :: (s, l) in hints.enabled ==> l != NONE && l == GreatestSupported(hints.supports, s, hints.Notified(s))
      ensures hints.InStep(s) <==> forall l: Severity ::
        (s, l) in hints.enabled <==> l != NONE && l == GreatestSupported(hints.supports, s, hints.Notified(s))
      ensures InTouch() && s in sensorInfo && sensorInfo[s].sendPowerHint ==>
        s in sensorStatus && hints.Notified(s) == sensorStatus[s].severity
    {
      assert hints.Notified(s) == Noted(hints.notified, s);
      hints.OnlySupportedModes(s);
    }
  }

  lemma OneHandled(all: set<string>, todo: set<string>, handled: set<string>, s: string)
    requires todo !! handled && todo + handled == all && s in todo
    ensures todo - {s} !! handled + {s} && (todo - {s}) + (handled + {s}) == all
  {
  }

  /** A listed sensor that sends hints, with the power HAL there. */
  predicate Hinted(infos: Infos, changed: seq<string>, powerHalExists: bool, s: string) {
    powerHalExists && s in changed && s in infos && infos[s].sendPowerHint
  }

  /** The sensor sends hints, and its severity changed. */
  predicate HintDue(infos: Infos, before: Statuses, after: Statuses, s: string)
    requires s in infos && s in before && s in after
  {
    infos[s].sendPowerHint && after[s].severity != before[s].severity
  }

  predicate SomeHintDue(infos: Infos, before: Statuses, after: Statuses) {
    exists s :: s in infos && s in before && s in after && HintDue(infos, before, after, s)
  }

  function Noted(notified: map<string, Severity>, s: string): Severity {
    if s in notified then notified[s] else NONE
  }

  /** Every sensor that sends hints was notified of its present severity. */
  ghost predicate Touched(infos: Infos, statuses: Statuses, notified: map<string, Severity>) {
    forall s :: s in infos && infos[s].sendPowerHint ==> s in statuses && Noted(notified, s) == statuses[s].severity
  }

  /** What a pass does to the severity that a sensor was notified of, and whether it is in step
      with the table of supported modes. */
  ghost predicate HintAfter(infos: Infos, before: Statuses, after: Statuses, noted: map<string, Severity>, noted': map<string, Severity>,
                            inStep: set<string>, inStep': set<string>, powerHalExists: bool, s: string)
    requires s in infos && s in before && s in after
  {
    && Noted(noted', s) == HintedSeverity(infos[s], before[s].severity, after[s].severity, Noted(noted, s), powerHalExists)
    && (s in inStep' <==> (powerHalExists && HintDue(infos, before, after, s)) || s in inStep)
  }

  ghost predicate HintsAfter(infos: Infos, before: Statuses, after: Statuses, noted: map<string, Severity>, noted': map<string, Severity>,
                             inStep: set<string>, inStep': set<string>, powerHalExists: bool) {
    && before.Keys == after.Keys == infos.Keys
    && forall s :: s in infos ==> HintAfter(infos, before, after, noted, noted', inStep, inStep', powerHalExists, s)
  }

  /** Nobody is notified without the power HAL, nor a sensor that does not send hints.  A pass
      keeps all hinting sensors notified of their present severity exactly when the power
      HAL is there or no hint was due. */
  lemma TouchedExactly(infos: Infos, before: Statuses, after: Statuses, noted: map<string, Severity>, noted': map<string, Severity>,
                       inStep: set<string>, inStep': set<string>, powerHalExists: bool)
    requires HintsAfter(infos, before, after, noted, noted', inStep, inStep', powerHalExists)
    ensures Touched(infos, before, noted) ==>
      (Touched(infos, after, noted') <==> powerHalExists || !SomeHintDue(infos, before, after))
    ensures forall s :: s in infos && (!powerHalExists || !infos[s].sendPowerHint) ==> Noted(noted', s) == Noted(noted, s)
  {
    if Touched(infos, before, noted) {
      forall s | s in infos && infos[s].sendPowerHint
        ensures Noted(noted', s) == after[s].severity <==> powerHalExists || !HintDue(infos, before, after, s)
      {
        assert HintAfter(infos, before, after, noted, noted', inStep, inStep', powerHalExists, s);
      }
    }
  }

  /** The severity a sensor has been notified of after a pass. */
  function HintedSeverity(info: SensorInfo, before: Severity, now: Severity, noted: Severity, powerHalExists: bool): Severity {
    if now != before && info.sendPowerHint && powerHalExists then now else noted
  }

  // ------------------------------------------------------------ start-up

  function ClampedInfo(info: SensorInfo, cdevs: Cdevs): SensorInfo
    requires WellFormed(info, cdevs)
  {
    info.(bound := map c | c in info.bound :: Clamped(info.bound[c], cdevs[c].maxState))
  }

  function AllClamped(infos: Infos, cdevs: Cdevs): Infos
    requires forall s :: s in infos ==> WellFormed(infos[s], cdevs)
  {
    map s | s in infos :: ClampedInfo(infos[s], cdevs)
  }

  function AllInitial(infos: Infos): Statuses {
    map s | s in infos :: Initial(infos[s])
  }

  /** For each device, the sensors that take part in deciding its state. */
  function BoundSensors(infos: Infos, cdevs: Cdevs): map<string, set<string>> {
    map c | c in cdevs ::
      set s | s in infos && c in infos[s].bound && TakesPart(infos[s].bound[c])
  }

  /** A device's row knows exactly the sensors that bind the device with a weight or a limit. */
  lemma RowsKnowTakers(infos: Infos, cdevs: Cdevs)
    requires forall s :: s in infos ==> WellFormed(infos[s], cdevs)
    ensures forall c, s :: c in cdevs ==> (s in BoundSensors(AllClamped(infos, cdevs), cdevs)[c] <==>
      s in infos && c in infos[s].bound && (Weighted(infos[s].bound[c]) || Limited(infos[s].bound[c])))
  {
    var clamped := AllClamped(infos, cdevs);
    forall c, s | c in cdevs && s in infos && c in infos[s].bound
      ensures TakesPart(clamped[s].bound[c]) <==> Weighted(infos[s].bound[c]) || Limited(infos[s].bound[c])
    {
      ClampedTakesPart(infos[s].bound[c], cdevs[c].maxState);
    }
  }

  /** Start-up changes nothing of a sensor's configuration but that ceilings above a device's
      deepest state are lowered to it; its status starts at nothing. */
  lemma StartUpFromNumbers(infos: Infos, cdevs: Cdevs, s: string)
    requires s in infos && forall z :: z in infos ==> WellFormed(infos[z], cdevs)
    ensures var clamped := AllClamped(infos, cdevs);
      && clamped.Keys == infos.Keys
      && clamped[s] == infos[s].(bound := clamped[s].bound)
      && clamped[s].bound.Keys == infos[s].bound.Keys
      && (forall c :: c in infos[s].bound ==> c in cdevs && SameButCeilings(infos[s].bound[c], clamped[s].bound[c], cdevs[c].maxState))
    ensures var st := AllInitial(AllClamped(infos, cdevs))[s];
      && st.severity == st.prevHot == st.prevCold == NONE && st.pid.errIntegral == 0.0 && st.pid.prevErr.None?
      && (forall c :: c in st.pidRequest ==> st.pidRequest[c] == 0) && (forall c :: c in st.hardRequest ==> st.hardRequest[c] == 0)
  {
    var clamped := AllClamped(infos, cdevs);
    assert clamped[s] == ClampedInfo(infos[s], cdevs);
    forall c | c in infos[s].bound ensures c in cdevs && SameButCeilings(infos[s].bound[c], clamped[s].bound[c], cdevs[c].maxState) {
    }
  }

  predicate SameButCeilings(b: Binding, b': Binding, maxState: int) {
    && b' == b.(ceilings := b'.ceilings) && |b'.ceilings| == |b.ceilings|
    && forall i :: 0 <= i < |b.ceilings| ==>
         b'.ceilings[i] <= b.ceilings[i] && b'.ceilings[i] <= maxState && (b'.ceilings[i] == b.ceilings[i] || b'.ceilings[i] == maxState)
  }

  predicate NonNegativeCeilings(infos: Infos) {
    forall s :: s in infos ==> forall c :: c in infos[s].bound ==>
      forall i :: 0 <= i < |infos[s].bound[c].ceilings| ==> infos[s].bound[c].ceilings[i] >= 0
  }

  lemma ClampedWellFormed(info: SensorInfo, cdevs: Cdevs)
    requires WellFormed(info, cdevs)
    ensures WellFormed(ClampedInfo(info, cdevs), cdevs)
  {
    var r := ClampedInfo(info, cdevs);
    forall c | c in r.bound ensures Weighted(r.bound[c]) == Weighted(info.bound[c]) && Limited(r.bound[c]) == Limited(info.bound[c]) {
      ClampedTakesPart(info.bound[c], cdevs[c].maxState);
    }
  }

  lemma ClampedTakesPart(b: Binding, maxState: int)
    ensures Weighted(Clamped(b, maxState)) == Weighted(b) && Limited(Clamped(b, maxState)) == Limited(b)
  {
    var r := Clamped(b, maxState);
    assert r.weights == b.weights && r.limits == b.limits;
  }

  lemma InitialOk(infos: Infos, cdevs: Cdevs)
    requires forall s :: s in infos ==> WellFormed(infos[s], cdevs)
    ensures StatusesOk(AllClamped(infos, cdevs), cdevs, AllInitial(AllClamped(infos, cdevs)))
  {
    var clamped := AllClamped(infos, cdevs);
    forall s | s in clamped ensures WellFormed(clamped[s], cdevs) && SensorInvariant(clamped[s], Initial(clamped[s])) {
      ClampedWellFormed(infos[s], cdevs);
      InitialInvariant(clamped[s]);
    }
  }

  ghost predicate AllZero(requests: Requests) {
    forall c, s :: c in requests && s in requests[c] ==> requests[c][s] == 0
  }

  /** So the helper starts within range when no ceiling is negative. */
  lemma InitialInRange(infos: Infos, cdevs: Cdevs, requests: Requests)
    requires forall s :: s in infos ==> WellFormed(infos[s], cdevs)
    requires NonNegativeCeilings(infos) && (forall c :: c in cdevs ==> cdevs[c].maxState >= 0) && AllZero(requests)
    ensures InRange(AllClamped(infos, cdevs), cdevs, requests)
  {
    var clamped := AllClamped(infos, cdevs);
    forall s, c | s in clamped && c in clamped[s].bound && c in cdevs
      ensures CeilingsWithin(clamped[s].bound[c], cdevs[c].maxState)
    {
      assert WellFormed(infos[s], cdevs);
      ClampWithin(infos[s].bound[c], cdevs[c].maxState);
    }
  }
}
