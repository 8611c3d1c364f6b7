/** Power hints: at any time at most one hint mode of a sensor is on, and if one is, it is the
    one for the greatest supported level not above the last notified severity.  That it is on
    when there is such a level needs the sensor to be in step with the table of supported
    levels, which the watcher does not wait for. */
module ThermalHints {
  import opened ThermalSeverity

  /** The sensor's greatest supported level not above `l`, or NONE. */
  function GreatestSupported(supports: (string, Severity) -> bool, sensor: string, l: Severity): (r: Severity)
    ensures r <= l && (r == NONE || supports(sensor, r))
    ensures forall k: Severity :: r < k <= l ==> !supports(sensor, k)
  {
    if l == NONE || supports(sensor, l) then l else GreatestSupported(supports, sensor, l - 1)
  }

  class PowerHints {
    /** sensor -> severity -> level whose mode to enable */
    var supported: map<string, map<Severity, Severity>>
    var prevHint: map<string, Severity>
    /** The modes switched on in the power HAL. */
    var enabled: set<(string, Severity)>
    ghost var notified: map<string, Severity>
    /** The sensors that were asked about, and what the power HAL answered. */
    ghost var asked: set<string>
    ghost var supports: (string, Severity) -> bool

    /** A missing entry reads as NONE. */
    function Level(sensor: string, severity: Severity): Severity
      reads this`supported
    {
      if sensor in supported && severity in supported[sensor] then supported[sensor][severity] else NONE
    }

    function Prev(sensor: string): Severity
      reads this`prevHint
    {
      if sensor in prevHint then prevHint[sensor] else NONE
    }

    /** The severity last notified, NONE before the first notification. */
    ghost function Notified(sensor: string): Severity
      reads this`notified
    {
      if sensor in notified then notified[sensor] else NONE
    }

    /** The modes that are on for a sensor are exactly its stored hint level, unless NONE. */
    ghost predicate OnAsStored(sensor: string)
      reads this`prevHint, this`enabled
    {
      forall l: Severity :: (sensor, l) in enabled <==> l != NONE && l == Prev(sensor)
    }

    /** The stored hint level is the level supported for the severity last notified. */
    ghost predicate InStep(sensor: string)
      reads this
    {
      Prev(sensor) == if sensor in notified then Level(sensor, notified[sensor]) else NONE
    }

    /** The mode that ought to be on for a sensor notified of `l`. */
    ghost function Due(sensor: string, l: Severity): Severity
      reads this`asked, this`supports
    {
      if sensor in asked then GreatestSupported(supports, sensor, l) else NONE
    }

    /** The table holds the HAL's answers. */
    ghost predicate Answered()
      reads this`supported, this`asked, this`supports
    {
      supported.Keys <= asked && forall s: string, l: Severity :: Level(s, l) == Due(s, l)
    }

    /** A sensor out of step has no mode on. */
    ghost predicate Valid()
      reads this
    {
      Answered() && forall s: string :: OnAsStored(s) && (InStep(s) || Prev(s) == NONE)
    }

    /** At any time a mode that is on is the greatest one the power HAL supports that is not
        above the severity last notified; and it is on whenever there is one exactly when the
        sensor is in step. */
    lemma OnlySupportedModes(sensor: string)
      requires Valid()
      ensures forall l: Severity :: (sensor, l) in enabled ==>
        l != NONE && sensor in notified && l == Due(sensor, notified[sensor]) && sensor in asked && supports(sensor, l)
      ensures InStep(sensor) <==>
        forall l: Severity :: (sensor, l) in enabled <==> l != NONE && sensor in notified && l == Due(sensor, notified[sensor])
    {
      assert OnAsStored(sensor) && (InStep(sensor) || Prev(sensor) == NONE);
      if sensor in notified && !InStep(sensor) {
        assert (sensor, Due(sensor, notified[sensor])) !in enabled;
      }
    }

    constructor ()
      ensures Valid() && notified == map[] && asked == {} && enabled == {}
    {
      supported, prevHint, enabled, notified := map[], map[], {}, map[];
      asked, supports := {}, (s, l) => false;
    }

    /** Asks the HAL which modes exist for the sensors that send hints; done once.  The sensors
        left out of step are exactly those that were notified before of a severity for which
        a mode is supported. */
    method UpdateSupportedPowerHints(sensors: set<string>, isModeSupported: (string, Severity) -> bool)
      requires Valid() && asked == {}
      modifies this`supported, this`asked, this`supports
      ensures Valid() && asked == sensors && supports == isModeSupported
      ensures forall s ::
        InStep(s) <==> !(s in sensors && s in notified && GreatestSupported(isModeSupported, s, notified[s]) != NONE)
    {
      assert forall s: string :: OnAsStored(s) && Prev(s) == NONE by {
        forall s: string ensures OnAsStored(s) && Prev(s) == NONE {
          assert s in notified ==> Level(s, notified[s]) == Due(s, notified[s]);
        }
      }
      asked, supports := sensors, isModeSupported;
      var todo := sensors;
      while todo != {}
        invariant todo <= sensors && supported.Keys <= sensors && asked == sensors && supports == isModeSupported
        invariant forall s, l: Severity :: s in sensors - todo ==> Level(s, l) == GreatestSupported(isModeSupported, s, l)
        decreases todo
      {
        var s :| s in todo;
        todo := todo - {s};
        var row := SupportRow(s, isModeSupported);
        supported := supported[s := row];
      }
      assert Answered();
    }

    method SupportRow(sensor: string, isModeSupported: (string, Severity) -> bool) returns (row: map<Severity, Severity>)
      ensures forall l: Severity :: l in row && row[l] == GreatestSupported(isModeSupported, sensor, l)
    {
      var currentSeverity: Severity := NONE;
      row := map[NONE := NONE];
      var l: nat := 1;
      while l < LEVELS
        invariant 1 <= l <= LEVELS
        invariant forall k: Severity :: k < l ==> k in row && row[k] == GreatestSupported(isModeSupported, sensor, k)
        invariant currentSeverity == GreatestSupported(isModeSupported, sensor, l - 1)
      {
        if isModeSupported(sensor, l) {
          currentSeverity := l;
        }
        row := row[l := currentSeverity];
        l := l + 1;
      }
    }

    /** A mode is only ever switched on while no other mode of the sensor is on. */
    method SetMode(sensor: string, l: Severity, on: bool)
      requires on ==> forall k: Severity :: (sensor, k) !in enabled
      modifies this`enabled
      ensures enabled == if on then old(enabled) + {(sensor, l)} else old(enabled) - {(sensor, l)}
    {
      enabled := if on then enabled + {(sensor, l)} else enabled - {(sensor, l)};
    }

    method SendPowerExtHint(sensor: string, throttlingStatus: Severity)
      requires Valid()
      modifies this`prevHint, this`enabled, this`notified
      ensures Valid() && notified == old(notified)[sensor := throttlingStatus]
      ensures InStep(sensor)
      ensures forall s :: s != sensor ==> Prev(s) == old(Prev(s)) && (InStep(s) <==> old(InStep(s)))
    {
      notified := notified[sensor := throttlingStatus];
      assert old(OnAsStored(sensor));
      ChangeHint(sensor, Level(sensor, throttlingStatus));
      forall s: string ensures OnAsStored(s) && (InStep(s) || Prev(s) == NONE) {
        assert old(OnAsStored(s)) && (old(InStep(s)) || old(Prev(s)) == NONE);
      }
    }

    /** Switches modes if the stored hint changes, and stores it. */
    method ChangeHint(sensor: string, current: Severity)
      requires forall l: Severity :: (sensor, l) in enabled <==> l != NONE && l == Prev(sensor)
      modifies this`prevHint, this`enabled
      ensures Prev(sensor) == current && forall s :: s != sensor ==> Prev(s) == old(Prev(s))
      ensures forall l: Severity :: (sensor, l) in enabled <==> l != NONE && l == current
      ensures forall s, l: Severity :: s != sensor ==> ((s, l) in enabled <==> (s, l) in old(enabled))
    {
      if Prev(sensor) != current {
        SwitchMode(sensor, Prev(sensor), current);
        prevHint := prevHint[sensor := current];
      }
    }

    /** Off before on. */
    method SwitchMode(sensor: string, prev: Severity, current: Severity)
      requires forall l: Severity :: (sensor, l) in enabled <==> l != NONE && l == prev
      modifies this`enabled
      ensures forall l: Severity :: (sensor, l) in enabled <==> l != NONE && l == current
      ensures forall s, l: Severity :: s != sensor ==> ((s, l) in enabled <==> (s, l) in old(enabled))
    {
      if prev != NONE {
        SetMode(sensor, prev, false);
      }
      if current != NONE {
        SetMode(sensor, current, true);
      }
    }
  }

  /** A sensor that is hot when the watcher starts is notified while the table is empty: its
      supported mode is off once the table is filled, and stays so until the next notification. */
  method HotAtBoot(sensor: string, l: Severity) returns (hints: PowerHints)
    requires l != NONE
    ensures fresh(hints) && hints.Valid() && hints.notified == map[sensor := l]
    ensures sensor in hints.asked && hints.supports(sensor, l) && hints.Due(sensor, l) == l
    ensures (forall k: Severity :: (sensor, k) !in hints.enabled) && !hints.InStep(sensor)
  {
    hints := new PowerHints();
    hints.SendPowerExtHint(sensor, l);
    hints.UpdateSupportedPowerHints({sensor}, (s, k) => true);
    hints.OnlySupportedModes(sensor);
  }
}
