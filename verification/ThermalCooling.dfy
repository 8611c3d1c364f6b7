/** Requests of sensors to cooling devices: what one sensor wants of one device, the cached
    request table, and the incremental writing of aggregated states to sysfs. */
module ThermalCooling {
  import opened Common
  import opened ThermalSeverity

  /** A cooling device as one sensor binds it; the arrays are indexed by severity. */
  datatype Binding = Binding(cdev: string, weights: seq<Option<real>>, limits: seq<int>,
                             ceilings: seq<int>, floors: seq<int>)

  /** What a sensor's controllers ask of a device, and the step by which it is let go. */
  datatype Ask = Ask(pid: int, hardLimit: int, releaseStep: int)

  predicate Complete(b: Binding) {
    |b.weights| == LEVELS && |b.limits| == LEVELS && |b.ceilings| == LEVELS && |b.floors| == LEVELS
  }

  function Max(a: int, b: int): int { if a < b then b else a }

  /** The state a sensor requests: the stronger of its two requests, less the release step,
      not below the floor while releasing and never above the ceiling. */
  function Wanted(b: Binding, severity: Severity, a: Ask): int
    requires Complete(b)
  {
    var r := Max(a.pid, a.hardLimit);
    var s := if a.releaseStep == 0 then r
             else Max(if a.releaseStep >= r then 0 else r - a.releaseStep, b.floors[severity]);
    if s > b.ceilings[severity] then b.ceilings[severity] else s
  }

  method RequestState(b: Binding, severity: Severity, a: Ask) returns (requestState: int)
    requires Complete(b)
    ensures requestState == Wanted(b, severity, a)
    ensures Amounts(requestState, a.pid, a.hardLimit, a.releaseStep, b.floors[severity], b.ceilings[severity])
  {
    WantedAmounts(b, severity, a);
    var cdevCeiling, cdevFloor := b.ceilings[severity], b.floors[severity];
    requestState := if a.pid < a.hardLimit then a.hardLimit else a.pid;
    if a.releaseStep != 0 {
      if a.releaseStep >= requestState {
        requestState := 0;
      } else {
        requestState := requestState - a.releaseStep;
      }
      if requestState < cdevFloor {
        requestState := cdevFloor;
      }
    }
    if requestState > cdevCeiling {
      requestState := cdevCeiling;
    }
  }

  // ------------------------------------------------------------ a request in plain numbers

  /** The greatest of some numbers, cut by a ceiling. */
  predicate GreatestUpTo(x: int, of: set<int>, ceiling: int) {
    && x <= ceiling
    && (forall y :: y in of ==> y <= x || x == ceiling)
    && (x in of || (x == ceiling && exists y :: y in of && y > ceiling))
  }

  /** What a power request `p`, a hard limit `h` and a release step `k` amount to: without a step
      the stronger of the two; with one, that less the step, but neither below zero nor below
      the floor; and never above the ceiling. */
  predicate Amounts(x: int, p: int, h: int, k: int, floor: int, ceiling: int) {
    GreatestUpTo(x, if k == 0 then {p, h} else {0, p - k, h - k, floor}, ceiling)
  }

  lemma WantedAmounts(b: Binding, severity: Severity, a: Ask)
    requires Complete(b)
    ensures Amounts(Wanted(b, severity, a), a.pid, a.hardLimit, a.releaseStep, b.floors[severity], b.ceilings[severity])
  {
    var of := if a.releaseStep == 0 then {a.pid, a.hardLimit}
              else {0, a.pid - a.releaseStep, a.hardLimit - a.releaseStep, b.floors[severity]};
    var r := Max(a.pid, a.hardLimit);
    assert r in {a.pid, a.hardLimit};
    assert a.releaseStep != 0 ==> r - a.releaseStep in of;
  }

  /** What an amount is, bound by bound; there is only one. */
  lemma AmountIs(x: int, p: int, h: int, k: int, floor: int, ceiling: int)
    requires Amounts(x, p, h, k, floor, ceiling)
    ensures x <= ceiling
    ensures k == 0 ==> (x == ceiling || (p <= x && h <= x)) && (x == p || x == h || x == ceiling)
    ensures k != 0 ==> (x == ceiling || floor <= x) && (x == ceiling || (0 <= x && p - k <= x && h - k <= x))
    ensures k != 0 && floor < x < ceiling ==> x == 0 || x == (if p < h then h else p) - k
    ensures x == ceiling ==> if k == 0 then p >= ceiling || h >= ceiling
                             else 0 >= ceiling || p - k >= ceiling || h - k >= ceiling || floor >= ceiling
    ensures forall y :: Amounts(y, p, h, k, floor, ceiling) ==> y == x
  {
    var of := if k == 0 then {p, h} else {0, p - k, h - k, floor};
    assert p - k in of || k == 0;
    assert h - k in of || k == 0;
    forall y | Amounts(y, p, h, k, floor, ceiling) ensures y == x {
    }
  }

  /** Asking for more never gets less. */
  lemma MoreIsMore(x: int, x': int, p: int, p': int, h: int, h': int, k: int, floor: int, ceiling: int)
    requires Amounts(x, p, h, k, floor, ceiling) && Amounts(x', p', h', k, floor, ceiling) && p <= p' && h <= h'
    ensures x <= x'
  {
    AmountIs(x, p, h, k, floor, ceiling);
    AmountIs(x', p', h', k, floor, ceiling);
  }

  /** The ceilings after start-up: none above the device's deepest state. */
  function Clamped(b: Binding, maxState: int): (r: Binding)
    ensures Complete(b) ==> Complete(r)
  {
    b.(ceilings := seq(|b.ceilings|, i requires 0 <= i < |b.ceilings| =>
      if b.ceilings[i] > maxState then maxState else b.ceilings[i]))
  }

  predicate CeilingsWithin(b: Binding, maxState: int) {
    forall i :: 0 <= i < |b.ceilings| ==> 0 <= b.ceilings[i] <= maxState
  }

  lemma ClampWithin(b: Binding, maxState: int)
    requires maxState >= 0 && forall i :: 0 <= i < |b.ceilings| ==> b.ceilings[i] >= 0
    ensures CeilingsWithin(Clamped(b, maxState), maxState)
  {
  }

  /** A request never leaves the device's range, whatever floors, hard limits and release
      steps are configured, as long as the PID request is not negative. */
  lemma WantedInRange(b: Binding, maxState: int, severity: Severity, a: Ask)
    requires Complete(b) && CeilingsWithin(b, maxState) && a.pid >= 0
    ensures 0 <= Wanted(b, severity, a) <= maxState
  {
    assert 0 <= b.ceilings[severity] <= maxState;
  }

  /** The aggregate of the requests to one device: their maximum, at least 0. */
  predicate IsAggregate(requests: map<string, int>, state: int) {
    && state >= 0
    && (forall s :: s in requests ==> requests[s] <= state)
    && (state == 0 || exists s :: s in requests && requests[s] == state)
  }

  class CoolingDevices {
    /** device -> sensor -> request */
    var requests: map<string, map<string, int>>
    /** device -> state as written to the kernel */
    var sysfs: map<string, int>

    /** The kernel's state of a device is the aggregate of all current requests to it. */
    ghost predicate UpToDate(c: string)
      reads this
    {
      c in requests ==> c in sysfs && IsAggregate(requests[c], sysfs[c])
    }

    ghost predicate Coherent()
      reads this
    {
      forall c :: c in requests ==> UpToDate(c)
    }

    /** All requests start at zero, and so does the kernel. */
    constructor (bound: map<string, set<string>>)
      ensures requests.Keys == bound.Keys
      ensures forall c :: c in bound ==> requests[c].Keys == bound[c] && forall s :: s in bound[c] ==> requests[c][s] == 0
      ensures Coherent()
    {
      requests := map c | c in bound :: map s | s in bound[c] :: 0;
      sysfs := map c | c in bound :: 0;
    }

    /** The request table after one sensor had its say. */
    static ghost predicate Asked(before: map<string, map<string, int>>, after: map<string, map<string, int>>,
                                 sensor: string, wants: map<string, int>)
    {
      && after.Keys == before.Keys
      && (forall c :: c in before ==>
            after[c] == if sensor in before[c] && c in wants then before[c][sensor := wants[c]] else before[c])
    }

    /** Recomputes one sensor's requests to the devices that know it, and lists the devices
        whose entry changed. */
    method ComputeCoolingDevicesRequest(sensor: string, severity: Severity, bindings: map<string, Binding>, asks: map<string, Ask>)
      returns (dirty: seq<string>)
      requires forall c :: c in requests && sensor in requests[c] ==> c in bindings && c in asks && Complete(bindings[c])
      modifies this`requests
      ensures Asked(old(requests), requests, sensor, Wants(bindings, asks, severity))
      ensures forall c :: c in requests && requests[c] != old(requests)[c] ==> c in dirty
      ensures forall c :: c in dirty ==> c in requests
    {
      dirty := [];
      ghost var wants := Wants(bindings, asks, severity);
      var todo := requests.Keys;
      while todo != {}
        invariant todo <= requests.Keys == old(requests).Keys
        invariant forall c :: c in todo ==> requests[c] == old(requests)[c]
        invariant forall c :: c in requests && c !in todo ==>
          requests[c] == if sensor in old(requests)[c] && c in wants then old(requests)[c][sensor := wants[c]] else old(requests)[c]
        invariant forall c :: c in requests && requests[c] != old(requests)[c] ==> c in dirty
        invariant forall c :: c in dirty ==> c in requests
        decreases todo
      {
        var c :| c in todo;
        todo := todo - {c};
        if sensor in requests[c] {
          var requestState := RequestState(bindings[c], severity, asks[c]);
          if requests[c][sensor] != requestState {
            requests := requests[c := requests[c][sensor := requestState]];
            dirty := dirty + [c];
          }
        }
      }
    }

    method MaxRequest(c: string) returns (maxState: int)
      requires c in requests
      ensures IsAggregate(requests[c], maxState)
    {
      maxState := 0;
      var todo := requests[c].Keys;
      while todo != {}
        invariant todo <= requests[c].Keys
        invariant maxState >= 0
        invariant forall s :: s in requests[c] && s !in todo ==> requests[c][s] <= maxState
        invariant maxState == 0 || exists s :: s in requests[c] && requests[c][s] == maxState
        decreases todo
      {
        var s :| s in todo;
        todo := todo - {s};
        if requests[c][s] > maxState {
          maxState := requests[c][s];
        }
      }
    }

    /** Rewrites only the listed devices; that is enough when all others are up to date. */
    method UpdateCoolingDevices(dirty: seq<string>)
      requires forall c :: c in dirty ==> c in requests
      modifies this`sysfs
      ensures forall c :: c in dirty ==> UpToDate(c)
      ensures forall c :: c !in dirty && old(UpToDate(c)) ==> UpToDate(c)
    {
      for i := 0 to |dirty|
        invariant forall k :: 0 <= k < i ==> UpToDate(dirty[k])
        invariant forall c :: c !in dirty[..i] ==> (c in sysfs <==> c in old(sysfs)) && (c in sysfs ==> sysfs[c] == old(sysfs)[c])
      {
        var maxState := MaxRequest(dirty[i]);
        sysfs := sysfs[dirty[i] := maxState];
      }
    }
  }

  /** What one sensor wants of each device it binds. */
  function Wants(bindings: map<string, Binding>, asks: map<string, Ask>, severity: Severity): map<string, int> {
    map c | c in bindings && c in asks && Complete(bindings[c]) :: Wanted(bindings[c], severity, asks[c])
  }
}
