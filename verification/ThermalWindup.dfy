/** When the error integral of a sensor winds up: severities and errors come from the same
    readings, as in the watcher. */
module ThermalWindup {
  import opened Common
  import opened ThermalSeverity
  import opened ThermalPid
  import opened ThermalSensor

  /** Cold thresholds are kept mirrored. */
  datatype Config = Config(p: PidTable, hot: Thresholds, hotHysteresis: Hysteresis, cold: Thresholds, coldHysteresis: Hysteresis)

  /** The stored severities of the two sides. */
  datatype Sides = Sides(hot: Severity, cold: Severity)

  function Shown(s: Sides): Severity {
    Stronger(s.hot, s.cold)
  }

  function NextSides(c: Config, s: Sides, v: real): Sides {
    Sides(NextHot(c.hot, c.hotHysteresis, s.hot, v), NextHot(c.cold, c.coldHysteresis, s.cold, -v))
  }

  /** The error of the level that a severity selects. */
  function Err(c: Config, s: Severity, v: real): real
    requires Aimed(c.p, c.hot) && Active(c.p, s)
  {
    c.hot[TargetState(c.p, s)].value - v
  }

  function Selected(c: Config, s: Severity): Gains
    requires Active(c.p, s)
  {
    c.p[TargetState(c.p, s)].value
  }

  function NextError(c: Config, s: Severity, integral: real, v: real): real
    requires Aimed(c.p, c.hot)
  {
    if Active(c.p, s) then NextIntegral(Selected(c, s), integral, Err(c, s, v)) else 0.0
  }

  /** One reading decides the severities, and they decide the level whose error counts. */
  function SidesAfter(c: Config, run: seq<real>): Sides {
    if run == [] then Sides(NONE, NONE) else NextSides(c, SidesAfter(c, run[..|run| - 1]), run[|run| - 1])
  }

  function IntegralAfter(c: Config, run: seq<real>): real
    requires Aimed(c.p, c.hot)
  {
    if run == [] then 0.0
    else NextError(c, Shown(SidesAfter(c, run)), IntegralAfter(c, run[..|run| - 1]), run[|run| - 1])
  }

  lemma OneMoreSides(c: Config, run: seq<real>, v: real)
    ensures SidesAfter(c, run + [v]) == NextSides(c, SidesAfter(c, run), v)
  {
    assert (run + [v])[..|run|] == run;
  }

  lemma OneMoreError(c: Config, run: seq<real>, v: real)
    requires Aimed(c.p, c.hot)
    ensures IntegralAfter(c, run + [v]) == NextError(c, Shown(SidesAfter(c, run + [v])), IntegralAfter(c, run), v)
  {
    assert (run + [v])[..|run|] == run;
  }

  function ConfigOf(info: SensorInfo): Config {
    Config(info.pid, info.hot, info.hotHysteresis, Mirrored(info.cold), info.coldHysteresis)
  }

  lemma PidTakesError(c: Config, st: PidState, s: Severity, v: real, elapsedMs: nat)
    requires Aimed(c.p, c.hot)
    ensures NextPid(c.p, c.hot, st, s, v, elapsedMs).0.errIntegral == NextError(c, s, st.errIntegral, v)
  {
  }

  /** A monitored sensor with a controller goes through exactly these steps. */
  lemma SensorSenses(info: SensorInfo, cdevs: map<string, CdevInfo>, st: SensorStatus, st': SensorStatus, r: Reading)
    requires SensorStep(info, cdevs, st, st', r) && st.pidRequest != map[]
    ensures Sides(st'.prevHot, st'.prevCold) == NextSides(ConfigOf(info), Sides(st.prevHot, st.prevCold), r.value)
    ensures st'.pid.errIntegral == NextError(ConfigOf(info), st'.severity, st.pid.errIntegral, r.value)
    ensures st'.severity == Shown(Sides(st'.prevHot, st'.prevCold))
  {
    PidTakesError(ConfigOf(info), st.pid, st'.severity, r.value, r.elapsedMs);
  }

  // ------------------------------------------------------------ the condition

  /** The highest configured level, or NONE. */
  function Top(t: Thresholds, n: Severity := SHUTDOWN): (r: Severity)
    ensures r <= n && (r > 0 ==> Configured(t, r)) && forall i: Severity :: r < i <= n ==> !Configured(t, i)
  {
    if n == 0 || Configured(t, n) then n else Top(t, n - 1)
  }

  /** The severities that a reading can go on showing: each side at the level reached, or one
      side at a level that it holds since an earlier reading beyond it. */
  predicate Shows(c: Config, v: real, s: Severity) {
    var hot, held := Reached(c.hot, v), Held(c.hot, c.hotHysteresis, v);
    var cold, coldHeld := Reached(c.cold, -v), Held(c.cold, c.coldHysteresis, -v);
    || s == Stronger(hot, cold)
    || (hot < Top(c.hot) && hot <= held && s == Stronger(held, cold))
    || (cold < Top(c.cold) && cold <= coldHeld && s == Stronger(hot, coldHeld))
  }

  /** At this severity and reading a level without a limit takes an error in. */
  predicate Winds(c: Config, s: Severity, v: real)
    requires Aimed(c.p, c.hot)
  {
    Active(c.p, s) && !Limits(Selected(c, s)) && Err(c, s, v) < Selected(c, s).iCutoff && Err(c, s, v) != 0.0
  }

  ghost predicate CanWindUp(c: Config)
    requires Aimed(c.p, c.hot)
  {
    exists v: real, s: Severity :: Shows(c, v, s) && Winds(c, s, v)
  }

  // ------------------------------------------------------------ winding up

  /** Above all thresholds of one side and below all of the other. */
  function Beyond(t: Thresholds, u: Thresholds, n: nat := LEVELS): (w: real)
    requires n <= LEVELS
    ensures forall i: Severity :: i < n && Configured(t, i) ==> t[i].value <= w
    ensures forall i: Severity :: i < n && Configured(u, i) ==> -w < u[i].value
  {
    if n == 0 then 0.0 else
    var w := Beyond(t, u, n - 1);
    var w' := if t[n - 1].Some? && t[n - 1].value > w then t[n - 1].value else w;
    if u[n - 1].Some? && -w' >= u[n - 1].value then -u[n - 1].value + 1.0 else w'
  }

  lemma ReachesTop(t: Thresholds, w: real)
    requires forall i: Severity :: Configured(t, i) ==> t[i].value <= w
    ensures Reached(t, w) == Top(t)
  {
    var r, top := Reached(t, w), Top(t);
    assert top > 0 ==> Reaches(t, w, top);
    assert r > 0 ==> Configured(t, r);
  }

  lemma ReachesNone(t: Thresholds, w: real)
    requires forall i: Severity :: Configured(t, i) ==> w < t[i].value
    ensures Reached(t, w) == NONE
  {
  }

  /** Both sides stay where a reading puts them, and show `s`. */
  predicate Settles(c: Config, b: Sides, v: real, s: Severity) {
    var a := NextSides(c, b, v); Shown(a) == s && NextSides(c, a, v) == a
  }

  lemma FirstReading(c: Config, w: real)
    ensures SidesAfter(c, [w]) == NextSides(c, Sides(NONE, NONE), w)
  {
    assert [] + [w] == [w];
    OneMoreSides(c, [], w);
  }

  /** One reading far out puts its side at the top and the other at nothing. */
  lemma FarHot(c: Config)
    ensures SidesAfter(c, [Beyond(c.hot, c.cold)]) == Sides(Top(c.hot), NONE)
  {
    var w := Beyond(c.hot, c.cold);
    ReachesTop(c.hot, w);
    ReachesNone(c.cold, -w);
    FirstReading(c, w);
  }

  lemma FarCold(c: Config)
    ensures SidesAfter(c, [-Beyond(c.cold, c.hot)]) == Sides(NONE, Top(c.cold))
  {
    var w := Beyond(c.cold, c.hot);
    ReachesTop(c.cold, w);
    ReachesNone(c.hot, -w);
    FirstReading(c, -w);
  }

  lemma Settled(t: Thresholds, h: Hysteresis, prev: Severity, v: real)
    requires prev == NONE || (prev == Top(t) && Reached(t, v) < Top(t) && Reached(t, v) <= Held(t, h, v))
    ensures var x := NextHot(t, h, prev, v);
      x == (if prev == NONE then Reached(t, v) else Held(t, h, v)) && NextHot(t, h, x, v) == x
  {
  }

  /** A severity that a reading can go on showing is shown after at most one other reading,
      and repeating the reading then changes neither side. */
  lemma Showing(c: Config, v: real, s: Severity) returns (early: seq<real>)
    requires Shows(c, v, s)
    ensures Settles(c, SidesAfter(c, early), v, s)
  {
    var hot, held := Reached(c.hot, v), Held(c.hot, c.hotHysteresis, v);
    var cold := Reached(c.cold, -v);
    FarHot(c);
    FarCold(c);
    if s == Stronger(hot, cold) {
      early := [];
    } else if hot < Top(c.hot) && hot <= held && s == Stronger(held, cold) {
      early := [Beyond(c.hot, c.cold)];
    } else {
      early := [-Beyond(c.cold, c.hot)];
    }
    Settled(c.hot, c.hotHysteresis, SidesAfter(c, early).hot, v);
    Settled(c.cold, c.coldHysteresis, SidesAfter(c, early).cold, -v);
  }

  function Repeated(early: seq<real>, v: real, n: nat): seq<real> {
    if n == 0 then early else Repeated(early, v, n - 1) + [v]
  }

  lemma {:induction false} RepeatedSettles(c: Config, early: seq<real>, v: real, s: Severity, n: nat)
    requires Settles(c, SidesAfter(c, early), v, s) && n > 0
    ensures SidesAfter(c, Repeated(early, v, n)) == NextSides(c, SidesAfter(c, early), v)
  {
    if n > 1 { RepeatedSettles(c, early, v, s, n - 1); }
    OneMoreSides(c, Repeated(early, v, n - 1), v);
  }

  /** Such a reading adds its error, whatever the integral is. */
  lemma TakesErrorIn(c: Config, s: Severity, integral: real, v: real)
    requires Aimed(c.p, c.hot) && Winds(c, s, v)
    ensures NextError(c, s, integral, v) == integral + Err(c, s, v)
  {
    IntegratesFreely(Selected(c, s), integral, Err(c, s, v));
  }

  function Total(n: nat, err: real): real {
    if n == 0 then 0.0 else Total(n - 1, err) + err
  }

  /** A run of the sensor that winds up: the same reading over and over. */
  lemma {:induction false} WindsUp(c: Config, early: seq<real>, v: real, s: Severity, n: nat)
    requires Aimed(c.p, c.hot) && Winds(c, s, v) && Settles(c, SidesAfter(c, early), v, s)
    ensures IntegralAfter(c, Repeated(early, v, n)) == IntegralAfter(c, early) + Total(n, Err(c, s, v))
  {
    if n > 0 {
      WindsUp(c, early, v, s, n - 1);
      RepeatedSettles(c, early, v, s, n);
      OneMoreError(c, Repeated(early, v, n - 1), v);
      TakesErrorIn(c, s, IntegralAfter(c, Repeated(early, v, n - 1)), v);
    }
  }

  ghost predicate BoundedBy(c: Config, b: real)
    requires Aimed(c.p, c.hot)
  {
    forall run: seq<real> :: Abs(IntegralAfter(c, run)) <= b
  }

  ghost predicate Bounded(c: Config)
    requires Aimed(c.p, c.hot)
  {
    exists b: real :: BoundedBy(c, b)
  }

  lemma {:induction false} TotalIs(n: nat, err: real)
    ensures Total(n, err) == n as real * err
  {
    if n > 0 {
      TotalIs(n - 1, err);
      assert (n - 1) as real * err + err == n as real * err;
    }
  }

  /** Steps of a fixed size pass every bound. */
  lemma PassesBound(from: real, err: real, b: real) returns (n: nat)
    requires err != 0.0
    ensures Abs(from + Total(n, err)) > b
  {
    var need := Abs(b) + Abs(from) + 1.0;
    n := Enough(need, Abs(err));
    TotalIs(n, err);
    AbsProduct(n as real, err);
    assert Abs(Total(n, err)) >= need;
  }

  lemma Enough(need: real, size: real) returns (n: nat)
    requires need >= 0.0 && size > 0.0
    ensures n as real * size >= need
  {
    var q := need / size;
    assert q * size == need;
    if q < 0.0 { Scale(q, 0.0, size); }
    n := q.Floor + 1;
    Scale(q, n as real, size);
  }

  lemma Scale(a: real, b: real, k: real)
    requires a <= b && k > 0.0
    ensures a * k <= b * k
  {
  }

  lemma WindsPastEveryBound(c: Config, v: real, s: Severity, b: real)
    requires Aimed(c.p, c.hot) && Shows(c, v, s) && Winds(c, s, v)
    ensures !BoundedBy(c, b)
  {
    var early := Showing(c, v, s);
    var n := PassesBound(IntegralAfter(c, early), Err(c, s, v), b);
    WindsUp(c, early, v, s, n);
    assert Abs(IntegralAfter(c, Repeated(early, v, n))) > b;
  }

  // ------------------------------------------------------------ where a fleeting severity leads

  /** No edge of a level lies strictly between the two readings, nor at the lower one. */
  predicate EdgeFree(t: Thresholds, h: Hysteresis, u: real, v: real) {
    u < v && forall i: Severity :: Configured(t, i) ==>
      && (t[i].value < v ==> t[i].value <= u) && (t[i].value - h[i] < v ==> t[i].value - h[i] < u)
  }

  /** Just below a reading the same levels are held, and held levels cover reached ones. */
  lemma JustBelow(t: Thresholds, h: Hysteresis, u: real, v: real)
    requires NonNegative(h) && EdgeFree(t, h, u, v)
    ensures Held(t, h, u) == Held(t, h, v) && Reached(t, u) <= Held(t, h, u) && Reached(t, u) <= Reached(t, v)
  {
    assert forall i: Severity :: Holds(t, h, u, i) <==> Holds(t, h, v, i);
    SameHeld(t, h, u, v);
    var r := Reached(t, u);
    assert r > 0 ==> Holds(t, h, u, r) && Reaches(t, v, r);
  }

  lemma SameHeld(t: Thresholds, h: Hysteresis, u: real, v: real)
    requires forall i: Severity :: Holds(t, h, u, i) <==> Holds(t, h, v, i)
    ensures Held(t, h, u) == Held(t, h, v)
  {
    var a, b := Held(t, h, u), Held(t, h, v);
    assert a > 0 ==> Holds(t, h, v, a);
    assert b > 0 ==> Holds(t, h, u, b);
  }

  lemma SameReached(t: Thresholds, u: real, v: real)
    requires forall i: Severity :: Reaches(t, u, i) <==> Reaches(t, v, i)
    ensures Reached(t, u) == Reached(t, v)
  {
    var a, b := Reached(t, u), Reached(t, v);
    assert a > 0 ==> Reaches(t, v, a);
    assert b > 0 ==> Reaches(t, u, b);
  }

  /** Just above a reading the same levels are reached, and the same held unless a band ends
      at the reading. */
  predicate StepFree(t: Thresholds, h: Hysteresis, v: real, u: real) {
    v < u && forall i: Severity :: Configured(t, i) ==>
      && (v < t[i].value ==> u < t[i].value) && (v < t[i].value - h[i] ==> u <= t[i].value - h[i])
  }

  predicate NoBandEndsAt(t: Thresholds, h: Hysteresis, v: real) {
    forall i: Severity :: Configured(t, i) && i > 0 ==> t[i].value - h[i] != v
  }

  lemma JustAbove(t: Thresholds, h: Hysteresis, v: real, u: real)
    requires StepFree(t, h, v, u)
    ensures Reached(t, u) == Reached(t, v)
    ensures NoBandEndsAt(t, h, v) ==> Held(t, h, u) == Held(t, h, v)
  {
    SameReached(t, u, v);
    if NoBandEndsAt(t, h, v) {
      var a, b := Held(t, h, u), Held(t, h, v);
      assert a > 0 ==> Holds(t, h, v, a);
      assert b > 0 ==> Holds(t, h, u, b);
    }
  }

  /** A reading so little below `v`, and above `lim`, that nothing lies between on this side,
      nor between the negated readings on the other side. */
  function Nudged(t: Thresholds, h: Hysteresis, t': Thresholds, h': Hysteresis, v: real, lim: real, n: nat := LEVELS): (u: real)
    requires n <= LEVELS && lim < v
    ensures lim < u < v
    ensures forall i: Severity :: i < n && Configured(t, i) ==>
      (t[i].value < v ==> t[i].value <= u) && (t[i].value - h[i] < v ==> t[i].value - h[i] < u)
    ensures forall i: Severity :: i < n && Configured(t', i) ==>
      (-v < t'[i].value ==> -u < t'[i].value) && (-v < t'[i].value - h'[i] ==> -u <= t'[i].value - h'[i])
  {
    if n == 0 then (lim + v) / 2.0 else
    var a := Nudged(t, h, t', h', v, lim, n - 1);
    var b := if t[n - 1].Some? then Closer(Closer(a, v, t[n - 1].value), v, t[n - 1].value - h[n - 1]) else a;
    if t'[n - 1].Some? then Closer(Closer(b, v, -t'[n - 1].value), v, -(t'[n - 1].value - h'[n - 1])) else b
  }

  /** Between `a` and `v`, and above `x` if that lies below `v`. */
  function Closer(a: real, v: real, x: real): (u: real)
    requires a < v
    ensures a <= u < v && (x < v ==> x < u)
  {
    if x < a || v <= x then a else (x + v) / 2.0
  }

  /** The severity at such a reading passes as soon as it is read again: the level held is
      below the level reached, which takes a threshold without hysteresis exactly there. */
  predicate Fleeting(t: Thresholds, h: Hysteresis, v: real) {
    Held(t, h, v) < Reached(t, v)
  }

  lemma FleetingAtThreshold(t: Thresholds, h: Hysteresis, v: real)
    requires NonNegative(h) && Fleeting(t, h, v)
    ensures var r := Reached(t, v); r > 0 && Configured(t, r) && t[r].value == v && h[r] == 0.0
  {
    var r := Reached(t, v);
    assert Reaches(t, v, r) && !Holds(t, h, v, r);
  }

  /** No threshold without hysteresis on one side lies exactly where a band of the other ends. */
  predicate SidesApart(t: Thresholds, h: Hysteresis, t': Thresholds, h': Hysteresis) {
    forall i: Severity, j: Severity :: i > 0 && j > 0 && Configured(t, i) && Configured(t', j) && h[i] == 0.0 ==>
      -t[i].value != t'[j].value - h'[j]
  }

  /** What a fleeting severity can be replaced with: a reading next to it at which this side
      holds the same level for good and the other side is as it was. */
  lemma NextToFleeting(t: Thresholds, h: Hysteresis, t': Thresholds, h': Hysteresis, v: real, lim: real) returns (u: real)
    requires NonNegative(h) && Fleeting(t, h, v) && SidesApart(t, h, t', h') && lim < v
    ensures lim < u < v
    ensures Held(t, h, u) == Held(t, h, v) && Reached(t, u) <= Held(t, h, u) && Reached(t, u) < Top(t)
    ensures Reached(t', -u) == Reached(t', -v) && Held(t', h', -u) == Held(t', h', -v)
  {
    u := Nudged(t, h, t', h', v, lim);
    FleetingAtThreshold(t, h, v);
    JustBelow(t, h, u, v);
    JustAbove(t', h', -v, -u);
  }

  // ------------------------------------------------------------ exactly when

  predicate Ordinary(c: Config) {
    && NonNegative(c.hotHysteresis) && NonNegative(c.coldHysteresis)
    && SidesApart(c.hot, c.hotHysteresis, c.cold, c.coldHysteresis)
    && SidesApart(c.cold, c.coldHysteresis, c.hot, c.hotHysteresis)
  }

  /** How far a reading may be nudged before its error reaches the cut-off or zero. */
  lemma WindsNearby(c: Config, s: Severity, v: real) returns (lo: real, hi: real)
    requires Aimed(c.p, c.hot) && Winds(c, s, v)
    ensures lo < v < hi && forall u :: lo < u < hi ==> Winds(c, s, u)
  {
    var a, cut := c.hot[TargetState(c.p, s)].value, Selected(c, s).iCutoff;
    lo := if a < v && a > a - cut then a else a - cut;
    hi := if v < a then a else v + 1.0;
    assert forall u :: Err(c, s, u) == a - u;
  }

  /** What a history of readings can make of a side. */
  predicate Possible(t: Thresholds, h: Hysteresis, v: real, x: Severity) {
    x == Reached(t, v) || (x == Held(t, h, v) && Reached(t, v) < Top(t))
  }

  lemma AllShow(c: Config, v: real, x: Severity, y: Severity)
    requires Reached(c.hot, v) <= Held(c.hot, c.hotHysteresis, v) && Reached(c.cold, -v) <= Held(c.cold, c.coldHysteresis, -v)
    requires Possible(c.hot, c.hotHysteresis, v, x) && Possible(c.cold, c.coldHysteresis, -v, y)
    ensures Shows(c, v, Stronger(x, y))
  {
  }

  lemma HotFleeting(c: Config, v: real, x: Severity, y: Severity, lo: real) returns (u: real)
    requires Ordinary(c) && Possible(c.hot, c.hotHysteresis, v, x) && Possible(c.cold, c.coldHysteresis, -v, y) && lo < v
    requires Fleeting(c.hot, c.hotHysteresis, v) && x != Reached(c.hot, v)
    ensures lo < u < v && Shows(c, u, Stronger(x, y))
  {
    u := NextToFleeting(c.hot, c.hotHysteresis, c.cold, c.coldHysteresis, v, lo);
    NotBothFleeting(c, v);
    AllShow(c, u, x, y);
  }

  lemma ColdFleeting(c: Config, v: real, x: Severity, y: Severity, hi: real) returns (u: real)
    requires Ordinary(c) && Possible(c.hot, c.hotHysteresis, v, x) && Possible(c.cold, c.coldHysteresis, -v, y) && v < hi
    requires Fleeting(c.cold, c.coldHysteresis, -v) && y != Reached(c.cold, -v)
    ensures v < u < hi && Shows(c, u, Stronger(x, y))
  {
    var w := NextToFleeting(c.cold, c.coldHysteresis, c.hot, c.hotHysteresis, -v, -hi);
    u := -w;
    NotBothFleeting(c, v);
    AllShow(c, u, x, y);
  }

  lemma NoneFleeting(c: Config, v: real, x: Severity, y: Severity)
    requires Possible(c.hot, c.hotHysteresis, v, x) && Possible(c.cold, c.coldHysteresis, -v, y)
    requires Fleeting(c.hot, c.hotHysteresis, v) ==> x == Reached(c.hot, v)
    requires Fleeting(c.cold, c.coldHysteresis, -v) ==> y == Reached(c.cold, -v)
    ensures Shows(c, v, Stronger(x, y))
  {
  }

  /** Some reading, after some history, can take an unlimited error in, if only once. */
  ghost predicate CanTakeIn(c: Config)
    requires Aimed(c.p, c.hot)
  {
    exists v: real, x: Severity, y: Severity :: TakesIn(c, v, x, y)
  }

  predicate TakesIn(c: Config, v: real, x: Severity, y: Severity)
    requires Aimed(c.p, c.hot)
  {
    Possible(c.hot, c.hotHysteresis, v, x) && Possible(c.cold, c.coldHysteresis, -v, y) && Winds(c, Stronger(x, y), v)
  }

  /** Any severity that some history of readings lets a reading show, and that winds there, is
      one that a reading can go on showing, there or next to it. */
  lemma ShownLeadsToShows(c: Config, x: Severity, y: Severity, v: real)
    requires Aimed(c.p, c.hot) && Ordinary(c) && TakesIn(c, v, x, y)
    ensures CanWindUp(c)
  {
    var lo, hi := WindsNearby(c, Stronger(x, y), v);
    var u := v;
    if Fleeting(c.hot, c.hotHysteresis, v) && x != Reached(c.hot, v) {
      u := HotFleeting(c, v, x, y, lo);
    } else if Fleeting(c.cold, c.coldHysteresis, -v) && y != Reached(c.cold, -v) {
      u := ColdFleeting(c, v, x, y, hi);
    } else {
      NoneFleeting(c, v, x, y);
    }
    assert Shows(c, u, Stronger(x, y)) && Winds(c, Stronger(x, y), u);
  }

  lemma NotBothFleeting(c: Config, v: real)
    requires Ordinary(c)
    ensures !(Fleeting(c.hot, c.hotHysteresis, v) && Fleeting(c.cold, c.coldHysteresis, -v))
  {
    if Fleeting(c.hot, c.hotHysteresis, v) && Fleeting(c.cold, c.coldHysteresis, -v) {
      FleetingAtThreshold(c.hot, c.hotHysteresis, v);
      FleetingAtThreshold(c.cold, c.coldHysteresis, -v);
      assert false;
    }
  }

  lemma SidesPossible(c: Config, b: Sides, v: real)
    requires b.hot <= Top(c.hot) && b.cold <= Top(c.cold)
    ensures var a := NextSides(c, b, v);
      && Possible(c.hot, c.hotHysteresis, v, a.hot) && Possible(c.cold, c.coldHysteresis, -v, a.cold)
      && a.hot <= Top(c.hot) && a.cold <= Top(c.cold)
  {
    NextHotStorable(c.hot, c.hotHysteresis, b.hot, v);
    NextHotStorable(c.cold, c.coldHysteresis, b.cold, -v);
  }

  predicate Inside(c: Config, integral: real) {
    integral == 0.0 || Abs(integral) < WindupBound(c.p)
  }

  lemma ErrorStaysInside(c: Config, s: Severity, integral: real, v: real)
    requires Aimed(c.p, c.hot) && !Winds(c, s, v) && Inside(c, integral)
    ensures Inside(c, NextError(c, s, integral, v))
  {
    if Active(c.p, s) {
      ChangesWithinLimit(Selected(c, s), integral, Err(c, s, v));
    }
  }

  /** When no reading can, the integral stays zero or strictly inside the largest limit of the
      configured levels, whatever thresholds and hysteresis are. */
  lemma {:induction false} StaysInside(c: Config, run: seq<real>)
    requires Aimed(c.p, c.hot) && !CanTakeIn(c)
    ensures SidesAfter(c, run).hot <= Top(c.hot) && SidesAfter(c, run).cold <= Top(c.cold)
    ensures Inside(c, IntegralAfter(c, run))
  {
    if run != [] {
      var init, v := run[..|run| - 1], run[|run| - 1];
      StaysInside(c, init);
      SidesPossible(c, SidesAfter(c, init), v);
      var a := SidesAfter(c, run);
      assert !TakesIn(c, v, a.hot, a.cold);
      ErrorStaysInside(c, Shown(a), IntegralAfter(c, init), v);
    }
  }

  lemma ChangesWithinLimit(g: Gains, integral: real, err: real)
    requires Limits(g) || err >= g.iCutoff || err == 0.0
    ensures var x := NextIntegral(g, integral, err); x == integral || Abs(x) < Limit(g)
  {
    if Limits(g) && NextIntegral(g, integral, err) != integral {
      IntegralWithinLimit(g, integral, err);
    }
  }

  /** Over all runs of readings the integral of a sensor is bounded exactly when no severity
      that a reading can go on showing selects a level that takes that reading's error in
      without limiting it.  Hysteresis is not negative, and no threshold without hysteresis on
      one side lies exactly where a band of the other side ends. */
  lemma BoundedExactly(c: Config)
    requires Aimed(c.p, c.hot) && Ordinary(c)
    ensures Bounded(c) <==> !CanWindUp(c)
  {
    if CanWindUp(c) {
      var v: real, s: Severity :| Shows(c, v, s) && Winds(c, s, v);
      forall b: real ensures !BoundedBy(c, b) { WindsPastEveryBound(c, v, s, b); }
    } else {
      assert !CanTakeIn(c) by {
        if v: real, x: Severity, y: Severity :| TakesIn(c, v, x, y) { ShownLeadsToShows(c, x, y, v); }
      }
      forall run: seq<real> ensures Abs(IntegralAfter(c, run)) <= WindupBound(c.p) { StaysInside(c, run); }
      assert BoundedBy(c, WindupBound(c.p));
    }
  }

  // ------------------------------------------------------------ two sensors

  const HOT: Thresholds := [None, Some(40.0), Some(50.0), Some(60.0), None, None, None]
  const NO_COLD: Thresholds := [None, None, None, None, None, None, None]
  const NO_BAND: Hysteresis := [0.0, 0.0, 0.0, 0.0, 0.0, 0.0, 0.0]

  function Level2(iCutoff: real): Gains {
    Gains(1.0, 1.0, 0.0, 1.0, 1.0, iCutoff, 1.0, 1.0, 1.0)
  }

  const LEVEL3 := Gains(1.0, 1.0, 1.0, 1.0, 1.0, 0.0, 1.0, 1.0, 1.0)

  /** Controlled at levels 2 and 3; level 2 has no integral gain. */
  function Sensor(iCutoff: real): (c: Config)
    ensures Aimed(c.p, c.hot)
  {
    Config([None, None, Some(Level2(iCutoff)), Some(LEVEL3), None, None, None], HOT, NO_BAND, NO_COLD, NO_BAND)
  }

  /** With a cut-off of 20 the sensor winds up at 45 degrees. */
  lemma WindsUpAt45()
    ensures CanWindUp(Sensor(20.0))
  {
    var c := Sensor(20.0);
    assert Reaches(c.hot, 45.0, 1) && forall i: Severity :: i > 1 ==> !Reaches(c.hot, 45.0, i);
    assert Reached(c.hot, 45.0) == 1 && Reached(c.cold, -45.0) == NONE;
    assert TargetState(c.p, 1) == 2;
    assert Shows(c, 45.0, 1) && Winds(c, 1, 45.0);
  }

  /** With a cut-off of -5 it never does, although its level 2 does not limit: while that is
      the target, readings are at most 50. */
  lemma SelectableIsNotEnough()
    ensures var c := Sensor(-5.0); !AllLimit(c.p) && !CanWindUp(c) && Bounded(c)
  {
    var c := Sensor(-5.0);
    assert TargetState(c.p, 1) == 2;
    assert !Limits(c.p[TargetState(c.p, 1)].value) && Active(c.p, 1);
    forall v: real, s: Severity | Shows(c, v, s) ensures !Winds(c, s, v) {
      assert Reached(c.cold, -v) == NONE && Held(c.cold, c.coldHysteresis, -v) == NONE;
      TargetsOfSensor(-5.0, s);
      if s == 1 {
        assert !Reaches(c.hot, v, 2);
      }
    }
    BoundedExactly(c);
  }

  lemma TargetsOfSensor(iCutoff: real, s: Severity)
    ensures TargetState(Sensor(iCutoff).p, s) == if s <= 1 then 2 else 3
  {
    var p := Sensor(iCutoff).p;
    var next, last := FirstFrom(p, s + 1), LastBelow(p, s + 1);
    assert p[2].Some? && p[3].Some? && forall k :: 0 <= k < LEVELS && k != 2 && k != 3 ==> p[k].None?;
    assert s >= 3 ==> !(last < 3 < s + 1);
  }
}
