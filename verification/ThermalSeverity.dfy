/** Throttling severity with hysteresis.  Levels are 0 (NONE) to 6 (SHUTDOWN); a level whose
    threshold is NaN is not configured. */
module ThermalSeverity {
  import opened Common

  const LEVELS: nat := 7

  type Severity = s: nat | s < LEVELS

  const NONE: Severity := 0
  const SHUTDOWN: Severity := 6

  type Thresholds = t: seq<Option<real>> | |t| == LEVELS witness seq(LEVELS, _ => None)
  type Hysteresis = h: seq<real> | |h| == LEVELS witness seq(LEVELS, _ => 0.0)

  function Abs(x: real): real { if x < 0.0 then -x else x }

  predicate Configured(t: Thresholds, i: Severity) { t[i].Some? }

  /** The reading reaches the level's threshold. */
  predicate Reaches(t: Thresholds, v: real, i: Severity) {
    t[i].Some? && t[i].value <= v
  }

  /** The reading is above the level's threshold less its hysteresis. */
  predicate Holds(t: Thresholds, h: Hysteresis, v: real, i: Severity) {
    t[i].Some? && t[i].value - h[i] < v
  }

  /** The highest level the reading reaches, or NONE. */
  function Reached(t: Thresholds, v: real, n: Severity := SHUTDOWN): (r: Severity)
    ensures r <= n && (r > 0 ==> Reaches(t, v, r))
    ensures forall i: Severity :: r < i <= n ==> !Reaches(t, v, i)
  {
    if n == 0 || Reaches(t, v, n) then n else Reached(t, v, n - 1)
  }

  /** The highest level the reading still holds, or NONE. */
  function Held(t: Thresholds, h: Hysteresis, v: real, n: Severity := SHUTDOWN): (r: Severity)
    ensures r <= n && (r > 0 ==> Holds(t, h, v, r))
    ensures forall i: Severity :: r < i <= n ==> !Holds(t, h, v, i)
  {
    if n == 0 || Holds(t, h, v, n) then n else Held(t, h, v, n - 1)
  }

  /** A rising reading counts at once; a falling one only once it has left the band. */
  function NextHot(t: Thresholds, h: Hysteresis, prev: Severity, v: real): Severity {
    if Reached(t, v) < prev then Held(t, h, v) else Reached(t, v)
  }

  /** Cold throttling is hot throttling with the axis turned round. */
  function Mirrored(t: Thresholds): Thresholds {
    seq(LEVELS, i requires 0 <= i < LEVELS => if t[i] == None then None else Some(-t[i].value))
  }

  function NextCold(t: Thresholds, h: Hysteresis, prev: Severity, v: real): Severity {
    NextHot(Mirrored(t), h, prev, -v)
  }

  method GetSeverityFromThresholds(hot: Thresholds, cold: Thresholds, hotHysteresis: Hysteresis, coldHysteresis: Hysteresis,
                                   prevHot: Severity, prevCold: Severity, value: real)
    returns (retHot: Severity, retCold: Severity)
    ensures retHot == NextHot(hot, hotHysteresis, prevHot, value)
    ensures retCold == NextCold(cold, coldHysteresis, prevCold, value)
    ensures HotAnswer(hot, hotHysteresis, prevHot, value, retHot)
    ensures ColdAnswer(cold, coldHysteresis, prevCold, value, retCold)
  {
    retHot, retCold := NONE, NONE;
    var retHotHysteresis: Severity, retColdHysteresis: Severity := NONE, NONE;
    var i: Severity := SHUTDOWN;
    ghost var mirror := Mirrored(cold);
    while i > NONE
      invariant Reached(hot, value) == if retHot == NONE then Reached(hot, value, i) else retHot
      invariant Held(hot, hotHysteresis, value) ==
        if retHotHysteresis == NONE then Held(hot, hotHysteresis, value, i) else retHotHysteresis
      invariant Reached(mirror, -value) == if retCold == NONE then Reached(mirror, -value, i) else retCold
      invariant Held(mirror, coldHysteresis, -value) ==
        if retColdHysteresis == NONE then Held(mirror, coldHysteresis, -value, i) else retColdHysteresis
    {
      if hot[i].Some? && hot[i].value <= value && retHot == NONE {
        retHot := i;
      }
      if hot[i].Some? && hot[i].value - hotHysteresis[i] < value && retHotHysteresis == NONE {
        retHotHysteresis := i;
      }
      if cold[i].Some? && cold[i].value >= value && retCold == NONE {
        retCold := i;
      }
      if cold[i].Some? && cold[i].value + coldHysteresis[i] > value && retColdHysteresis == NONE {
        retColdHysteresis := i;
      }
      i := i - 1;
    }
    if retHot < prevHot {
      retHot := retHotHysteresis;
    }
    if retCold < prevCold {
      retCold := retColdHysteresis;
    }
    HotAnswerExactly(hot, hotHysteresis, prevHot, value, retHot);
    ColdAnswerExactly(cold, coldHysteresis, prevCold, value, retCold);
  }

  // ------------------------------------------------------------ the answers in plain numbers

  /** The hot severity for a reading: the highest level whose threshold it reaches, or, once
      it has dropped below all thresholds from the previous level on, the highest level whose
      band it has not left. */
  predicate HotAnswer(t: Thresholds, h: Hysteresis, prev: Severity, v: real, r: Severity) {
    if prev == NONE || exists k: Severity :: prev <= k && t[k].Some? && t[k].value <= v
    then (r == NONE || (t[r].Some? && t[r].value <= v))
         && forall k: Severity :: r < k && t[k].Some? ==> v < t[k].value
    else (r == NONE || (t[r].Some? && t[r].value - h[r] < v))
         && forall k: Severity :: r < k && t[k].Some? ==> v <= t[k].value - h[k]
  }

  /** The cold severity, where lower readings are worse. */
  predicate ColdAnswer(t: Thresholds, h: Hysteresis, prev: Severity, v: real, r: Severity) {
    if prev == NONE || exists k: Severity :: prev <= k && t[k].Some? && v <= t[k].value
    then (r == NONE || (t[r].Some? && v <= t[r].value))
         && forall k: Severity :: r < k && t[k].Some? ==> t[k].value < v
    else (r == NONE || (t[r].Some? && v < t[r].value + h[r]))
         && forall k: Severity :: r < k && t[k].Some? ==> t[k].value + h[k] <= v
  }

  lemma HotAnswerExactly(t: Thresholds, h: Hysteresis, prev: Severity, v: real, r: Severity)
    ensures HotAnswer(t, h, prev, v, r) <==> r == NextHot(t, h, prev, v)
  {
    var reached, held := Reached(t, v), Held(t, h, v);
    assert reached > 0 ==> Reaches(t, v, reached);
    assert held > 0 ==> Holds(t, h, v, held);
    assert forall k: Severity :: Reaches(t, v, k) <==> t[k].Some? && t[k].value <= v;
    assert forall k: Severity :: Holds(t, h, v, k) <==> t[k].Some? && t[k].value - h[k] < v;
    assert prev > 0 ==> (reached >= prev <==> exists k: Severity :: prev <= k && Reaches(t, v, k));
  }

  lemma ColdAnswerExactly(t: Thresholds, h: Hysteresis, prev: Severity, v: real, r: Severity)
    ensures ColdAnswer(t, h, prev, v, r) <==> r == NextCold(t, h, prev, v)
  {
    var m := Mirrored(t);
    assert forall k: Severity :: m[k].Some? <==> t[k].Some?;
    assert forall k: Severity :: t[k].Some? ==> m[k].value == -t[k].value;
    HotAnswerExactly(m, h, prev, -v, r);
    assert ColdAnswer(t, h, prev, v, r) <==> HotAnswer(m, h, prev, -v, r) by {
      assert forall k: Severity :: t[k].Some? ==> (v <= t[k].value <==> m[k].value <= -v);
      assert forall k: Severity :: t[k].Some? ==> (v < t[k].value + h[k] <==> m[k].value - h[k] < -v);
    }
  }

  /** A reading at or beyond the threshold of a level shows that level or a higher one, unless
      it lies on the very feet of bands without width while falling from above. */
  lemma ReachedIsShownExactly(t: Thresholds, h: Hysteresis, prev: Severity, v: real, r: Severity, l: Severity)
    requires NonNegative(h) && HotAnswer(t, h, prev, v, r) && l > 0 && t[l].Some? && t[l].value <= v
    ensures r < l <==>
      && (forall k: Severity :: prev <= k && t[k].Some? ==> v < t[k].value)
      && (forall k: Severity :: l <= k && t[k].Some? ==> v <= t[k].value - h[k])
    ensures r < l ==> h[l] == 0.0 && v == t[l].value && l < prev
  {
  }

  lemma ColdReachedIsShownExactly(t: Thresholds, h: Hysteresis, prev: Severity, v: real, r: Severity, l: Severity)
    requires NonNegative(h) && ColdAnswer(t, h, prev, v, r) && l > 0 && t[l].Some? && v <= t[l].value
    ensures r < l <==>
      && (forall k: Severity :: prev <= k && t[k].Some? ==> t[k].value < v)
      && (forall k: Severity :: l <= k && t[k].Some? ==> t[k].value + h[k] <= v)
    ensures r < l ==> h[l] == 0.0 && v == t[l].value && l < prev
  {
  }

  /** Such a reading exists: it falls from level 2 to the threshold of level 1, and shows NONE. */
  lemma WidthlessBandDrops()
    ensures var t := [None, Some(40.0), Some(50.0), None, None, None, None];
      HotAnswer(t, seq(LEVELS, _ => 0.0), 2, 40.0, NONE)
    ensures var t := [None, Some(5.0), Some(0.0), None, None, None, None];
      ColdAnswer(t, seq(LEVELS, _ => 0.0), 2, 5.0, NONE)
  {
  }

  // ------------------------------------------------------------ single steps

  predicate NonNegative(h: Hysteresis) {
    forall i: Severity :: h[i] >= 0.0
  }

  /** No configured band reaches down below a lower configured threshold. */
  predicate BandsDisjoint(t: Thresholds, h: Hysteresis) {
    forall i: Severity, j: Severity :: 0 < i < j && Configured(t, i) && Configured(t, j) ==> t[i].value <= t[j].value - h[j]
  }

  /** What a stored previous severity can be. */
  predicate Storable(t: Thresholds, s: Severity) {
    s == NONE || Configured(t, s)
  }

  /** Going from below level `l` to it or above takes a reading at its threshold. */
  lemma EnterAtThreshold(t: Thresholds, h: Hysteresis, prev: Severity, v: real, l: Severity)
    requires BandsDisjoint(t, h) && NonNegative(h) && Storable(t, prev)
    requires prev < l <= NextHot(t, h, prev, v) && Configured(t, l)
    ensures t[l].value <= v
  {
    var r := NextHot(t, h, prev, v);
    assert Configured(t, r);
    if Reached(t, v) < prev {
      assert t[prev].value <= t[r].value - h[r];
      assert Reaches(t, v, prev);
    }
  }

  /** Going from level `l` or above to below it takes a reading at the foot of its band. */
  lemma LeaveBelowBand(t: Thresholds, h: Hysteresis, prev: Severity, v: real, l: Severity)
    requires NextHot(t, h, prev, v) < l <= prev && Configured(t, l)
    ensures v <= t[l].value - h[l]
  {
    assert !Holds(t, h, v, l);
  }

  lemma NextHotStorable(t: Thresholds, h: Hysteresis, prev: Severity, v: real)
    ensures Storable(t, NextHot(t, h, prev, v))
  {
    var r := NextHot(t, h, prev, v);
    assert r > 0 ==> Reaches(t, v, r) || Holds(t, h, v, r);
  }

  // ------------------------------------------------------------ whole runs

  /** The stored severity after a run of readings, starting from NONE. */
  function SeverityAfter(t: Thresholds, h: Hysteresis, vs: seq<real>): Severity {
    if vs == [] then NONE else NextHot(t, h, SeverityAfter(t, h, vs[..|vs| - 1]), vs[|vs| - 1])
  }

  /** How often the run crosses level `l`, in either direction. */
  function Crossings(t: Thresholds, h: Hysteresis, l: Severity, vs: seq<real>): nat {
    if vs == [] then 0 else
    var init := vs[..|vs| - 1];
    Crossings(t, h, l, init) + if (SeverityAfter(t, h, init) >= l) != (SeverityAfter(t, h, vs) >= l) then 1 else 0
  }

  /** The total variation of the readings. */
  function Variation(vs: seq<real>): real {
    if |vs| <= 1 then 0.0 else Variation(vs[..|vs| - 1]) + Abs(vs[|vs| - 1] - vs[|vs| - 2])
  }

  lemma {:induction false} SeverityAfterStorable(t: Thresholds, h: Hysteresis, vs: seq<real>)
    ensures Storable(t, SeverityAfter(t, h, vs))
  {
    if vs != [] { NextHotStorable(t, h, SeverityAfter(t, h, vs[..|vs| - 1]), vs[|vs| - 1]); }
  }

  /** One band for each of `n` crossings but the first. */
  function Fee(n: int, band: real): real {
    (n - 1) as real * band
  }

  /** The same, crossing by crossing: a band of movement for each but the first. */
  function Toll(n: nat, band: real): real {
    if n <= 1 then 0.0 else Toll(n - 1, band) + band
  }

  lemma {:induction false} TollIs(n: nat, band: real)
    requires n > 0
    ensures Toll(n, band) == Fee(n, band)
  {
    if n > 1 {
      TollIs(n - 1, band);
      assert (n - 1) as real * band == (n - 2) as real * band + band;
    }
  }

  /** The books of a run: the toll so far and the way from the last crossing's reading `w`
      to the present one are covered by the variation. */
  predicate Covered(t: Thresholds, h: Hysteresis, l: Severity, vs: seq<real>, w: real)
    requires Configured(t, l)
  {
    var n := Crossings(t, h, l, vs);
    if n == 0 then SeverityAfter(t, h, vs) < l
    else
      && vs != []
      && Toll(n, h[l]) + Abs(vs[|vs| - 1] - w) <= Variation(vs)
      && (if SeverityAfter(t, h, vs) >= l then t[l].value <= w else w <= t[l].value - h[l])
  }

  lemma {:induction false} CrossingsAreCovered(t: Thresholds, h: Hysteresis, l: Severity, vs: seq<real>) returns (w: real)
    requires BandsDisjoint(t, h) && NonNegative(h) && 0 < l && Configured(t, l)
    ensures Covered(t, h, l, vs, w)
  {
    w := 0.0;
    if vs != [] {
      var init, v := vs[..|vs| - 1], vs[|vs| - 1];
      var prev, next := SeverityAfter(t, h, init), SeverityAfter(t, h, vs);
      w := CrossingsAreCovered(t, h, l, init);
      SeverityAfterStorable(t, h, init);
      if |vs| > 1 {
        Detour(v, init[|init| - 1], w);
        assert init[|init| - 1] == vs[|vs| - 2];
      }
      if prev < l <= next {
        EnterAtThreshold(t, h, prev, v, l);
        VariationNonNegative(vs);
        w := v;
      } else if next < l <= prev {
        LeaveBelowBand(t, h, prev, v, l);
        w := v;
      }
    }
  }

  lemma Detour(a: real, b: real, c: real)
    ensures Abs(a - c) <= Abs(a - b) + Abs(b - c)
  {
  }

  /** No chattering: over any run of readings a configured level is crossed at most once
      more than the readings' total variation holds bands of that level. */
  lemma {:induction false} NoChatter(t: Thresholds, h: Hysteresis, l: Severity, vs: seq<real>)
    requires BandsDisjoint(t, h) && NonNegative(h) && 0 < l && Configured(t, l)
    ensures Fee(Crossings(t, h, l, vs), h[l]) <= Variation(vs)
  {
    var w := CrossingsAreCovered(t, h, l, vs);
    VariationNonNegative(vs);
    TollBound(Crossings(t, h, l, vs), h[l], Variation(vs));
  }

  lemma TollBound(n: nat, band: real, budget: real)
    requires band >= 0.0 && budget >= 0.0 && (n > 0 ==> Toll(n, band) <= budget)
    ensures Fee(n, band) <= budget
  {
    if n > 0 { TollIs(n, band); } else { assert (n as int - 1) as real == -1.0; }
  }

  lemma {:induction false} VariationNonNegative(vs: seq<real>)
    ensures Variation(vs) >= 0.0
  {
    if |vs| > 1 { VariationNonNegative(vs[..|vs| - 1]); }
  }

  // ------------------------------------------------------------ the cold side

  /** No configured cold band reaches up above a lower level's threshold. */
  predicate ColdBandsDisjoint(t: Thresholds, h: Hysteresis) {
    forall i: Severity, j: Severity :: 0 < i < j && Configured(t, i) && Configured(t, j) ==> t[j].value + h[j] <= t[i].value
  }

  lemma MirroredIs(t: Thresholds, h: Hysteresis)
    ensures forall k: Severity :: (Mirrored(t)[k].Some? <==> t[k].Some?) && (t[k].Some? ==> Mirrored(t)[k].value == -t[k].value)
    ensures BandsDisjoint(Mirrored(t), h) <==> ColdBandsDisjoint(t, h)
  {
    var m := Mirrored(t);
    assert forall k: Severity :: (m[k].Some? <==> t[k].Some?) && (t[k].Some? ==> m[k].value == -t[k].value);
  }

  /** With disjoint bands a cold level is entered only by a reading at or below its threshold. */
  lemma ColdEntersAtThreshold(t: Thresholds, h: Hysteresis, prev: Severity, v: real, r: Severity, l: Severity)
    requires ColdBandsDisjoint(t, h) && NonNegative(h) && Storable(t, prev)
    requires ColdAnswer(t, h, prev, v, r) && prev < l <= r && Configured(t, l)
    ensures v <= t[l].value
  {
    ColdAnswerExactly(t, h, prev, v, r);
    MirroredIs(t, h);
    EnterAtThreshold(Mirrored(t), h, prev, -v, l);
  }

  /** And it is left only by a reading at or above its threshold plus its hysteresis. */
  lemma ColdLeavesAboveBand(t: Thresholds, h: Hysteresis, prev: Severity, v: real, r: Severity, l: Severity)
    requires ColdAnswer(t, h, prev, v, r) && r < l <= prev && Configured(t, l)
    ensures t[l].value + h[l] <= v
  {
    ColdAnswerExactly(t, h, prev, v, r);
    MirroredIs(t, h);
    LeaveBelowBand(Mirrored(t), h, prev, -v, l);
  }

  /** The severities shown from NONE on along a run of readings, as the cold side answers. */
  predicate ColdRun(t: Thresholds, h: Hysteresis, shown: seq<Severity>, vs: seq<real>) {
    && |shown| == |vs| + 1 && shown[0] == NONE
    && forall i :: 0 <= i < |vs| ==> ColdAnswer(t, h, shown[i], vs[i], shown[i + 1])
  }

  /** How often a run of severities crosses level `l`, in either direction. */
  function Switches(shown: seq<Severity>, l: Severity): nat {
    if |shown| <= 1 then 0 else
    Switches(shown[..|shown| - 1], l) + if (shown[|shown| - 2] >= l) != (shown[|shown| - 1] >= l) then 1 else 0
  }

  function Negated(vs: seq<real>): seq<real> {
    seq(|vs|, i requires 0 <= i < |vs| => -vs[i])
  }

  lemma {:induction false} ColdRunIsMirrored(t: Thresholds, h: Hysteresis, shown: seq<Severity>, vs: seq<real>, l: Severity)
    requires ColdRun(t, h, shown, vs)
    ensures shown[|vs|] == SeverityAfter(Mirrored(t), h, Negated(vs))
    ensures Switches(shown, l) == Crossings(Mirrored(t), h, l, Negated(vs))
  {
    if vs != [] {
      var n := |vs| - 1;
      ColdRunIsMirrored(t, h, shown[..n + 1], vs[..n], l);
      NegatedInit(vs);
      assert shown[..n + 1][n] == shown[n] && |shown| - 2 == n;
      ColdAnswerExactly(t, h, shown[n], vs[n], shown[n + 1]);
      assert shown[n + 1] == SeverityAfter(Mirrored(t), h, Negated(vs));
      assert shown[..|shown| - 1] == shown[..n + 1];
    }
  }

  lemma NegatedInit(vs: seq<real>)
    requires vs != []
    ensures var n := |vs| - 1; Negated(vs)[..n] == Negated(vs[..n]) && Negated(vs)[n] == -vs[n] && |Negated(vs)| - 1 == n
  {
  }

  lemma {:induction false} NegatedVaries(vs: seq<real>)
    ensures Variation(Negated(vs)) == Variation(vs)
  {
    if |vs| > 1 {
      NegatedInit(vs);
      NegatedVaries(vs[..|vs| - 1]);
      assert Negated(vs)[|vs| - 2] == -vs[|vs| - 2];
    }
  }

  /** No chattering on the cold side either. */
  lemma ColdNoChatter(t: Thresholds, h: Hysteresis, shown: seq<Severity>, vs: seq<real>, l: Severity)
    requires ColdBandsDisjoint(t, h) && NonNegative(h) && 0 < l && Configured(t, l) && ColdRun(t, h, shown, vs)
    ensures Fee(Switches(shown, l), h[l]) <= Variation(vs)
  {
    MirroredIs(t, h);
    ColdRunIsMirrored(t, h, shown, vs, l);
    NegatedVaries(vs);
    NoChatter(Mirrored(t), h, l, Negated(vs));
  }

  // ------------------------------------------------------------ exactly when

  predicate Ascending(t: Thresholds) {
    forall i: Severity, j: Severity :: 0 < i < j && Configured(t, i) && Configured(t, j) ==> t[i].value < t[j].value
  }

  /** In every run, a level is entered only by a reading at its threshold. */
  ghost predicate EntersAtThresholds(t: Thresholds, h: Hysteresis) {
    forall vs: seq<real>, v: real, l: Severity ::
      Configured(t, l) && SeverityAfter(t, h, vs) < l <= SeverityAfter(t, h, vs + [v]) ==> t[l].value <= v
  }

  lemma SeverityAfterSnoc(t: Thresholds, h: Hysteresis, vs: seq<real>, v: real)
    ensures SeverityAfter(t, h, vs + [v]) == NextHot(t, h, SeverityAfter(t, h, vs), v)
  {
    assert (vs + [v])[..|vs|] == vs;
  }

  lemma ReachedAscending(t: Thresholds, v: real, i: Severity)
    requires Ascending(t) && 0 < i && Configured(t, i)
    ensures v < t[i].value ==> Reached(t, v) < i
    ensures v == t[i].value ==> Reached(t, v) == i
  {
    assert forall j: Severity :: i < j && Configured(t, j) ==> t[i].value < t[j].value;
    assert v == t[i].value ==> Reaches(t, v, i);
  }

  /** With two overlapping bands, falling out of the lower level lands in the higher one. */
  lemma OverlapEntersEarly(t: Thresholds, h: Hysteresis, i: Severity, j: Severity)
    requires Ascending(t) && NonNegative(h)
    requires 0 < i < j && Configured(t, i) && Configured(t, j) && t[i].value > t[j].value - h[j]
    ensures !EntersAtThresholds(t, h)
  {
    var a := t[i].value;
    var v := (a + (t[j].value - h[j])) / 2.0;
    ReachedAscending(t, a, i);
    ReachedAscending(t, v, i);
    SeverityAfterSnoc(t, h, [], a);
    SeverityAfterSnoc(t, h, [a], v);
    assert [] + [a] == [a];
    var r := SeverityAfter(t, h, [a] + [v]);
    assert Holds(t, h, v, j);
    assert forall k: Severity :: j < k && Configured(t, k) ==> t[j].value < t[k].value;
    assert Configured(t, r) && SeverityAfter(t, h, [a]) < r && !(t[r].value <= v);
  }

  /** For ascending thresholds and non-negative hysteresis, entering at the thresholds is
      exactly what disjoint bands buy: with overlapping bands a falling temperature can
      raise the severity. */
  lemma EntryNeedsDisjointBands(t: Thresholds, h: Hysteresis)
    requires Ascending(t) && NonNegative(h)
    ensures EntersAtThresholds(t, h) <==> BandsDisjoint(t, h)
  {
    if BandsDisjoint(t, h) {
      forall vs: seq<real>, v: real, l: Severity
        | Configured(t, l) && SeverityAfter(t, h, vs) < l <= SeverityAfter(t, h, vs + [v])
        ensures t[l].value <= v
      {
        SeverityAfterSnoc(t, h, vs, v);
        SeverityAfterStorable(t, h, vs);
        EnterAtThreshold(t, h, SeverityAfter(t, h, vs), v, l);
      }
    } else {
      var i: Severity, j: Severity :| 0 < i < j && Configured(t, i) && Configured(t, j) && t[i].value > t[j].value - h[j];
      OverlapEntersEarly(t, h, i, j);
    }
  }
}
