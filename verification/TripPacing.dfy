/** Which interval the shared batch runs with: never a longer one than a running trip asked for,
    and the least of those exactly as long as the re-plans can keep it so. */
module TripPacing {
  import opened TripSessions
  import opened TripSafety
  import opened TripSaving

  // ------------------------------------------------------------ the fold over intervals

  predicate Positive(trips: seq<Trip>) {
    forall t :: t in trips ==> t.interval > 0
  }

  /** With positive intervals the fold finds the least of them. */
  lemma {:induction false} FoldFindsLeastInterval(trips: seq<Trip>, least: nat)
    requires Positive(trips)
    ensures var r := MinInterval(trips, least);
      && (forall t :: t in trips ==> r <= t.interval) && (least > 0 ==> r <= least)
      && (trips != [] || least > 0 ==> r > 0)
      && (trips == [] || SomeInterval(trips, r) || (least > 0 && r == least))
      && (trips == [] ==> r == least)
  {
    if trips != [] {
      var first := trips[0];
      assert first in trips && trips == [first] + trips[1..];
      FoldFindsLeastInterval(trips[1..], if least == 0 || least > first.interval then first.interval else least);
    }
  }

  /** A zero interval counts only in the last place, since the fold takes it for "none yet". */
  lemma {:induction false} FoldForgetsZeros(trips: seq<Trip>, least: nat)
    ensures MinInterval(trips, least) == 0 <==> if trips == [] then least == 0 else trips[|trips| - 1].interval == 0
  {
    if trips != [] {
      FoldForgetsZeros(trips[1..], if least == 0 || least > trips[0].interval then trips[0].interval else least);
    }
  }

  /** So the fold finds the least of any intervals exactly when none is zero or the last one is. */
  lemma LeastIntervalExactly(trips: seq<Trip>)
    requires trips != []
    ensures (SomeInterval(trips, MinInterval(trips, 0)) && forall t :: t in trips ==> MinInterval(trips, 0) <= t.interval) <==>
            Positive(trips) || trips[|trips| - 1].interval == 0
  {
    FoldForgetsZeros(trips, 0);
    if Positive(trips) {
      FoldFindsLeastInterval(trips, 0);
    } else if trips[|trips| - 1].interval == 0 {
      assert trips[|trips| - 1] in trips;
    }
  }

  // ------------------------------------------------------------ what steps do to intervals

  function Intervals(trips: seq<Trip>): set<nat> {
    set t | t in trips :: t.interval
  }

  predicate SameIntervals(a: seq<Trip>, b: seq<Trip>) {
    |a| == |b| && forall i :: 0 <= i < |a| ==> a[i].interval == b[i].interval
  }

  lemma SameIntervalsAre(a: seq<Trip>, b: seq<Trip>)
    requires SameIntervals(a, b)
    ensures Intervals(a) == Intervals(b) && (a == [] <==> b == [])
  {
    forall i | i in Intervals(a) ensures i in Intervals(b) {
      var k :| 0 <= k < |a| && a[k].interval == i;
      assert b[k] in b;
    }
    forall i | i in Intervals(b) ensures i in Intervals(a) {
      var k :| 0 <= k < |b| && b[k].interval == i;
      assert a[k] in a;
    }
  }

  /** No running trip asked for a shorter interval. */
  predicate NotSlower(m: Batch) {
    forall i :: i in Intervals(m.trips) ==> 0 < i && m.ongoingInterval <= i
  }

  /** The interval is one that a running trip asked for. */
  predicate Paced(m: Batch) {
    m.trips == [] || m.ongoingInterval in Intervals(m.trips)
  }

  /** The engine runs with the interval the batch is meant to run with. */
  predicate InSync(m: Batch) {
    m.trips == [] || m.engineInterval == m.ongoingInterval
  }

  lemma PositiveIs(trips: seq<Trip>)
    requires forall i :: i in Intervals(trips) ==> 0 < i
    ensures Positive(trips)
  {
    forall t | t in trips ensures t.interval > 0 {
      assert t.interval in Intervals(trips);
    }
  }

  /** A re-plan leaves an interval that a trip asked for exactly when there was one, or a session
      with that interval has left and the engine does not refuse the restart. */
  lemma ReplanPace(m: Batch, acc: nat, ok: bool)
    requires NotSlower(m)
    ensures var m' := Replanned(m, acc, ok);
      && NotSlower(m') && (m'.trips == [] <==> m.trips == [])
      && (Paced(m') <==> m.trips == [] || m.ongoingInterval in Intervals(m.trips) || (m.intervalDropped && ok))
      && (InSync(m) ==> InSync(m'))
  {
    var m' := Replanned(m, acc, ok);
    if m.trips != [] {
      PositiveIs(m.trips);
      FoldFindsLeastInterval(m.trips, 0);
      var least := MinInterval(m.trips, 0);
      var t :| t in m.trips && t.interval == least;
      assert least in Intervals(m.trips);
      if m.ongoingInterval in Intervals(m.trips) {
        var u :| u in m.trips && u.interval == m.ongoingInterval;
        assert least <= u.interval;
      }
      SameIntervalsAre(RebasedAll(m.trips, acc), m.trips);
    }
  }

  lemma InsertedIntervals(trips: seq<Trip>, t: Trip)
    requires Ascending(trips) && !Has(trips, t.id)
    ensures Intervals(Inserted(trips, t)) == Intervals(trips) + {t.interval}
  {
    var r := Inserted(trips, t);
    forall i ensures i in Intervals(r) <==> i in Intervals(trips) || i == t.interval {
      if i in Intervals(r) {
        var u :| u in r && u.interval == i;
        InsertedHolds(trips, t, u);
      }
      if i in Intervals(trips) {
        var u :| u in trips && u.interval == i;
        InsertedHolds(trips, t, u);
        assert u in r;
      }
      InsertedHolds(trips, t, t);
      assert t in r;
    }
  }

  /** Starting a trip: the interval of the batch drops to a shorter one, and so does the engine's
      unless it refuses. */
  lemma StartPace(m: Batch, id: nat, distance: nat, interval: nat, queryOk: bool, ok: bool)
    requires NotSlower(m) && Ascending(m.trips) && !Has(m.trips, id) && interval > 0
    ensures var m' := Started(m, id, distance, interval, queryOk, ok);
      && NotSlower(m')
      && (Paced(m') <==> m.trips == [] || (if queryOk then Paced(m) || interval <= m.ongoingInterval
                                                else Paced(m) && m.ongoingInterval <= interval))
      && (InSync(m) ==> (InSync(m') <==> m.trips == [] || ok || m.ongoingInterval <= interval))
  {
    var m' := Started(m, id, distance, interval, queryOk, ok);
    if m.trips == [] {
      assert ok ==> Intervals(m'.trips) == {interval} by {
        if ok { assert m'.trips[0] in m'.trips && forall t :: t in m'.trips ==> t.interval == interval; }
      }
    } else {
      var w := WithNew(m, id, distance, interval, queryOk);
      SameIntervalsAre(m'.trips, w.trips);
      if queryOk { InsertedIntervals(m.trips, Trip(id, Counter(m), 0, 0, distance, interval)); }
      assert m'.ongoingInterval == if m.ongoingInterval > interval then interval else m.ongoingInterval;
      assert m.trips[0] in m.trips && m.trips[0].interval in Intervals(m.trips);
      if queryOk {
        InsertedHolds(m.trips, Trip(id, Counter(m), 0, 0, distance, interval), Trip(id, Counter(m), 0, 0, distance, interval));
      }
    }
  }

  // ------------------------------------------------------------ sessions that leave

  lemma WithoutMembers(trips: seq<Trip>, k: nat)
    requires Ascending(trips) && k < |trips|
    ensures forall t :: t in trips[..k] + trips[k + 1..] <==> t in trips && t.id != trips[k].id
    ensures forall t :: t in trips && t.id == trips[k].id ==> t == trips[k]
  {
    var rest := trips[..k] + trips[k + 1..];
    forall t ensures t in rest <==> t in trips && t.id != trips[k].id {
      if t in rest {
        var j :| 0 <= j < |rest| && rest[j] == t;
        assert t == trips[if j < k then j else j + 1];
      }
      if t in trips && t.id != trips[k].id {
        var j :| 0 <= j < |trips| && trips[j] == t;
        assert rest[if j < k then j else j - 1] == t;
      }
    }
    forall t | t in trips && t.id == trips[k].id ensures t == trips[k] {
      var j :| 0 <= j < |trips| && trips[j] == t;
    }
  }

  /** What a session that leaves, leaves of the intervals. */
  lemma LessIntervals(m: Batch, id: nat)
    requires Ascending(m.trips) && Has(m.trips, id)
    ensures forall i :: i in Intervals(Less(m, id).trips) <==> exists t :: t in m.trips && t.id != id && t.interval == i
    ensures Less(m, id).intervalDropped <==> m.intervalDropped || exists t :: t in m.trips && t.id == id && t.interval == m.ongoingInterval
    ensures Less(m, id).trips == [] <==> forall t :: t in m.trips ==> t.id == id
  {
    var k, rest := IndexOf(m.trips, id), Less(m, id).trips;
    WithoutMembers(m.trips, k);
    assert m.trips[k] in m.trips;
    if rest == [] {
      assert forall t :: t in m.trips && t.id != id ==> t in rest;
    } else {
      assert rest[0] in rest;
    }
  }

  /** A stop that reaches its trip. */
  lemma StopPace(m: Batch, id: nat, ok: bool)
    requires NotSlower(m) && Ascending(m.trips) && Has(m.trips, id)
    ensures var m' := Stopped(m, id, ok);
      && NotSlower(m') && (InSync(m) ==> InSync(m'))
      && (Paced(m') <==>
            || (forall t :: t in m.trips ==> t.id == id)
            || (exists t :: t in m.trips && t.id != id && t.interval == m.ongoingInterval)
            || (ok && (m.intervalDropped || exists t :: t in m.trips && t.id == id && t.interval == m.ongoingInterval)))
  {
    var l := Less(m, id);
    LessIntervals(m, id);
    forall i | i in Intervals(l.trips) ensures i in Intervals(m.trips) {
    }
    assert NotSlower(l);
    ReplanPace(l, Counter(m), ok);
  }

  lemma SweptIntervals(m: Batch, acc: nat)
    ensures var s := Swept(m, acc);
      && (forall i :: i in Intervals(s.trips) <==> exists t :: t in m.trips && !Complete(t, acc) && t.interval == i)
      && (s.intervalDropped <==> m.intervalDropped || exists t :: t in m.trips && Complete(t, acc) && t.interval == m.ongoingInterval)
      && (s.trips == [] <==> forall t :: t in m.trips ==> Complete(t, acc))
      && (Finished(m.trips, acc) == [] <==> forall t :: t in m.trips ==> !Complete(t, acc))
  {
    var s, done := Swept(m, acc), Finished(m.trips, acc);
    UnfinishedOf(m.trips, acc);
    forall i ensures i in Intervals(s.trips) <==> exists t :: t in m.trips && !Complete(t, acc) && t.interval == i {
      if t :| t in m.trips && !Complete(t, acc) && t.interval == i {
        assert Credited(t, acc) in s.trips;
      }
    }
    if t :| t in m.trips && Complete(t, acc) && t.interval == m.ongoingInterval {
      assert Credited(t, acc) in done;
    }
    if s.trips != [] { assert s.trips[0] in s.trips; }
    if done != [] { assert done[0] in done; }
  }

  lemma ReportPace(m: Batch, acc: nat, ok: bool)
    requires NotSlower(m)
    ensures var m' := Reported(m, acc, ok);
      && NotSlower(m') && (InSync(m) ==> InSync(m'))
      && (Paced(m') <==>
            || (Paced(m) && forall t :: t in m.trips ==> !Complete(t, acc))
            || (forall t :: t in m.trips ==> Complete(t, acc))
            || (exists t :: t in m.trips && !Complete(t, acc) && t.interval == m.ongoingInterval)
            || (ok && (exists t :: t in m.trips && Complete(t, acc))
                && (m.intervalDropped || exists t :: t in m.trips && Complete(t, acc) && t.interval == m.ongoingInterval)))
  {
    var s := Swept(m, acc);
    SweptIntervals(m, acc);
    forall i | i in Intervals(s.trips) ensures i in Intervals(m.trips) {
    }
    assert NotSlower(s);
    if Finished(m.trips, acc) != [] { ReplanPace(s, acc, ok); }
  }

  // ------------------------------------------------------------ every step

  /** A start asks for a positive interval and has a new id. */
  predicate Orderly(m: Batch, e: Event) {
    e.Start? ==> e.interval > 0 && !Has(m.trips, e.id)
  }

  /** A start that finds the batch slower than it asked for, and whose restart is refused. */
  predicate RefusedFaster(m: Batch, e: Event) {
    e.Start? && m.trips != [] && e.interval < m.ongoingInterval && !e.ok
  }

  predicate Reaches(m: Batch, e: Event) {
    (e.Stop? || e.Leave?) && e.id in m.saved && Has(m.trips, e.id)
  }

  /** No event makes the batch slower than a running trip asked for; and the engine falls out of
      step with the batch exactly by a refused faster start. */
  lemma PaceKept(m: Batch, e: Event)
    requires NotSlower(m) && Ascending(m.trips) && m.fault.NoFault? && Orderly(m, e)
    ensures NotSlower(Step(m, e))
    ensures InSync(m) ==> (InSync(Step(m, e)) <==> !RefusedFaster(m, e))
  {
    match e {
      case Travel(_) =>
      case Start(id, distance, interval, queryOk, ok) => StartPace(m, id, distance, interval, queryOk, ok);
      case Stop(id, ok) => if Has(m.trips, id) { StopPace(m, id, ok); }
      case Leave(id, ok) => if Has(m.trips, id) { StopPace(m, id, ok); }
      case Report(acc, ok) => ReportPace(m, acc, ok);
    }
  }

  /** The batch that runs with the least interval asked for goes on doing so exactly unless a
      faster start joins nobody because its distance query failed, or the last trip with that
      interval leaves others behind and the restart is refused. */
  lemma PacedExactly(m: Batch, e: Event)
    requires NotSlower(m) && Paced(m) && Ascending(m.trips) && m.fault.NoFault? && Orderly(m, e)
    ensures Paced(Step(m, e)) <==>
      if e.Start? then m.trips == [] || e.queryOk || m.ongoingInterval <= e.interval
      else if Reaches(m, e) then
        || e.ok || (forall t :: t in m.trips ==> t.id == e.id)
        || exists t :: t in m.trips && t.id != e.id && t.interval == m.ongoingInterval
      else if e.Report? then
        || e.ok || (forall t :: t in m.trips ==> Complete(t, e.acc))
        || exists t :: t in m.trips && !Complete(t, e.acc) && t.interval == m.ongoingInterval
      else true
  {
    if m.trips != [] {
      var t :| t in m.trips && t.interval == m.ongoingInterval;
    }
    match e {
      case Travel(_) =>
      case Start(id, distance, interval, queryOk, ok) => StartPace(m, id, distance, interval, queryOk, ok);
      case Stop(id, ok) => if Has(m.trips, id) { StopPace(m, id, ok); }
      case Leave(id, ok) => if Has(m.trips, id) { StopPace(m, id, ok); }
      case Report(acc, ok) => ReportPace(m, acc, ok);
    }
  }

  /** And one that runs faster than asked for slows down again with the next restart that a
      session with the batch's interval has made due. */
  lemma PaceRegained(m: Batch, e: Event)
    requires NotSlower(m) && Ascending(m.trips) && m.fault.NoFault? && m.intervalDropped && Reaches(m, e) && e.ok
    ensures Paced(Step(m, e))
  {
    StopPace(m, e.id, e.ok);
  }

  // ------------------------------------------------------------ whole runs

  predicate OrderlyRun(events: seq<Event>) {
    events != [] ==>
      var init := events[..|events| - 1];
      OrderlyRun(init) && Orderly(Run(init), events[|events| - 1])
  }

  predicate NeverRefusedFaster(events: seq<Event>) {
    events != [] ==>
      var init := events[..|events| - 1];
      NeverRefusedFaster(init) && !RefusedFaster(Run(init), events[|events| - 1])
  }

  lemma {:induction false} RunAscending(events: seq<Event>)
    ensures Ascending(Run(events).trips)
  {
    if events != [] {
      var init := events[..|events| - 1];
      RunAscending(init);
      if Run(init).fault.NoFault? { StepKeepsSession(Run(init), events[|events| - 1], 0); }
    }
  }

  /** Through starts, stops, reports and refused restarts, the batch never runs with a longer
      interval than a running trip asked for; nor does the engine, as long as it never refused
      a start that needed a shorter one. */
  lemma {:induction false} NeverSlower(events: seq<Event>)
    requires OrderlyRun(events)
    ensures var m := Run(events);
      && NotSlower(m)
      && (forall t :: t in m.trips ==> m.ongoingInterval <= t.interval)
      && (NeverRefusedFaster(events) ==> InSync(m) && forall t :: t in m.trips ==> m.engineInterval <= t.interval)
  {
    if events != [] {
      var init, e := events[..|events| - 1], events[|events| - 1];
      NeverSlower(init);
      RunAscending(init);
      if Run(init).fault.NoFault? { PaceKept(Run(init), e); }
    }
    var m := Run(events);
    forall t | t in m.trips ensures m.ongoingInterval <= t.interval {
      assert t.interval in Intervals(m.trips);
    }
  }

  /** Without trips nothing is planned. */
  lemma {:induction false} IdleIsUnplanned(events: seq<Event>)
    ensures Run(events).trips == [] ==> Run(events).ongoingDistance == 0 && Run(events).ongoingInterval == 0
  {
    if events != [] {
      var init, e := events[..|events| - 1], events[|events| - 1];
      IdleIsUnplanned(init);
      if Run(init).trips != [] && e.Report? && Finished(Run(init).trips, e.acc) == [] {
        SweptIntervals(Run(init), e.acc);
        assert Run(init).trips[0] in Run(init).trips;
      }
      if Run(init).trips != [] && e.Start? && e.queryOk {
        InsertedSome(Run(init).trips, Trip(e.id, Counter(Run(init)), 0, 0, e.distance, e.interval));
      }
    }
  }

  lemma InsertedSome(trips: seq<Trip>, t: Trip)
    ensures Inserted(trips, t) != []
  {
  }

  lemma OneTrip()
    ensures Run([Start(1, 100, 10, true, true)]).trips == [Trip(1, 0, 0, 0, 100, 10)]
    ensures Run([Start(1, 100, 10, true, true)]) == Step(IDLE, Start(1, 100, 10, true, true))
  {
    assert [Start(1, 100, 10, true, true)][..0] == [];
  }

  /** A run in which the engine goes on with 10 although trip 2 asked for 5. */
  lemma RefusedFasterIsSlow()
    ensures var events := [Start(1, 100, 10, true, true)] + [Start(2, 200, 5, true, false)];
      && OrderlyRun(events) && Run(events).engineInterval == 10 && Run(events).ongoingInterval == 5
      && exists t :: t in Run(events).trips && t.id == 2 && t.interval == 5
  {
    var early, e := [Start(1, 100, 10, true, true)], Start(2, 200, 5, true, false);
    OneTrip();
    RunSnoc(early, e);
    assert (early + [e])[..1] == early && early[..0] == [];
    var m := Run(early);
    assert m.trips[1..] == [];
    assert Run(early + [e]).trips[1] == Trip(2, 0, 0, 0, 200, 5);
  }

  const THREE_TRIPS := Batch([Trip(1, 0, 0, 0, 100, 0), Trip(2, 0, 0, 0, 200, 20), Trip(3, 0, 0, 0, 50, 0)], 50, 0, false, false,
                             {1}, 0, 0, 50, 0, map[1 := 0, 2 := 0, 3 := 0], [], NoFault)

  lemma ThreeTrips()
    ensures var events := [Start(1, 100, 0, true, true)] + [Start(2, 200, 20, true, true)] + [Start(3, 50, 0, true, true)];
      FairRun(events) && Run(events) == THREE_TRIPS
  {
    var e1, e2, e3 := Start(1, 100, 0, true, true), Start(2, 200, 20, true, true), Start(3, 50, 0, true, true);
    ThreeEvents(e1, e2, e3);
    var m1 := Step(IDLE, e1);
    assert m1.trips == [Trip(1, 0, 0, 0, 100, 0)] && m1.trips[1..] == [];
    var m2 := Step(m1, e2);
    assert m2.trips == [Trip(1, 0, 0, 0, 100, 0), Trip(2, 0, 0, 0, 200, 20)];
    assert m2.trips[1..] == [Trip(2, 0, 0, 0, 200, 20)] && m2.trips[1..][1..] == [];
    var t3 := Trip(3, 0, 0, 0, 50, 0);
    assert Inserted(m2.trips[1..], t3) == [Trip(2, 0, 0, 0, 200, 20)] + Inserted(m2.trips[1..][1..], t3);
    assert Inserted(m2.trips, t3) == [Trip(1, 0, 0, 0, 100, 0), Trip(2, 0, 0, 0, 200, 20), t3];
    assert Step(m2, e3).trips == THREE_TRIPS.trips;
  }

  lemma TwoGoOn()
    ensures var trips := THREE_TRIPS.trips;
      && Unfinished(trips, 50) == [Trip(1, 0, 50, 0, 100, 0), Trip(2, 0, 50, 0, 200, 20)]
      && Finished(trips, 50) == [Trip(3, 0, 50, 0, 50, 0)]
  {
    var trips := THREE_TRIPS.trips;
    var (two, one) := (trips[1..], trips[1..][1..]);
    assert two == [Trip(2, 0, 0, 0, 200, 20), Trip(3, 0, 0, 0, 50, 0)] && one == [Trip(3, 0, 0, 0, 50, 0)] && one[1..] == [];
    assert Credited(one[0], 50) == Trip(3, 0, 50, 0, 50, 0) && Credited(two[0], 50) == Trip(2, 0, 50, 0, 200, 20);
    assert Unfinished(one[1..], 50) == [] && Finished(one[1..], 50) == [];
    assert Unfinished(one, 50) == [] && Finished(one, 50) == [Trip(3, 0, 50, 0, 50, 0)];
    assert Unfinished(two, 50) == [Trip(2, 0, 50, 0, 200, 20)] && Finished(two, 50) == Finished(one, 50);
  }

  /** A fair run in which a zero interval is forgotten: of three trips, of which the first and the
      third asked for 0, the third completes, and the engine goes on with 20. */
  lemma ZeroIntervalIsForgotten()
    ensures var events := [Start(1, 100, 0, true, true)] + [Start(2, 200, 20, true, true)] + [Start(3, 50, 0, true, true)] + [Travel(50)];
      && FairRun(events) && Run(events + [Report(50, true)]).engineInterval == 20
      && exists t :: t in Run(events + [Report(50, true)]).trips && t.interval == 0
  {
    var events := [Start(1, 100, 0, true, true)] + [Start(2, 200, 20, true, true)] + [Start(3, 50, 0, true, true)] + [Travel(50)];
    ThreeTripsTravelling();
    RunSnoc(events, Report(50, true));
    ReportForgets(Run(events));
  }

  lemma ThreeTripsTravelling()
    ensures var events := [Start(1, 100, 0, true, true)] + [Start(2, 200, 20, true, true)] + [Start(3, 50, 0, true, true)] + [Travel(50)];
      FairRun(events) && Run(events) == THREE_TRIPS.(odometer := 50)
  {
    var early := [Start(1, 100, 0, true, true)] + [Start(2, 200, 20, true, true)] + [Start(3, 50, 0, true, true)];
    ThreeTrips();
    RunSnoc(early, Travel(50));
    assert (early + [Travel(50)])[..|early|] == early;
  }

  lemma ReportForgets(m: Batch)
    requires m == THREE_TRIPS.(odometer := 50)
    ensures var m' := Reported(m, 50, true);
      m'.engineInterval == 20 && exists t :: t in m'.trips && t.interval == 0
  {
    TwoGoOn();
    var s := Swept(m, 50);
    var t3 := Trip(3, 0, 50, 0, 50, 0);
    assert Finished(m.trips, 50) == [t3] && t3 in [t3];
    assert s.intervalDropped && s.distanceDropped;
    assert s.trips[1..] == [Trip(2, 0, 50, 0, 200, 20)] && s.trips[1..][1..] == [];
    assert MinInterval(s.trips, 0) == 20 && MinRemaining(s.trips, 0) == 50;
    assert Replanned(s, 50, true).trips[0] in Replanned(s, 50, true).trips;
  }
}
