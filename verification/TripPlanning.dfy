/** Whether the engine was asked to report at the right distance: when the next trip ends. */
module TripPlanning {
  import opened TripSessions
  import opened TripSafety

  // ------------------------------------------------------------ aim

  /** The counter at which a trip ends. */
  function End(t: Trip): int {
    t.ongoingBatch + t.distance - t.onRestart
  }

  /** No trip has ended when the counter stands at `now`. */
  predicate Running(trips: seq<Trip>, now: nat) {
    forall t :: t in trips ==> t.ongoingBatch <= now < End(t) && t.onRestart <= t.distance < WRAP
  }

  ghost predicate IsFirstEnd(x: int, trips: seq<Trip>) {
    (exists t :: t in trips && End(t) == x) && forall t :: t in trips ==> x <= End(t)
  }

  /** A counter value that every trip can be credited with, short of wrapping. */
  predicate Countable(trips: seq<Trip>, acc: nat) {
    forall t :: t in trips ==> t.ongoingBatch <= acc && t.onRestart + (acc - t.ongoingBatch) < WRAP
  }

  ghost predicate SomeComplete(trips: seq<Trip>, acc: nat) {
    exists t :: t in trips && Complete(t, acc)
  }

  /** The distance the engine runs with is where the next trip ends: a report at or after it,
      and none before it, finds a trip complete. */
  ghost predicate Aimed(m: Batch) {
    forall acc: nat :: Countable(m.trips, acc) ==> (SomeComplete(m.trips, acc) <==> m.engineDistance <= acc)
  }

  lemma CompleteAtEnd(trips: seq<Trip>, t: Trip, acc: nat)
    requires t in trips && Countable(trips, acc)
    ensures Complete(t, acc) <==> End(t) <= acc
  {
  }

  /** The engine is aimed exactly when it runs with the first end of a trip. */
  lemma AimedExactly(m: Batch, now: nat, x: int)
    requires Running(m.trips, now) && IsFirstEnd(x, m.trips)
    ensures Aimed(m) <==> m.engineDistance == x
  {
    var first :| first in m.trips && End(first) == x;
    if m.engineDistance == x {
      forall acc: nat | Countable(m.trips, acc) ensures SomeComplete(m.trips, acc) <==> m.engineDistance <= acc {
        CompleteAtEnd(m.trips, first, acc);
        if t :| t in m.trips && Complete(t, acc) {
          CompleteAtEnd(m.trips, t, acc);
        }
      }
    } else {
      var acc: nat := if x < m.engineDistance then x else if m.engineDistance < now then now else m.engineDistance;
      assert Countable(m.trips, acc) by {
        forall t | t in m.trips ensures t.ongoingBatch <= acc && t.onRestart + (acc - t.ongoingBatch) < WRAP {
          assert acc <= x <= End(t);
        }
      }
      CompleteAtEnd(m.trips, first, acc);
      forall t | t in m.trips && Complete(t, acc) ensures x <= acc {
        CompleteAtEnd(m.trips, t, acc);
      }
    }
  }

  // ------------------------------------------------------------ the fold over distances left

  /** What a trip still has to go, as recorded. */
  function Left(t: Trip): int {
    t.distance - t.thisTrip
  }

  ghost predicate IsLeastLeft(x: int, trips: seq<Trip>) {
    (exists t :: t in trips && Left(t) == x) && forall t :: t in trips ==> x <= Left(t)
  }

  /** The fold with zero for "none yet" finds the least distance left, as long as no trip has
      nothing left. */
  lemma {:induction false} FoldFindsLeast(trips: seq<Trip>, least: nat)
    requires forall t :: t in trips ==> t.thisTrip < t.distance < WRAP
    ensures var r := MinRemaining(trips, least);
      && (trips != [] || least > 0 ==> r > 0)
      && (forall t :: t in trips ==> r <= Left(t)) && (least > 0 ==> r <= least)
      && (trips == [] || (exists t :: t in trips && Left(t) == r) || (least > 0 && r == least))
      && (trips == [] ==> r == least)
  {
    if trips != [] {
      var first := trips[0];
      assert first in trips;
      assert Sub32(first.distance, first.thisTrip) == Left(first);
      FoldFindsLeast(trips[1..], if least == 0 || least > Left(first) then Left(first) else least);
      assert trips == [first] + trips[1..];
    }
  }

  lemma MinRemainingIsLeast(trips: seq<Trip>)
    requires trips != [] && forall t :: t in trips ==> t.thisTrip < t.distance < WRAP
    ensures IsLeastLeft(MinRemaining(trips, 0), trips)
  {
    FoldFindsLeast(trips, 0);
  }

  // ------------------------------------------------------------ re-planning

  /** Recorded distances lie behind the credit, as in every safe batch. */
  predicate Recorded(trips: seq<Trip>, acc: nat) {
    forall t :: t in trips ==> t.thisTrip <= t.onRestart + (acc - t.ongoingBatch)
  }

  /** The distance the batch was planned for is done with. */
  predicate Spent(m: Batch, acc: nat) {
    m.distanceDropped || Sub32(m.ongoingDistance, acc) == 0
  }

  /** A re-plan gives the engine a new distance: when the old one is done with, or a recorded
      distance left is shorter than what is left of it. */
  predicate Shortens(m: Batch, acc: nat) {
    Spent(m, acc) || exists t :: t in m.trips && Left(t) < Sub32(m.ongoingDistance, acc)
  }

  /** Of the trips that end first, one has its recorded distance up to date. */
  predicate FirstIsUpToDate(trips: seq<Trip>, acc: nat, x: int) {
    exists t :: t in trips && End(t) == x && t.thisTrip == t.onRestart + (acc - t.ongoingBatch)
  }

  lemma PlanIs(m: Batch, acc: nat)
    requires m.trips != [] && forall t :: t in m.trips ==> t.thisTrip < t.distance < WRAP
    ensures RestartPlan(m, acc).distance == if Shortens(m, acc) then MinRemaining(m.trips, 0) else m.ongoingDistance
    ensures RestartPlan(m, acc).restart <==> Shortens(m, acc) || RestartPlan(m, acc).interval != m.ongoingInterval
  {
    FoldFindsLeast(m.trips, 0);
    MinRemainingIsLeast(m.trips);
    assert MinRemaining(m.trips, 0) < Sub32(m.ongoingDistance, acc) <==>
           exists t :: t in m.trips && Left(t) < Sub32(m.ongoingDistance, acc);
  }

  /** The least distance left as recorded is right for the first end exactly when a trip that
      ends first is up to date. */
  lemma LeastLeftIsFirstEnd(trips: seq<Trip>, acc: nat, r: int, x: int)
    requires Running(trips, acc) && Recorded(trips, acc) && IsLeastLeft(r, trips) && IsFirstEnd(x, trips)
    ensures r == x - acc <==> FirstIsUpToDate(trips, acc, x)
  {
    forall t | t in trips ensures Left(t) >= End(t) - acc && (Left(t) == End(t) - acc <==> t.thisTrip == t.onRestart + (acc - t.ongoingBatch)) {
    }
    var t :| t in trips && Left(t) == r;
    assert End(t) >= x;
  }

  lemma CreditIs(t: Trip, acc: nat)
    requires t.ongoingBatch <= acc < End(t) && t.onRestart <= t.distance < WRAP
    ensures Credit(t, acc) == t.onRestart + (acc - t.ongoingBatch) && End(Rebased(t, acc)) == End(t) - acc
  {
  }

  /** A restart moves all ends back by the counter. */
  lemma RebasedEnds(trips: seq<Trip>, acc: nat, x: int)
    requires Running(trips, acc) && IsFirstEnd(x, trips)
    ensures Running(RebasedAll(trips, acc), 0) && IsFirstEnd(x - acc, RebasedAll(trips, acc))
  {
    var after := RebasedAll(trips, acc);
    forall s | s in after ensures s.ongoingBatch == 0 < End(s) && s.onRestart <= s.distance < WRAP && x - acc <= End(s) {
      var i :| 0 <= i < |after| && after[i] == s;
      assert trips[i] in trips;
      CreditIs(trips[i], acc);
    }
    var t :| t in trips && End(t) == x;
    var i :| 0 <= i < |trips| && trips[i] == t;
    CreditIs(t, acc);
    assert after[i] in after && End(after[i]) == x - acc;
  }

  /** After a re-plan the engine is aimed exactly when
      - it was restarted with a new distance, and a trip that ends first was up to date: the
        plan uses distances as last recorded, not what was travelled since;
      - or it was restarted for another interval alone, and the old distance, which it then
        runs in full once more, happens to be what the first trip has to go;
      - or it was not restarted, or refused to, and was aimed before. */
  lemma ReplanAimsExactly(m: Batch, acc: nat, ok: bool, x: int)
    requires m.trips != [] && Running(m.trips, acc) && Recorded(m.trips, acc) && IsFirstEnd(x, m.trips)
    ensures Aimed(Replanned(m, acc, ok)) <==>
      if !RestartPlan(m, acc).restart || !ok then m.engineDistance == x
      else if Shortens(m, acc) then FirstIsUpToDate(m.trips, acc, x)
      else m.ongoingDistance == x - acc
  {
    var m' := Replanned(m, acc, ok);
    forall t | t in m.trips ensures t.thisTrip < t.distance {}
    if RestartPlan(m, acc).restart && ok {
      PlanIs(m, acc);
      MinRemainingIsLeast(m.trips);
      LeastLeftIsFirstEnd(m.trips, acc, MinRemaining(m.trips, 0), x);
      RebasedEnds(m.trips, acc, x);
      assert m'.trips == RebasedAll(m.trips, acc);
      AimedExactly(m', 0, x - acc);
    } else {
      AimedExactly(m, acc, x);
    }
  }

  // ------------------------------------------------------------ after a stop

  lemma SafeIsRecorded(m: Batch)
    requires Safe(m)
    ensures Recorded(m.trips, Counter(m))
  {
    forall t | t in m.trips ensures t.thisTrip <= t.onRestart + (Counter(m) - t.ongoingBatch) {
      assert SafeTrip(m, t);
    }
  }

  /** Stopping one trip, at any time, leaves the engine aimed at the end of the next exactly
      under the conditions of the re-plan. */
  lemma StopAimsExactly(m: Batch, id: nat, ok: bool, x: int)
    requires Safe(m) && Has(m.trips, id)
    requires var rest := Less(m, id).trips; rest != [] && Running(rest, Counter(m)) && IsFirstEnd(x, rest)
    ensures var l, c := Less(m, id), Counter(m);
      Aimed(Stopped(m, id, ok)) <==>
      if !RestartPlan(l, c).restart || !ok then m.engineDistance == x
      else if Shortens(l, c) then FirstIsUpToDate(l.trips, c, x)
      else m.ongoingDistance == x - c
  {
    LessSafe(m, id);
    SafeIsRecorded(Less(m, id));
    ReplanAimsExactly(Less(m, id), Counter(m), ok, x);
  }

  const TWO_TRIPS := Batch([Trip(1, 0, 0, 0, 50, 10), Trip(2, 0, 0, 0, 100, 10)], 50, 10, false, false,
                           {1}, 20, 0, 50, 10, map[1 := 0, 2 := 0], [], NoFault)

  lemma TwoTripsTravelling()
    ensures var events := [Start(1, 50, 10, true, true)] + [Start(2, 100, 10, true, true)] + [Travel(20)];
      FairRun(events) && Run(events) == TWO_TRIPS
  {
    var e1, e2, e3 := Start(1, 50, 10, true, true), Start(2, 100, 10, true, true), Travel(20);
    var m1 := Step(IDLE, e1);
    ThreeEvents(e1, e2, e3);
    assert m1.trips == [Trip(1, 0, 0, 0, 50, 10)] && m1.trips[1..] == [];
    assert Step(m1, e2).trips == [Trip(1, 0, 0, 0, 50, 10), Trip(2, 0, 0, 0, 100, 10)];
  }

  lemma OneTripLeft()
    ensures Has(TWO_TRIPS.trips, 1)
    ensures var l := Less(TWO_TRIPS, 1);
      l == TWO_TRIPS.(trips := [Trip(2, 0, 0, 0, 100, 10)], intervalDropped := true, distanceDropped := true)
  {
    var trips := TWO_TRIPS.trips;
    assert trips[0].id == 1;
    assert IndexOf(trips, 1) == 0 && trips[..0] + trips[1..] == [Trip(2, 0, 0, 0, 100, 10)];
  }

  lemma OldDistanceIsTooFar()
    requires Has(TWO_TRIPS.trips, 1)
    ensures var m := Stopped(TWO_TRIPS, 1, true); m.engineDistance == 100 && !Aimed(m)
  {
    OneTripLeft();
    var l, t := Less(TWO_TRIPS, 1), Trip(2, 0, 20, 20, 100, 10);
    assert l.trips[1..] == [] && MinRemaining(l.trips, 0) == 100;
    var m := Replanned(l, 20, true);
    assert m.trips == [t] && m.engineDistance == 100;
    assert Countable(m.trips, 80) && t in m.trips && Complete(t, 80);
  }

  /** A fair run in which a stop misses: trip 2 has 80 of its 100 to go when trip 1 is
      stopped, but nothing was recorded since it started, and the engine gets 100. */
  lemma StopMissesNextEnd()
    ensures var events := [Start(1, 50, 10, true, true)] + [Start(2, 100, 10, true, true)] + [Travel(20)] + [Stop(1, true)];
      FairRun(events) && Run(events).engineDistance == 100 && !Aimed(Run(events))
  {
    var early := [Start(1, 50, 10, true, true)] + [Start(2, 100, 10, true, true)] + [Travel(20)];
    TwoTripsTravelling();
    OneTripLeft();
    OldDistanceIsTooFar();
    RunSnoc(early, Stop(1, true));
    assert (early + [Stop(1, true)])[..|early|] == early;
  }

  const TWO_PACES := Batch([Trip(1, 0, 0, 0, 100, 5), Trip(2, 0, 0, 0, 50, 10)], 50, 5, false, false,
                           {1}, 20, 0, 50, 5, map[1 := 0, 2 := 0], [], NoFault)

  lemma TwoPacesTravelling()
    ensures var events := [Start(1, 100, 5, true, true)] + [Start(2, 50, 10, true, true)] + [Travel(20)];
      FairRun(events) && Run(events) == TWO_PACES
  {
    var e1, e2, e3 := Start(1, 100, 5, true, true), Start(2, 50, 10, true, true), Travel(20);
    var m1 := Step(IDLE, e1);
    ThreeEvents(e1, e2, e3);
    assert m1.trips == [Trip(1, 0, 0, 0, 100, 5)] && m1.trips[1..] == [];
    assert Step(m1, e2).trips == [Trip(1, 0, 0, 0, 100, 5), Trip(2, 0, 0, 0, 50, 10)];
  }

  lemma FullDistanceIsTooFar()
    ensures Has(TWO_PACES.trips, 1)
    ensures var m := Stopped(TWO_PACES, 1, true); m.engineDistance == 50 && !Aimed(m)
  {
    assert TWO_PACES.trips[0].id == 1;
    var l, t := Less(TWO_PACES, 1), Trip(2, 0, 20, 20, 50, 10);
    assert l.trips == [Trip(2, 0, 0, 0, 50, 10)];
    assert l.trips[1..] == [] && MinRemaining(l.trips, 0) == 50 && MinInterval(l.trips, 0) == 10;
    var m := Replanned(l, 20, true);
    assert m.trips == [t] && m.engineDistance == 50;
    assert Countable(m.trips, 30) && t in m.trips && Complete(t, 30);
  }

  /** A fair run in which a restart for another interval alone misses: trip 2 has 30 of its 50
      to go when trip 1 is stopped, and the engine starts over with 50. */
  lemma IntervalRestartMissesNextEnd()
    ensures var events := [Start(1, 100, 5, true, true)] + [Start(2, 50, 10, true, true)] + [Travel(20)] + [Stop(1, true)];
      FairRun(events) && Run(events).engineDistance == 50 && !Aimed(Run(events))
  {
    var early := [Start(1, 100, 5, true, true)] + [Start(2, 50, 10, true, true)] + [Travel(20)];
    TwoPacesTravelling();
    FullDistanceIsTooFar();
    RunSnoc(early, Stop(1, true));
    assert (early + [Stop(1, true)])[..|early|] == early;
  }

  // ------------------------------------------------------------ after a report

  lemma SweptIsUpToDate(m: Batch, acc: nat)
    requires Safe(m) && InBatch(m, acc) && forall t :: t in m.trips ==> t.distance < WRAP
    ensures var trips := Swept(m, acc).trips;
      && Running(trips, acc) && Recorded(trips, acc)
      && forall t :: t in trips ==> t.thisTrip == t.onRestart + (acc - t.ongoingBatch)
  {
    UnfinishedOf(m.trips, acc);
    forall t | t in Swept(m, acc).trips
      ensures t.thisTrip == t.onRestart + (acc - t.ongoingBatch) && t.ongoingBatch <= acc < End(t) && t.onRestart <= t.distance < WRAP
    {
      var r :| r in m.trips && !Complete(r, acc) && t == Credited(r, acc);
      CreditDoesNotWrap(m, r, acc);
    }
  }

  /** A report that completes a trip records all others first; so a restart it leads to aims
      the engine exactly when it takes a new distance, or the old one happens to be right. */
  lemma ReportAimsExactly(m: Batch, acc: nat, x: int)
    requires Safe(m) && InBatch(m, acc) && forall t :: t in m.trips ==> t.distance < WRAP
    requires Finished(m.trips, acc) != [] && IsFirstEnd(x, Swept(m, acc).trips) && RestartPlan(Swept(m, acc), acc).restart
    ensures Aimed(Reported(m, acc, true)) <==> Shortens(Swept(m, acc), acc) || m.ongoingDistance == x - acc
  {
    SweptIsUpToDate(m, acc);
    ReplanAimsExactly(Swept(m, acc), acc, true, x);
  }

  /** In particular when it completes the trip the batch was planned for. */
  lemma ReportAimsAtNext(m: Batch, acc: nat)
    requires Safe(m) && InBatch(m, acc) && forall t :: t in m.trips ==> t.distance < WRAP
    requires Finished(m.trips, acc) != [] && Unfinished(m.trips, acc) != [] && Spent(Swept(m, acc), acc)
    ensures var m' := Reported(m, acc, true); Counter(m') == 0 && Aimed(m')
  {
    var s := Swept(m, acc);
    SweptIsUpToDate(m, acc);
    var x := MinRemaining(s.trips, 0) + acc;
    MinRemainingIsLeast(s.trips);
    assert IsFirstEnd(x, s.trips) by {
      var t :| t in s.trips && Left(t) == x - acc;
      assert End(t) == x;
      forall r | r in s.trips ensures x <= End(r) { assert x - acc <= Left(r); }
    }
    PlanIs(s, acc);
    ReportAimsExactly(m, acc, x);
  }

  // ------------------------------------------------------------ a trip that starts mid-batch

  lemma ResetEnds(trips: seq<Trip>, y: int)
    requires IsLeastLeft(y, trips) && forall t :: t in trips ==> t.thisTrip < t.distance < WRAP
    ensures Running(ResetAll(trips), 0) && IsFirstEnd(y, ResetAll(trips))
  {
    var after := ResetAll(trips);
    forall s | s in trips ensures Reset(s) in after && End(Reset(s)) == Left(s) { ResetHolds(trips, s); }
    forall r | r in after ensures exists s :: s in trips && r == Reset(s) {
      var i :| 0 <= i < |after| && after[i] == r;
      assert trips[i] in trips;
    }
    var first :| first in trips && Left(first) == y;
    assert End(Reset(first)) == y;
  }

  lemma LeastLeftWithNew(trips: seq<Trip>, t: Trip, y: int)
    requires Ascending(trips) && !Has(trips, t.id) && IsLeastLeft(y, trips)
    ensures IsLeastLeft(if Left(t) < y then Left(t) else y, Inserted(trips, t))
    ensures forall s :: s in Inserted(trips, t) <==> s == t || s in trips
  {
    forall s ensures s in Inserted(trips, t) <==> s == t || s in trips {
      InsertedHolds(trips, t, s);
      assert s in trips ==> s.id != t.id;
    }
    var first :| first in trips && Left(first) == y;
    assert first in Inserted(trips, t) && t in Inserted(trips, t);
  }

  /** What is left of the present batch, as the start of a session reckons. */
  function LeftOfBatch(m: Batch, queryOk: bool): nat {
    if queryOk then Sub32(m.ongoingDistance, Counter(m)) else m.ongoingDistance
  }

  /** A new session makes the engine restart exactly when it is shorter than what is left of the
      batch, or faster. */
  lemma StartRestartsExactly(m: Batch, id: nat, distance: nat, interval: nat, queryOk: bool, ok: bool)
    requires m.trips != []
    ensures var m' := Started(m, id, distance, interval, queryOk, ok);
      && StartPlan(m, distance, interval, queryOk).restart == (distance < LeftOfBatch(m, queryOk) || interval < m.ongoingInterval)
      && (m'.ongoingInterval == if interval < m.ongoingInterval then interval else m.ongoingInterval)
      && (m'.batchStart, m'.engineDistance, m'.engineInterval) ==
         if ok && (distance < LeftOfBatch(m, queryOk) || interval < m.ongoingInterval)
         then (m.odometer, m'.ongoingDistance, m'.ongoingInterval)
         else (m.batchStart, m.engineDistance, m.engineInterval)
  {
  }

  /** A restart for a new session aims the engine exactly when the distance it then runs with
      (its old one, if it refused; else the new session's, if shorter than what is left of the
      batch; else what is left) is the least recorded distance left, the new session's
      included unless the query before it failed. */
  lemma StartAimsExactly(m: Batch, id: nat, distance: nat, interval: nat, queryOk: bool, ok: bool, y: int)
    requires Ascending(m.trips) && !Has(m.trips, id) && m.trips != [] && 0 < distance < WRAP
    requires IsLeastLeft(y, m.trips) && forall t :: t in m.trips ==> t.thisTrip < t.distance < WRAP
    requires StartPlan(m, distance, interval, queryOk).restart
    ensures var left := LeftOfBatch(m, queryOk);
      Aimed(Started(m, id, distance, interval, queryOk, ok)) <==>
      (if !ok then m.engineDistance else if distance < left then distance else left) ==
      if queryOk && distance < y then distance else y
  {
    var t, w := Trip(id, Counter(m), 0, 0, distance, interval), WithNew(m, id, distance, interval, queryOk);
    var y' := if queryOk && distance < y then distance else y;
    if queryOk { LeastLeftWithNew(m.trips, t, y); }
    ResetEnds(w.trips, y');
    AimedExactly(Started(m, id, distance, interval, queryOk, ok), 0, y');
  }

  lemma UpToDateLeft(trips: seq<Trip>, now: nat, x: int)
    requires Running(trips, now) && IsFirstEnd(x, trips)
    requires forall t :: t in trips ==> t.thisTrip == t.onRestart + (now - t.ongoingBatch)
    ensures IsLeastLeft(x - now, trips) && now < x
    ensures forall t :: t in trips ==> t.thisTrip < t.distance < WRAP
  {
    forall t | t in trips ensures Left(t) == End(t) - now {}
    var first :| first in trips && End(first) == x;
    assert Left(first) == x - now;
  }

  /** So an aimed engine, with recorded distances up to date, stays aimed when a new trip starts,
      be it that the trip is shorter, or faster, or neither and nothing is restarted. */
  lemma StartKeepsAim(m: Batch, id: nat, distance: nat, interval: nat)
    requires Ascending(m.trips) && !Has(m.trips, id) && m.trips != [] && 0 < distance < WRAP
    requires Running(m.trips, Counter(m)) && forall t :: t in m.trips ==> t.thisTrip == t.onRestart + (Counter(m) - t.ongoingBatch)
    requires IsFirstEnd(m.ongoingDistance, m.trips) && m.engineDistance == m.ongoingDistance < WRAP
    ensures Aimed(Started(m, id, distance, interval, true, true))
  {
    var y := m.ongoingDistance - Counter(m);
    UpToDateLeft(m.trips, Counter(m), m.ongoingDistance);
    assert Sub32(m.ongoingDistance, Counter(m)) == y;
    if StartPlan(m, distance, interval, true).restart {
      StartAimsExactly(m, id, distance, interval, true, true, y);
    } else {
      LaterTripKeepsAim(m, id, distance, interval);
    }
  }

  /** A trip that joins without ending earlier leaves the first end where it is. */
  lemma LaterTripKeepsAim(m: Batch, id: nat, distance: nat, interval: nat)
    requires Ascending(m.trips) && !Has(m.trips, id) && m.trips != [] && 0 < distance < WRAP
    requires Running(m.trips, Counter(m)) && IsFirstEnd(m.ongoingDistance, m.trips) && m.engineDistance == m.ongoingDistance
    requires m.ongoingDistance <= Counter(m) + distance
    ensures Aimed(WithNew(m, id, distance, interval, true))
  {
    var t, w := Trip(id, Counter(m), 0, 0, distance, interval), WithNew(m, id, distance, interval, true);
    forall s ensures s in w.trips <==> s == t || s in m.trips {
      InsertedHolds(m.trips, t, s);
      assert s in m.trips ==> s.id != t.id;
    }
    var first :| first in m.trips && End(first) == m.ongoingDistance;
    assert first in w.trips;
    AimedExactly(w, Counter(m), m.ongoingDistance);
  }
}
