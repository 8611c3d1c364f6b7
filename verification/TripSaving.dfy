/** Whom a stop can reach.  A stop command wants a saved session, the stop for a leaving client
    wants a trip; this module says, over whole runs, which sessions are saved and which of them
    still have their trip. */
module TripSaving {
  import opened TripSessions
  import opened TripSafety
  import opened TripPlanning

  // ------------------------------------------------------------ one step

  /** The trip is over: a report finds it complete, or a stop reaches it. */
  predicate Ends(m: Batch, e: Event, id: nat) {
    match e
    case Report(acc, _) => exists t :: t in m.trips && t.id == id && Complete(t, acc)
    case Stop(i, _) => i == id && id in m.saved && Has(m.trips, id)
    case Leave(i, _) => i == id && id in m.saved && Has(m.trips, id)
    case _ => false
  }

  /** The trip starts, while none is running. */
  predicate StartsFirst(m: Batch, e: Event, id: nat) {
    e.Start? && e.id == id && m.trips == [] && e.ok
  }

  /** The trip starts next to a running one. */
  predicate StartsNext(m: Batch, e: Event, id: nat) {
    e.Start? && e.id == id && m.trips != [] && e.queryOk
  }

  predicate SameIds(a: seq<Trip>, b: seq<Trip>) {
    |a| == |b| && forall i :: 0 <= i < |a| ==> a[i].id == b[i].id
  }

  lemma SameIdsHold(a: seq<Trip>, b: seq<Trip>, id: nat)
    requires SameIds(a, b)
    ensures Has(a, id) <==> Has(b, id)
    ensures Ascending(a) <==> Ascending(b)
  {
  }

  lemma ReplannedHas(m: Batch, acc: nat, ok: bool, id: nat)
    ensures var m' := Replanned(m, acc, ok);
      (Has(m'.trips, id) <==> Has(m.trips, id)) && (Ascending(m'.trips) <==> Ascending(m.trips)) && m'.saved == m.saved
  {
    SameIdsHold(Replanned(m, acc, ok).trips, m.trips, id);
  }

  lemma SweptHas(m: Batch, acc: nat, id: nat)
    requires Ascending(m.trips)
    ensures Has(Swept(m, acc).trips, id) <==> Has(m.trips, id) && !exists t :: t in m.trips && t.id == id && Complete(t, acc)
    ensures Ascending(Swept(m, acc).trips)
  {
    UnfinishedAscending(m.trips, acc);
    UnfinishedOf(m.trips, acc);
    if Has(Swept(m, acc).trips, id) {
      var t :| t in Unfinished(m.trips, acc) && t.id == id;
      var s :| s in m.trips && !Complete(s, acc) && t == Credited(s, acc);
      assert Has(m.trips, id);
    }
    if i :| 0 <= i < |m.trips| && m.trips[i].id == id && !Complete(m.trips[i], acc) {
      assert Credited(m.trips[i], acc) in Swept(m, acc).trips;
    }
  }

  lemma StoppedHas(m: Batch, i: nat, ok: bool, id: nat)
    requires Ascending(m.trips) && Has(m.trips, i)
    ensures Has(Stopped(m, i, ok).trips, id) <==> Has(m.trips, id) && i != id
    ensures Ascending(Stopped(m, i, ok).trips) && Stopped(m, i, ok).saved == m.saved
  {
    LessHas(m, i, id);
    ReplannedHas(Less(m, i), Counter(m), ok, id);
  }

  lemma LessHas(m: Batch, i: nat, id: nat)
    requires Ascending(m.trips) && Has(m.trips, i)
    ensures Has(Less(m, i).trips, id) <==> Has(m.trips, id) && i != id
    ensures Ascending(Less(m, i).trips)
  {
    WithoutHas(m.trips, IndexOf(m.trips, i), id);
  }

  lemma WithoutHas(trips: seq<Trip>, k: nat, id: nat)
    requires Ascending(trips) && k < |trips|
    ensures var rest := trips[..k] + trips[k + 1..];
      Ascending(rest) && (Has(rest, id) <==> Has(trips, id) && trips[k].id != id)
  {
    var rest := trips[..k] + trips[k + 1..];
    assert forall j :: 0 <= j < |rest| ==> rest[j] == trips[if j < k then j else j + 1];
    if Has(trips, id) && trips[k].id != id {
      var j :| 0 <= j < |trips| && trips[j].id == id;
      assert rest[if j < k then j else j - 1] == trips[j];
    }
  }

  lemma StartedHas(m: Batch, i: nat, distance: nat, interval: nat, queryOk: bool, ok: bool, id: nat)
    requires Ascending(m.trips)
    ensures var m' := Started(m, i, distance, interval, queryOk, ok);
      && Ascending(m'.trips)
      && m'.saved == (if m.trips != [] then m.saved else if ok then m.saved + {i} else m.saved - {i})
      && (Has(m'.trips, id) <==> Has(m.trips, id) || (i == id && if m.trips == [] then ok else queryOk))
  {
    var m', w, t := Started(m, i, distance, interval, queryOk, ok), WithNew(m, i, distance, interval, queryOk),
                    Trip(i, Counter(m), 0, 0, distance, interval);
    if m.trips != [] {
      SameIdsHold(m'.trips, w.trips, id);
      if queryOk {
        InsertedAscending(m.trips, t);
        InsertedHas(m.trips, t, id);
      }
    } else if ok {
      assert m'.trips[0].id == i;
    }
  }

  lemma InsertedHas(trips: seq<Trip>, t: Trip, id: nat)
    requires Ascending(trips)
    ensures Has(Inserted(trips, t), id) <==> Has(trips, id) || t.id == id
  {
    var r := Inserted(trips, t);
    InsertedHolds(trips, t, t);
    if i :| 0 <= i < |trips| && trips[i].id == id && t.id != id {
      InsertedHolds(trips, t, trips[i]);
      assert trips[i] in r;
    }
    if i :| 0 <= i < |r| && r[i].id == id {
      InsertedHolds(trips, t, r[i]);
    }
  }

  /** What one event does to a trip and to its session's entry. */
  lemma StepKeepsSession(m: Batch, e: Event, id: nat)
    requires Ascending(m.trips) && m.fault.NoFault?
    ensures Ascending(Step(m, e).trips)
    ensures Has(Step(m, e).trips, id) <==> (Has(m.trips, id) && !Ends(m, e, id)) || StartsFirst(m, e, id) || StartsNext(m, e, id)
    ensures id in Step(m, e).saved <==>
      StartsFirst(m, e, id) || (id in m.saved && !(e.Stop? && e.id == id && !Has(m.trips, id))
                                && !(e.Start? && e.id == id && m.trips == []))
  {
    match e
    case Travel(_) =>
    case Start(i, distance, interval, queryOk, ok) => StartedHas(m, i, distance, interval, queryOk, ok, id);
    case Stop(i, ok) => StopHas(m, i, ok, id);
    case Leave(i, ok) => StopHas(m, i, ok, id);
    case Report(acc, ok) =>
      SweptHas(m, acc, id);
      ReplannedHas(Swept(m, acc), acc, ok, id);
  }

  lemma StopHas(m: Batch, i: nat, ok: bool, id: nat)
    requires Ascending(m.trips)
    ensures var s, l := StopAsked(m, i, ok), LeaverStopped(m, i, ok);
      && Ascending(s.trips) && Ascending(l.trips)
      && (Has(s.trips, id) <==> Has(m.trips, id) && !(i == id && id in m.saved))
      && (Has(l.trips, id) <==> Has(m.trips, id) && !(i == id && id in m.saved))
      && (id in s.saved <==> id in m.saved && !(i == id && !Has(m.trips, id))) && l.saved == m.saved
  {
    if i in m.saved && Has(m.trips, i) {
      StoppedHas(m, i, ok, id);
    } else if i in m.saved {
      assert StopAsked(m, i, ok).trips == LeaverStopped(m, i, ok).trips == m.trips;
    }
  }

  // ------------------------------------------------------------ whole runs

  /** The id was given to some start. */
  predicate Asked(events: seq<Event>, id: nat) {
    events != [] &&
      var init, e := events[..|events| - 1], events[|events| - 1];
      Asked(init, id) || (e.Start? && e.id == id)
  }

  /** No id is given to two starts. */
  predicate FreshIds(events: seq<Event>) {
    events != [] ==>
      var init, e := events[..|events| - 1], events[|events| - 1];
      FreshIds(init) && (e.Start? ==> !Asked(init, e.id))
  }

  /** The trip was started as the first of a batch. */
  predicate StartedFirst(events: seq<Event>, id: nat) {
    events != [] &&
      var init, e := events[..|events| - 1], events[|events| - 1];
      StartedFirst(init, id) || (Run(init).fault.NoFault? && StartsFirst(Run(init), e, id))
  }

  predicate StartedNext(events: seq<Event>, id: nat) {
    events != [] &&
      var init, e := events[..|events| - 1], events[|events| - 1];
      StartedNext(init, id) || (Run(init).fault.NoFault? && StartsNext(Run(init), e, id))
  }

  /** The trip was completed or stopped. */
  predicate Ended(events: seq<Event>, id: nat) {
    events != [] &&
      var init, e := events[..|events| - 1], events[|events| - 1];
      Ended(init, id) || (Run(init).fault.NoFault? && Ends(Run(init), e, id))
  }

  /** The session was stopped by command after its trip had ended. */
  predicate StoppedAfterEnd(events: seq<Event>, id: nat) {
    events != [] &&
      var init, e := events[..|events| - 1], events[|events| - 1];
      StoppedAfterEnd(init, id) || (Run(init).fault.NoFault? && e.Stop? && e.id == id && Ended(init, id))
  }

  /** In every run a trip runs from its start to its end, and a session is saved when its trip
      started first, until it is stopped by command after that trip has ended. */
  lemma {:induction false} SessionsOverRuns(events: seq<Event>, id: nat)
    requires FreshIds(events)
    ensures var m := Run(events);
      && Ascending(m.trips)
      && (Has(m.trips, id) <==> (StartedFirst(events, id) || StartedNext(events, id)) && !Ended(events, id))
      && (id in m.saved <==> StartedFirst(events, id) && !StoppedAfterEnd(events, id))
      && !(StartedFirst(events, id) && StartedNext(events, id))
      && (!Asked(events, id) ==> !StartedFirst(events, id) && !StartedNext(events, id) && !Ended(events, id) && !StoppedAfterEnd(events, id))
      && (Ended(events, id) || StoppedAfterEnd(events, id) ==> StartedFirst(events, id) || StartedNext(events, id))
  {
    if events != [] {
      var init, e := events[..|events| - 1], events[|events| - 1];
      SessionsOverRuns(init, id);
      if Run(init).fault.NoFault? {
        StepKeepsSession(Run(init), e, id);
        assert Ends(Run(init), e, id) ==> Has(Run(init).trips, id);
      }
    }
  }

  /** So a running trip is saved exactly when it was started first, and a saved session has its
      trip exactly when that has not ended. */
  lemma SavedExactly(events: seq<Event>, id: nat)
    requires FreshIds(events)
    ensures var m := Run(events);
      && (Has(m.trips, id) ==> (id in m.saved <==> StartedFirst(events, id)))
      && (id in m.saved ==> (Has(m.trips, id) <==> !Ended(events, id)))
  {
    SessionsOverRuns(events, id);
    AfterItsEnd(events, id);
  }

  lemma {:induction false} AfterItsEnd(events: seq<Event>, id: nat)
    ensures StoppedAfterEnd(events, id) ==> Ended(events, id)
  {
    if events != [] { AfterItsEnd(events[..|events| - 1], id); }
  }

  // ------------------------------------------------------------ stop commands

  /** A stop command takes a running trip out exactly when the trip was started first. */
  lemma StopServedExactly(events: seq<Event>, id: nat, ok: bool)
    requires FreshIds(events) && Run(events).fault.NoFault? && Has(Run(events).trips, id)
    ensures !Has(Run(events + [Stop(id, ok)]).trips, id) <==> StartedFirst(events, id)
  {
    SavedExactly(events, id);
    SessionsOverRuns(events, id);
    RunSnoc(events, Stop(id, ok));
    StepKeepsSession(Run(events), Stop(id, ok), id);
  }

  lemma FreshSnoc(events: seq<Event>, e: Event)
    requires FreshIds(events) && (e.Start? ==> !Asked(events, e.id))
    ensures FreshIds(events + [e])
    ensures forall id :: Asked(events + [e], id) <==> Asked(events, id) || (e.Start? && e.id == id)
  {
    assert (events + [e])[..|events|] == events;
  }

  /** A run in which the stop of a trip that was started next to another one changes nothing. */
  lemma SecondTripCannotBeStopped()
    ensures var events := [Start(1, 50, 10, true, true)] + [Start(2, 100, 10, true, true)] + [Travel(20)];
      && FairRun(events) && FreshIds(events) && Has(Run(events).trips, 2)
      && Run(events + [Stop(2, true)]) == Run(events)
  {
    var e1, e2, e3 := Start(1, 50, 10, true, true), Start(2, 100, 10, true, true), Travel(20);
    TwoStartsFresh(e1, e2, e3);
    TwoTripsTravelling();
    assert TWO_TRIPS.trips[1].id == 2;
    RunSnoc([e1] + [e2] + [e3], Stop(2, true));
  }

  // ------------------------------------------------------------ clients that leave

  /** No client leaves with a saved session whose trip has ended. */
  predicate LeavesInTime(events: seq<Event>) {
    events != [] ==>
      var init, e := events[..|events| - 1], events[|events| - 1];
      LeavesInTime(init) && (e.Leave? && e.id in Run(init).saved ==> !Ended(init, e.id))
  }

  /** The adapter never reads past the end of its table exactly in those runs. */
  lemma {:induction false} FaultsExactly(events: seq<Event>)
    requires FreshIds(events)
    ensures Run(events).fault.NoFault? <==> LeavesInTime(events)
  {
    if events != [] {
      var init, e := events[..|events| - 1], events[|events| - 1];
      FaultsExactly(init);
      if e.Leave? { SavedExactly(init, e.id); }
    }
  }

  const FIRST_DONE := Batch([], 0, 0, true, true, {1}, 100, 0, 100, 10, map[1 := 0], [Completion(1, 100, 100)], NoFault)

  lemma FirstTripDone()
    ensures var events := [Start(1, 100, 10, true, true)] + [Travel(100)] + [Report(100, true)];
      FairRun(events) && Run(events) == FIRST_DONE
  {
    var e1, e2, e3 := Start(1, 100, 10, true, true), Travel(100), Report(100, true);
    ThreeEvents(e1, e2, e3);
    var m2 := Step(Step(IDLE, e1), e2);
    assert m2.trips == [Trip(1, 0, 0, 0, 100, 10)] && m2.trips[1..] == [];
    assert Finished(m2.trips, 100) == [Trip(1, 0, 100, 0, 100, 10)];
    assert Completions(m2, Finished(m2.trips, 100)) == [Completion(1, 100, 100)];
    var s := Swept(m2, 100);
    assert s.trips == [] && s.intervalDropped && s.distanceDropped && s.done == [Completion(1, 100, 100)];
  }

  const NEXT_TRIP := Batch([Trip(2, 0, 0, 0, 50, 10)], 50, 10, true, true,
                           {1, 2}, 100, 100, 50, 10, map[1 := 0, 2 := 100], [Completion(1, 100, 100)], NoFault)

  lemma NextTripRunning()
    ensures var events := [Start(1, 100, 10, true, true)] + [Travel(100)] + [Report(100, true)] + [Start(2, 50, 10, true, true)];
      FairRun(events) && FreshIds(events) && Run(events) == NEXT_TRIP
  {
    var e1, e2, e3, e4 := Start(1, 100, 10, true, true), Travel(100), Report(100, true), Start(2, 50, 10, true, true);
    var early := [e1] + [e2] + [e3];
    FirstTripDone();
    TwoStartsFresh(e1, e2, e3);
    FreshSnoc(early, e4);
    RunSnoc(early, e4);
    assert (early + [e4])[..|early|] == early;
  }

  lemma TwoStartsFresh(e1: Event, e2: Event, e3: Event)
    requires e1.Start? && !e3.Start? && (e2.Start? ==> e2.id != e1.id)
    ensures FreshIds([e1] + [e2] + [e3])
    ensures forall id :: Asked([e1] + [e2] + [e3], id) <==> id == e1.id || (e2.Start? && id == e2.id)
  {
    FreshSnoc([], e1);
    assert [] + [e1] == [e1];
    FreshSnoc([e1], e2);
    FreshSnoc([e1] + [e2], e3);
  }

  /** A fair run in which a client leaves after its trip was reported complete: the engine is
      told to stop the batch of the other client's trip, and then the adapter reads past the
      end of its table. */
  lemma LeaverFaults()
    ensures var events := [Start(1, 100, 10, true, true)] + [Travel(100)] + [Report(100, true)] + [Start(2, 50, 10, true, true)];
      && FairRun(events) && FreshIds(events) && Has(Run(events).trips, 2)
      && Run(events + [Leave(1, true)]).fault == PastEnd(true)
  {
    NextTripRunning();
    assert NEXT_TRIP.trips[0].id == 2;
    RunSnoc([Start(1, 100, 10, true, true)] + [Travel(100)] + [Report(100, true)] + [Start(2, 50, 10, true, true)], Leave(1, true));
  }
}
