/** No trip is reported complete before its distance was really travelled. */
module TripSafety {
  import opened TripSessions

  lemma TravelSafe(m: Batch, d: nat)
    requires Safe(m) && m.odometer + d < WRAP
    ensures Safe(m.(odometer := m.odometer + d))
  {
    var m' := m.(odometer := m.odometer + d);
    forall t | t in m'.trips ensures SafeTrip(m', t) {
      assert SafeTrip(m, t);
    }
  }

  lemma RebasedSafe(m: Batch, acc: nat, t: Trip)
    requires Safe(m) && SafeTrip(m, t) && t.ongoingBatch <= acc <= Counter(m)
    ensures SafeTrip(m.(batchStart := m.odometer), Rebased(t, acc))
  {
    CreditDoesNotWrap(m, t, acc);
  }

  lemma ReplannedSafe(m: Batch, acc: nat, ok: bool)
    requires Safe(m) && InBatch(m, acc)
    ensures Safe(Replanned(m, acc, ok))
  {
    var m' := Replanned(m, acc, ok);
    if m.trips != [] && RestartPlan(m, acc).restart && ok {
      forall t | t in m'.trips ensures SafeTrip(m', t) {
        var i :| 0 <= i < |m'.trips| && m'.trips[i] == t;
        assert m.trips[i] in m.trips;
        RebasedSafe(m, acc, m.trips[i]);
      }
    }
  }

  lemma SweepSafe(m: Batch, acc: nat)
    requires Safe(m) && InBatch(m, acc)
    ensures Safe(Swept(m, acc)) && InBatch(Swept(m, acc), acc)
  {
    var m' := Swept(m, acc);
    UnfinishedOf(m.trips, acc);
    UnfinishedAscending(m.trips, acc);
    forall t | t in m'.trips ensures SafeTrip(m', t) && t.ongoingBatch <= acc {
      var s :| s in m.trips && !Complete(s, acc) && t == Credited(s, acc);
      CreditDoesNotWrap(m, s, acc);
    }
    FinishedEarned(m, acc);
  }

  /** Every session that a report completes had really travelled its distance. */
  lemma FinishedEarned(m: Batch, acc: nat)
    requires Safe(m) && InBatch(m, acc)
    ensures forall c :: c in Completions(m, Finished(m.trips, acc)) ==> c.distance <= c.travelled
  {
    UnfinishedOf(m.trips, acc);
    forall c | c in Completions(m, Finished(m.trips, acc)) ensures c.distance <= c.travelled {
      var i :| 0 <= i < |Finished(m.trips, acc)| && c == Completions(m, Finished(m.trips, acc))[i];
      var t := Finished(m.trips, acc)[i];
      assert t in Finished(m.trips, acc);
      var s :| s in m.trips && Complete(s, acc) && t == Credited(s, acc);
      CreditDoesNotWrap(m, s, acc);
    }
  }

  lemma LessSafe(m: Batch, id: nat)
    requires Safe(m) && Has(m.trips, id)
    ensures Safe(Less(m, id)) && InBatch(Less(m, id), Counter(m))
  {
    var m' := Less(m, id);
    forall s | s in m'.trips ensures SafeTrip(m', s) && s.ongoingBatch <= Counter(m) {
      assert s in m.trips && SafeTrip(m, s);
    }
  }

  /** The sessions with a new one among them, before any restart. */
  function WithNew(m: Batch, id: nat, distance: nat, interval: nat, queryOk: bool): Batch {
    if !queryOk then m else
    m.(trips := Inserted(m.trips, Trip(id, Counter(m), 0, 0, distance, interval)),
       startedAt := m.startedAt[id := m.odometer])
  }

  lemma WithNewSafe(m: Batch, id: nat, distance: nat, interval: nat, queryOk: bool)
    requires Safe(m) && id !in m.startedAt
    ensures Safe(WithNew(m, id, distance, interval, queryOk))
  {
    var m' := WithNew(m, id, distance, interval, queryOk);
    if queryOk {
      InsertedAscending(m.trips, Trip(id, Counter(m), 0, 0, distance, interval));
      forall t | t in m'.trips ensures SafeTrip(m', t) {
        InsertedHolds(m.trips, Trip(id, Counter(m), 0, 0, distance, interval), t);
        if t in m.trips { assert SafeTrip(m, t); }
      }
    }
  }

  /** Taking all offsets back while the counter stands at `c` afterwards. */
  function ResetAt(m: Batch, b: nat): Batch {
    m.(trips := ResetAll(m.trips), batchStart := b)
  }

  /** That is safe exactly when each recorded distance lies `c` behind what was travelled. */
  lemma ResetSafeExactly(m: Batch, b: nat)
    requires Safe(m) && b <= m.odometer
    ensures var c := Counter(ResetAt(m, b));
      Safe(ResetAt(m, b)) <==> forall t :: t in m.trips ==> t.thisTrip + c <= Travelled(m, t)
  {
    var m' := ResetAt(m, b);
    var c := Counter(m');
    forall t | t in m.trips ensures SafeTrip(m', Reset(t)) <==> t.thisTrip + c <= Travelled(m, t) {
      assert SafeTrip(m, t);
    }
    if Safe(m') {
      forall t | t in m.trips ensures SafeTrip(m', Reset(t)) { ResetHolds(m.trips, t); }
    } else if forall t :: t in m.trips ==> t.thisTrip + c <= Travelled(m, t) {
      forall t | t in m'.trips ensures SafeTrip(m', t) {
        var i :| 0 <= i < |m.trips| && t == Reset(m.trips[i]);
        assert m.trips[i] in m.trips;
      }
      assert Ascending(m'.trips);
    }
  }

  lemma ResetHolds(trips: seq<Trip>, t: Trip)
    requires t in trips
    ensures Reset(t) in ResetAll(trips)
  {
    var i :| 0 <= i < |trips| && trips[i] == t;
    assert ResetAll(trips)[i] == Reset(t);
  }

  /** What a session that is started mid-batch leaves, as a reset of the joined sessions. */
  lemma StartedIsReset(m: Batch, id: nat, distance: nat, interval: nat, queryOk: bool, ok: bool)
    requires m.trips != []
    ensures var w, s := WithNew(m, id, distance, interval, queryOk), Started(m, id, distance, interval, queryOk, ok);
      if StartPlan(m, distance, interval, queryOk).restart
      then var r := ResetAt(w, if ok then m.odometer else m.batchStart);
        s == r.(ongoingDistance := s.ongoingDistance, ongoingInterval := s.ongoingInterval, engineDistance := s.engineDistance, engineInterval := s.engineInterval)
      else s == w
  {
  }

  lemma SafeIgnoresPlan(m: Batch, m': Batch)
    requires m' == m.(ongoingDistance := m'.ongoingDistance, ongoingInterval := m'.ongoingInterval, engineDistance := m'.engineDistance, engineInterval := m'.engineInterval)
    ensures Safe(m) <==> Safe(m')
  {
    assert forall t :: SafeTrip(m, t) <==> SafeTrip(m', t);
  }

  /** Starting a session leaves the books safe exactly when the start is safe, whether or not
      the distance query before it succeeded: after a refused restart a new session would be
      credited with what the batch had counted before it, and a running one twice with what
      was counted since the batch started. */
  lemma StartSafeExactly(m: Batch, id: nat, distance: nat, interval: nat, queryOk: bool, ok: bool)
    requires Safe(m) && id !in m.startedAt
    ensures Safe(Started(m, id, distance, interval, queryOk, ok)) <==> StartIsSafe(m, distance, interval, queryOk, ok)
  {
    if m.trips != [] {
      var w, b := WithNew(m, id, distance, interval, queryOk), if ok then m.odometer else m.batchStart;
      WithNewSafe(m, id, distance, interval, queryOk);
      StartedIsReset(m, id, distance, interval, queryOk, ok);
      if StartPlan(m, distance, interval, queryOk).restart {
        ResetSafeExactly(w, b);
        SafeIgnoresPlan(ResetAt(w, b), Started(m, id, distance, interval, queryOk, ok));
        assert Counter(ResetAt(w, b)) == if ok then 0 else Counter(m);
        JoinedLag(m, id, distance, interval, queryOk, if ok then 0 else Counter(m));
      }
    }
  }

  /** How far the recorded distances of the joined sessions may lie behind. */
  lemma JoinedLag(m: Batch, id: nat, distance: nat, interval: nat, queryOk: bool, c: nat)
    requires Safe(m) && id !in m.startedAt && (c == 0 || c == Counter(m))
    ensures var w := WithNew(m, id, distance, interval, queryOk);
      (forall t :: t in w.trips ==> t.thisTrip + c <= Travelled(w, t)) <==>
      if queryOk then c == 0 else forall t :: t in m.trips ==> t.thisTrip + c <= Travelled(m, t)
  {
    var w, added := WithNew(m, id, distance, interval, queryOk), Trip(id, Counter(m), 0, 0, distance, interval);
    if queryOk {
      forall t ensures t in w.trips <==> t in m.trips || t == added {
        InsertedHolds(m.trips, added, t);
        if t in m.trips { assert SafeTrip(m, t); }
      }
      assert added in w.trips && Travelled(w, added) == 0;
      forall t | t in m.trips ensures t.thisTrip <= Travelled(w, t) { assert SafeTrip(m, t); }
    }
  }

  /** Every step under fair conditions keeps offsets behind the counter, credits behind the
      distance travelled, and reports only trips that are done. */
  lemma StepSafe(m: Batch, e: Event)
    requires Safe(m) && Fair(m, e)
    ensures Safe(Step(m, e))
  {
    match e {
      case Travel(d) => TravelSafe(m, d);
      case Start(id, distance, interval, queryOk, ok) => StartSafeExactly(m, id, distance, interval, queryOk, ok);
      case Stop(id, ok) => StopSafe(m, id, ok);
      case Leave(id, ok) => StopSafe(m, id, ok);
      case Report(acc, ok) =>
        SweepSafe(m, acc);
        ReplannedSafe(Swept(m, acc), acc, ok);
    }
  }

  lemma StopSafe(m: Batch, id: nat, ok: bool)
    requires Safe(m)
    ensures Safe(StopAsked(m, id, ok)) && Safe(LeaverStopped(m, id, ok))
  {
    if Has(m.trips, id) {
      LessSafe(m, id);
      ReplannedSafe(Less(m, id), Counter(m), ok);
    } else {
      SafeIgnoresSaved(m, m.(saved := m.saved - {id}));
      SafeIgnoresSaved(m, m.(fault := PastEnd(|m.trips| == 1 && ok)));
    }
  }

  lemma SafeIgnoresSaved(m: Batch, m': Batch)
    requires m' == m.(saved := m'.saved, fault := m'.fault)
    ensures Safe(m) <==> Safe(m')
  {
    assert forall t :: SafeTrip(m, t) <==> SafeTrip(m', t);
  }

  /** No trip is ever reported complete early: in every fair run each reported trip had
      really travelled its distance, and the credited distance of each running session is
      computed without wrap-around and is at most what was travelled since it started. */
  lemma {:induction false} NeverEarly(events: seq<Event>)
    requires FairRun(events)
    ensures Safe(Run(events))
    ensures forall c :: c in Run(events).done ==> c.distance <= c.travelled
    ensures forall t :: t in Run(events).trips ==>
      var m := Run(events);
      Credit(t, Counter(m)) == t.onRestart + Counter(m) - t.ongoingBatch <= Travelled(m, t)
  {
    if events != [] {
      var init := events[..|events| - 1];
      NeverEarly(init);
      StepSafe(Run(init), events[|events| - 1]);
    }
    var m := Run(events);
    forall t | t in m.trips
      ensures Credit(t, Counter(m)) == t.onRestart + Counter(m) - t.ongoingBatch <= Travelled(m, t)
    {
      assert SafeTrip(m, t);
      CreditDoesNotWrap(m, t, Counter(m));
    }
  }

  // ------------------------------------------------------------ exact credits

  /** The credit is not just at most, but exactly what was travelled. */
  predicate Exact(m: Batch) {
    Safe(m) && forall t :: t in m.trips ==> t.onRestart + (Counter(m) - t.ongoingBatch) == Travelled(m, t)
  }

  /** Reports are not late, and a session that makes the engine restart finds the recorded
      distance of every running session up to date. */
  predicate Punctual(m: Batch, e: Event) {
    match e
    case Travel(_) => true
    case Start(id, distance, interval, queryOk, ok) =>
      m.trips != [] && StartPlan(m, distance, interval, queryOk).restart ==>
        forall t :: t in m.trips ==> t.thisTrip + (if ok then 0 else Counter(m)) == Travelled(m, t)
    case Stop(_, _) => true
    case Leave(_, _) => true
    case Report(acc, _) => acc == Counter(m)
  }

  // ------------------------------------------------------------ reports of another batch

  /** With exact credits, a report credits no session with more than it travelled exactly when
      it was counted in the present batch, after the youngest session's offset: below an
      offset the subtraction wraps, and beyond the counter, as with a report that was queued
      before the engine restarted, the credit runs ahead. */
  lemma ReportsInBatchExactly(m: Batch, acc: nat)
    requires Exact(m) && m.trips != [] && forall t :: t in m.trips ==> t.onRestart + acc < WRAP
    ensures (forall t :: t in m.trips ==> Credit(t, acc) <= Travelled(m, t)) <==> InBatch(m, acc)
  {
    forall t | t in m.trips ensures Credit(t, acc) <= Travelled(m, t) <==> t.ongoingBatch <= acc <= Counter(m) {
      assert SafeTrip(m, t);
      CreditFits(t, acc, Counter(m));
    }
    assert m.trips[0] in m.trips;
  }

  lemma CreditFits(t: Trip, acc: nat, c: nat)
    requires t.ongoingBatch <= c < WRAP && t.onRestart + acc < WRAP && (t.ongoingBatch > 0 ==> t.onRestart == 0)
    ensures Credit(t, acc) <= t.onRestart + (c - t.ongoingBatch) <==> t.ongoingBatch <= acc <= c
  {
    if t.ongoingBatch <= acc {
      assert Credit(t, acc) == t.onRestart + (acc - t.ongoingBatch);
    } else {
      assert Credit(t, acc) == acc - t.ongoingBatch + WRAP;
    }
  }

  lemma RunSnoc(events: seq<Event>, e: Event)
    ensures Run(events + [e]) == Step(Run(events), e)
  {
    assert (events + [e])[..|events|] == events;
  }

  /** What the two runs below have in common: a report that completes a session. */
  lemma CompletionReported(m: Batch, t: Trip, acc: nat, ok: bool)
    requires m.fault.NoFault? && t in m.trips && Complete(t, acc)
    ensures Completion(t.id, t.distance, Travelled(m, t)) in Step(m, Report(acc, ok)).done
  {
    UnfinishedOf(m.trips, acc);
    var finished := Finished(m.trips, acc);
    var i :| 0 <= i < |finished| && finished[i] == Credited(t, acc);
    assert Completions(m, finished)[i] == Completion(t.id, t.distance, Travelled(m, t));
    assert Swept(m, acc).done[|m.done| + i] == Completion(t.id, t.distance, Travelled(m, t));
  }

  /** A report of 10 that is handled after a second trip got its offset of 20 completes that
      trip of 80, which has travelled nothing.  The engine is here assumed to report at times
      before the distance it was given; nothing in the adapter rules that out. */
  lemma BelowOffsetIsEarly()
    ensures var events := [Start(1, 100, 10, true, true)] + [Travel(20)] + [Start(2, 80, 10, true, true)];
      && FairRun(events) && !InBatch(Run(events), 10)
      && Completion(2, 80, 0) in Run(events + [Report(10, true)]).done
  {
    var events := [Start(1, 100, 10, true, true)] + [Travel(20)] + [Start(2, 80, 10, true, true)];
    OffsetTaken();
    RunSnoc(events, Report(10, true));
    var t := Trip(2, 20, 0, 0, 80, 10);
    assert t == OFFSET_TAKEN.trips[1] && Travelled(OFFSET_TAKEN, t) == 0;
    OffsetWraps();
    CompletionReported(OFFSET_TAKEN, t, 10, true);
  }

  lemma OffsetWraps()
    ensures Complete(Trip(2, 20, 0, 0, 80, 10), 10)
  {
    assert Sub32(10, 20) == 10 - 20 + WRAP;
  }

  const OFFSET_TAKEN := Batch([Trip(1, 0, 0, 0, 100, 10), Trip(2, 20, 0, 0, 80, 10)], 100, 10, false, false,
                              {1}, 20, 0, 100, 10, map[1 := 0, 2 := 20], [], NoFault)

  lemma OffsetTaken()
    ensures var events := [Start(1, 100, 10, true, true)] + [Travel(20)] + [Start(2, 80, 10, true, true)];
      FairRun(events) && Run(events) == OFFSET_TAKEN
  {
    var e1, e2, e3 := Start(1, 100, 10, true, true), Travel(20), Start(2, 80, 10, true, true);
    var m2 := Step(Step(IDLE, e1), e2);
    ThreeEvents(e1, e2, e3);
    assert m2.trips == [Trip(1, 0, 0, 0, 100, 10)] && m2.trips[1..] == [];
    assert Step(m2, e3).trips == [Trip(1, 0, 0, 0, 100, 10), Trip(2, 20, 0, 0, 80, 10)];
  }

  /** The engine reports at the distance of 100 it was given, but before that report is handled
      a second, faster trip makes it restart: the report completes that trip of 80, which has
      travelled nothing. */
  lemma BeforeRestartIsEarly()
    ensures var events := [Start(1, 100, 10, true, true)] + [Travel(100)] + [Start(2, 80, 5, true, true)];
      && Counter(Run(events[..2])) == 100 == Run(events[..2]).engineDistance
      && FairRun(events) && !InBatch(Run(events), 100)
      && Completion(2, 80, 0) in Run(events + [Report(100, true)]).done
  {
    var e1, e2, e3 := Start(1, 100, 10, true, true), Travel(100), Start(2, 80, 5, true, true);
    var m2 := Step(Step(IDLE, e1), e2);
    ThreeEvents(e1, e2, e3);
    RunSnoc([e1] + [e2] + [e3], Report(100, true));
    assert ([e1] + [e2] + [e3])[..2] == [e1] + [e2];
    assert m2.trips == [Trip(1, 0, 0, 0, 100, 10)] && Counter(m2) == 100;
    var m := Step(m2, e3);
    assert m.trips == [Trip(1, 0, 0, 0, 100, 10), Trip(2, 0, 0, 0, 80, 5)] by {
      assert m2.trips[1..] == [];
    }
    CompletionReported(m, m.trips[1], 100, true);
  }

  lemma ThreeEvents(e1: Event, e2: Event, e3: Event)
    ensures Run([e1] + [e2] + [e3]) == Step(Step(Step(IDLE, e1), e2), e3)
    ensures Run([e1] + [e2]) == Step(Step(IDLE, e1), e2)
    ensures FairRun([e1] + [e2] + [e3]) <==>
      Fair(IDLE, e1) && Fair(Step(IDLE, e1), e2) && Fair(Step(Step(IDLE, e1), e2), e3)
  {
    assert [e1] == [] + [e1];
    assert ([] + [e1])[..0] == [] && ([e1] + [e2])[..1] == [e1] && ([e1] + [e2] + [e3])[..2] == [e1] + [e2];
    RunSnoc([], e1);
    RunSnoc([e1], e2);
    RunSnoc([e1] + [e2], e3);
    assert FairRun([e1]) <==> Fair(IDLE, e1);
    assert FairRun([e1] + [e2]) <==> Fair(IDLE, e1) && Fair(Step(IDLE, e1), e2);
  }

  // ------------------------------------------------------------ never late

  /** A mid-batch start that restarts the engine resumes each running session from the
      distance last recorded for it: whatever was credited since then is forgotten. */
  lemma StartRestartForgets(m: Batch, id: nat, distance: nat, interval: nat, queryOk: bool, t: Trip)
    requires Safe(m) && id !in m.startedAt && t in m.trips
    requires StartPlan(m, distance, interval, queryOk).restart
    ensures var m' := Started(m, id, distance, interval, queryOk, true);
      Reset(t) in m'.trips && Credit(Reset(t), Counter(m')) == t.thisTrip
  {
    var trips := WithNew(m, id, distance, interval, queryOk).trips;
    assert SafeTrip(m, t);
    InsertedHolds(m.trips, Trip(id, Counter(m), 0, 0, distance, interval), t);
    ResetHolds(trips, t);
  }

  /** Such a start keeps the credits exact exactly when all recorded distances were up to date. */
  lemma StartExactly(m: Batch, id: nat, distance: nat, interval: nat, queryOk: bool, ok: bool)
    requires Exact(m) && Fair(m, Start(id, distance, interval, queryOk, ok))
    ensures Exact(Started(m, id, distance, interval, queryOk, ok))
       <==> Punctual(m, Start(id, distance, interval, queryOk, ok))
  {
    var m' := Started(m, id, distance, interval, queryOk, ok);
    StartSafeExactly(m, id, distance, interval, queryOk, ok);
    if m.trips != [] {
      var w := WithNew(m, id, distance, interval, queryOk);
      var restart := StartPlan(m, distance, interval, queryOk).restart;
      var added := Trip(id, Counter(m), 0, 0, distance, interval);
      WithNewSafe(m, id, distance, interval, queryOk);
      forall t ensures t in w.trips <==> t in m.trips || (queryOk && t == added) {
        InsertedHolds(m.trips, added, t);
        if t in m.trips { assert SafeTrip(m, t); }
      }
      if restart {
        ResetExactly(w, m');
      }
    }
  }

  lemma ResetExactly(w: Batch, m': Batch)
    requires Safe(w) && m'.trips == ResetAll(w.trips) && m'.odometer == w.odometer && m'.startedAt == w.startedAt
    requires Safe(m')
    ensures Exact(m') <==> forall t :: t in w.trips ==> t.thisTrip + Counter(m') == Travelled(w, t)
  {
    if Exact(m') {
      forall t | t in w.trips ensures t.thisTrip + Counter(m') == Travelled(w, t) {
        var i :| 0 <= i < |w.trips| && w.trips[i] == t;
        assert m'.trips[i] == Reset(t) && m'.trips[i] in m'.trips;
      }
    }
    if forall t :: t in w.trips ==> t.thisTrip + Counter(m') == Travelled(w, t) {
      forall t | t in m'.trips ensures t.onRestart + (Counter(m') - t.ongoingBatch) == Travelled(m', t) {
        var i :| 0 <= i < |m'.trips| && m'.trips[i] == t;
        assert w.trips[i] in w.trips && t == Reset(w.trips[i]);
      }
    }
  }

  lemma ReplannedExact(m: Batch, ok: bool)
    requires Exact(m)
    ensures Exact(Replanned(m, Counter(m), ok))
  {
    var m' := Replanned(m, Counter(m), ok);
    forall t | t in m.trips ensures t.ongoingBatch <= Counter(m) { assert SafeTrip(m, t); }
    ReplannedSafe(m, Counter(m), ok);
    if m.trips != [] && RestartPlan(m, Counter(m)).restart && ok {
      forall t | t in m'.trips ensures t.onRestart + (Counter(m') - t.ongoingBatch) == Travelled(m', t) {
        var i :| 0 <= i < |m'.trips| && m'.trips[i] == t;
        var s := m.trips[i];
        assert s in m.trips && SafeTrip(m, s) && t == Rebased(s, Counter(m));
        CreditDoesNotWrap(m, s, Counter(m));
      }
    }
  }

  lemma LessExact(m: Batch, id: nat)
    requires Exact(m) && Has(m.trips, id)
    ensures Exact(Less(m, id))
  {
    LessSafe(m, id);
    forall s | s in Less(m, id).trips ensures s in m.trips {}
  }

  lemma SweepExact(m: Batch)
    requires Exact(m)
    ensures Exact(Swept(m, Counter(m)))
  {
    var acc := Counter(m);
    forall t | t in m.trips ensures t.ongoingBatch <= acc { assert SafeTrip(m, t); }
    SweepSafe(m, acc);
    UnfinishedOf(m.trips, acc);
    forall t | t in Swept(m, acc).trips ensures t.onRestart + (acc - t.ongoingBatch) == Travelled(m, t) {
      var s :| s in m.trips && !Complete(s, acc) && t == Credited(s, acc);
    }
  }

  lemma StopExact(m: Batch, id: nat, ok: bool)
    requires Exact(m)
    ensures Exact(StopAsked(m, id, ok)) && Exact(LeaverStopped(m, id, ok))
  {
    if Has(m.trips, id) {
      StoppedExact(m, id, ok);
    } else {
      ExactIgnoresSaved(m, m.saved - {id}, m.fault);
      ExactIgnoresSaved(m, m.saved, PastEnd(|m.trips| == 1 && ok));
    }
  }

  lemma StoppedExact(m: Batch, id: nat, ok: bool)
    requires Exact(m) && Has(m.trips, id)
    ensures Exact(Stopped(m, id, ok))
  {
    LessExact(m, id);
    ReplannedExact(Less(m, id), ok);
  }

  lemma ExactIgnoresSaved(m: Batch, saved: set<nat>, fault: Fault)
    requires Exact(m)
    ensures Exact(m.(saved := saved, fault := fault))
  {
    SafeIgnoresSaved(m, m.(saved := saved, fault := fault));
  }

  lemma ReportExact(m: Batch, ok: bool)
    requires Exact(m)
    ensures Exact(Reported(m, Counter(m), ok))
  {
    SweepExact(m);
    ReplannedExact(Swept(m, Counter(m)), ok);
  }

  lemma StepExact(m: Batch, e: Event)
    requires Exact(m) && Fair(m, e) && Punctual(m, e)
    ensures Exact(Step(m, e))
  {
    match e {
      case Travel(d) => TravelExact(m, d);
      case Start(id, distance, interval, queryOk, ok) => StartExactly(m, id, distance, interval, queryOk, ok);
      case Stop(id, ok) => StopExact(m, id, ok);
      case Leave(id, ok) => StopExact(m, id, ok);
      case Report(acc, ok) => ReportExact(m, ok);
    }
  }

  lemma TravelExact(m: Batch, d: nat)
    requires Exact(m) && m.odometer + d < WRAP
    ensures Exact(m.(odometer := m.odometer + d))
  {
    TravelSafe(m, d);
    forall t | t in m.trips ensures SafeTrip(m, t) {}
  }

  predicate PunctualRun(events: seq<Event>) {
    events != [] ==>
      var init := events[..|events| - 1];
      PunctualRun(init) && Fair(Run(init), events[|events| - 1]) && Punctual(Run(init), events[|events| - 1])
  }

  /** In punctual runs a report finds a trip complete exactly when its distance has been
      travelled: neither early nor late. */
  lemma {:induction false} NeitherEarlyNorLate(events: seq<Event>)
    requires PunctualRun(events)
    ensures Exact(Run(events))
    ensures var m := Run(events);
      forall t :: t in m.trips ==> (Complete(t, Counter(m)) <==> t.distance <= Travelled(m, t))
  {
    if events != [] {
      var init := events[..|events| - 1];
      NeitherEarlyNorLate(init);
      StepExact(Run(init), events[|events| - 1]);
    }
    var m := Run(events);
    forall t | t in m.trips ensures Complete(t, Counter(m)) <==> t.distance <= Travelled(m, t) {
      assert SafeTrip(m, t);
      CreditDoesNotWrap(m, t, Counter(m));
    }
  }
}
