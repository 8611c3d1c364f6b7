/** The trip multiplexer as an object.  Each method is one message with the engine callbacks
    it chains, run to completion; the engine's answers are parameters.  The last seven fields
    are the engine's side and the history. */
module BatchingAdapter {
  import opened TripSessions

  class BatchingAdapter {
    var mTripSessions: seq<Trip>
    var mOngoingTripDistance: nat
    var mOngoingTripTBFInterval: nat
    var mTripWithOngoingTBFDropped: bool
    var mTripWithOngoingTripDistanceDropped: bool
    /** The ids of the sessions saved in trip mode. */
    var mBatchingSessions: set<nat>

    var odometer: nat
    var batchStart: nat
    var engineDistance: nat
    var engineInterval: nat
    ghost var startedAt: map<nat, nat>
    ghost var done: seq<Completion>
    ghost var fault: Fault

    /** The abstract batch this object stands for. */
    ghost function Batch(): Batch
      reads this
    {
      TripSessions.Batch(mTripSessions, mOngoingTripDistance, mOngoingTripTBFInterval,
                         mTripWithOngoingTBFDropped, mTripWithOngoingTripDistanceDropped,
                         mBatchingSessions, odometer, batchStart, engineDistance, engineInterval, startedAt, done, fault)
    }

    constructor ()
      ensures Batch() == IDLE
    {
      mTripSessions, mOngoingTripDistance, mOngoingTripTBFInterval := [], 0, 0;
      mTripWithOngoingTBFDropped, mTripWithOngoingTripDistanceDropped := false, false;
      mBatchingSessions := {};
      odometer, batchStart, engineDistance, engineInterval, startedAt, done, fault := 0, 0, 0, 0, map[], [], NoFault;
    }

    /** The vehicle moves. */
    method Travel(d: nat)
      requires fault.NoFault?
      modifies this`odometer
      ensures Batch() == Step(old(Batch()), Event.Travel(d))
    {
      odometer := odometer + d;
    }

    function QueryAccumulatedTripDistance(): (distance: nat)
      reads this
      ensures distance == Counter(Batch())
    {
      if odometer < batchStart then 0 else odometer - batchStart
    }

    /** The engine is asked to restart; when it does, its counter starts again at zero. */
    method RestartEngine(distance: nat, interval: nat, ok: bool)
      modifies this`batchStart, this`engineDistance, this`engineInterval
      ensures batchStart == if ok then odometer else old(batchStart)
      ensures engineDistance == if ok then distance else old(engineDistance)
      ensures engineInterval == if ok then interval else old(engineInterval)
    {
      if ok { batchStart, engineDistance, engineInterval := odometer, distance, interval; }
    }

    method ReportCompletedTrips(mAccumulatedDistance: nat, restartOk: bool)
      requires fault.NoFault?
      modifies this
      ensures Batch() == Step(old(Batch()), Report(mAccumulatedDistance, restartOk))
    {
      var completed := SweepSessions(mAccumulatedDistance);
      if completed {
        RestartTripBatching(mAccumulatedDistance, restartOk);
      }
    }

    /** Credits every session; erases the complete ones under the iterator. */
    method SweepSessions(acc: nat) returns (completed: bool)
      modifies this`mTripSessions, this`mTripWithOngoingTBFDropped, this`mTripWithOngoingTripDistanceDropped, this`done
      ensures Batch() == Swept(old(Batch()), acc)
      ensures completed <==> Finished(old(mTripSessions), acc) != []
    {
      ghost var m := Batch();
      ghost var finished: seq<Trip> := [];
      var i := 0;
      completed := false;
      while i < |mTripSessions|
        invariant 0 <= i <= |mTripSessions|
        invariant (completed <==> finished != []) && done == m.done
        invariant mTripSessions[..i] + Unfinished(mTripSessions[i..], acc) == Unfinished(m.trips, acc)
        invariant finished + Finished(mTripSessions[i..], acc) == Finished(m.trips, acc)
        invariant mTripWithOngoingTBFDropped == (m.intervalDropped || SomeInterval(finished, m.ongoingInterval))
        invariant mTripWithOngoingTripDistanceDropped == (m.distanceDropped || SomeDistance(finished, m.ongoingDistance))
        decreases |mTripSessions| - i
      {
        SweepStep(mTripSessions, finished, acc, i);
        ghost var tripSession := Credited(mTripSessions[i], acc);
        var erased := SweepSession(acc, i);
        if erased {
          finished, completed := finished + [tripSession], true;
        } else {
          i := i + 1;
        }
      }
      assert mTripSessions[i..] == [] && mTripSessions[..i] == mTripSessions;
      assert finished == Finished(m.trips, acc);
      done := done + Completions(m, finished);
    }

    /** Credits one session, and erases it if it is complete. */
    method SweepSession(acc: nat, i: nat) returns (erased: bool)
      requires i < |mTripSessions|
      modifies this`mTripSessions, this`mTripWithOngoingTBFDropped, this`mTripWithOngoingTripDistanceDropped
      ensures erased <==> Complete(old(mTripSessions)[i], acc)
      ensures mTripSessions == if erased then old(mTripSessions)[..i] + old(mTripSessions)[i + 1..]
                               else old(mTripSessions)[i := Credited(old(mTripSessions)[i], acc)]
      ensures mTripWithOngoingTBFDropped ==
        (old(mTripWithOngoingTBFDropped) || (erased && old(mTripSessions)[i].interval == mOngoingTripTBFInterval))
      ensures mTripWithOngoingTripDistanceDropped ==
        (old(mTripWithOngoingTripDistanceDropped) || (erased && old(mTripSessions)[i].distance == mOngoingTripDistance))
    {
      var t := mTripSessions[i];
      t := t.(thisTrip := Add32(t.onRestart, Sub32(acc, t.ongoingBatch)));
      erased := t.distance <= t.thisTrip;
      if erased {
        mTripSessions := mTripSessions[..i] + mTripSessions[i + 1..];
        NoteDropped(t);
      } else {
        mTripSessions := mTripSessions[i := t];
      }
    }

    /** A session leaves whose interval or distance the engine may be running with. */
    method NoteDropped(t: Trip)
      modifies this`mTripWithOngoingTBFDropped, this`mTripWithOngoingTripDistanceDropped
      ensures mTripWithOngoingTBFDropped == (old(mTripWithOngoingTBFDropped) || t.interval == mOngoingTripTBFInterval)
      ensures mTripWithOngoingTripDistanceDropped == (old(mTripWithOngoingTripDistanceDropped) || t.distance == mOngoingTripDistance)
    {
      if t.interval == mOngoingTripTBFInterval {
        mTripWithOngoingTBFDropped := true;
      }
      if t.distance == mOngoingTripDistance {
        mTripWithOngoingTripDistanceDropped := true;
      }
    }

    /** Re-plans the batch once the query has been answered with `accumulatedDistance`. */
    method RestartTripBatching(accumulatedDistance: nat, restartOk: bool)
      modifies this`mTripSessions, this`mOngoingTripDistance, this`mOngoingTripTBFInterval, this`batchStart, this`engineDistance, this`engineInterval
      ensures Batch() == Replanned(old(Batch()), accumulatedDistance, restartOk)
    {
      if |mTripSessions| == 0 {
        mOngoingTripDistance, mOngoingTripTBFInterval := 0, 0;
        return;
      }
      var minRemainingDistance, minTBFInterval := Minima();
      var needsRestart := false;
      var ongoingTripDistance, ongoingTripInterval := mOngoingTripDistance, mOngoingTripTBFInterval;
      if !mTripWithOngoingTripDistanceDropped && Sub32(ongoingTripDistance, accumulatedDistance) != 0 {
        if minRemainingDistance < Sub32(ongoingTripDistance, accumulatedDistance) {
          ongoingTripDistance, needsRestart := minRemainingDistance, true;
        }
      } else if minRemainingDistance != 0 {
        ongoingTripDistance, needsRestart := minRemainingDistance, true;
      }
      if minTBFInterval < ongoingTripInterval
         || (minTBFInterval != ongoingTripInterval && mTripWithOngoingTBFDropped) {
        ongoingTripInterval, needsRestart := minTBFInterval, true;
      }
      if needsRestart {
        RestartEngine(ongoingTripDistance, ongoingTripInterval, restartOk);
        if restartOk {
          RebaseSessions(accumulatedDistance);
          mOngoingTripDistance, mOngoingTripTBFInterval := ongoingTripDistance, ongoingTripInterval;
        }
      }
    }

    method Minima() returns (minRemainingDistance: nat, minTBFInterval: nat)
      ensures minRemainingDistance == MinRemaining(mTripSessions, 0)
      ensures minTBFInterval == MinInterval(mTripSessions, 0)
    {
      minRemainingDistance, minTBFInterval := 0, 0;
      var i := 0;
      while i < |mTripSessions|
        invariant 0 <= i <= |mTripSessions|
        invariant MinRemaining(mTripSessions, 0) == MinRemaining(mTripSessions[i..], minRemainingDistance)
        invariant MinInterval(mTripSessions, 0) == MinInterval(mTripSessions[i..], minTBFInterval)
      {
        var t := mTripSessions[i];
        assert mTripSessions[i..][1..] == mTripSessions[i + 1..];
        if minRemainingDistance == 0 || minRemainingDistance > Sub32(t.distance, t.thisTrip) {
          minRemainingDistance := Sub32(t.distance, t.thisTrip);
        }
        if minTBFInterval == 0 || minTBFInterval > t.interval {
          minTBFInterval := t.interval;
        }
        i := i + 1;
      }
    }

    method RebaseSessions(acc: nat)
      modifies this`mTripSessions
      ensures mTripSessions == RebasedAll(old(mTripSessions), acc)
    {
      var i := 0;
      while i < |mTripSessions|
        invariant 0 <= i <= |mTripSessions| == |old(mTripSessions)|
        invariant forall k :: 0 <= k < i ==> mTripSessions[k] == Rebased(old(mTripSessions)[k], acc)
        invariant forall k :: i <= k < |mTripSessions| ==> mTripSessions[k] == old(mTripSessions)[k]
      {
        var t := mTripSessions[i];
        t := t.(thisTrip := Add32(t.onRestart, Sub32(acc, t.ongoingBatch)));
        t := t.(ongoingBatch := 0);
        t := t.(onRestart := t.thisTrip);
        mTripSessions := mTripSessions[i := t];
        i := i + 1;
      }
    }

    method ResetSessions()
      modifies this`mTripSessions
      ensures mTripSessions == ResetAll(old(mTripSessions))
    {
      var i := 0;
      while i < |mTripSessions|
        invariant 0 <= i <= |mTripSessions| == |old(mTripSessions)|
        invariant forall k :: 0 <= k < i ==> mTripSessions[k] == Reset(old(mTripSessions)[k])
        invariant forall k :: i <= k < |mTripSessions| ==> mTripSessions[k] == old(mTripSessions)[k]
      {
        var t := mTripSessions[i];
        mTripSessions := mTripSessions[i := t.(ongoingBatch := 0, onRestart := t.thisTrip)];
        i := i + 1;
      }
    }

    /** The first session of a batch is saved and entered before the engine is asked. */
    method StartFirstTrip(sessionId: nat, minDistance: nat, minInterval: nat, engineOk: bool)
      requires |mTripSessions| == 0
      modifies this
      ensures Batch() == Started(old(Batch()), sessionId, minDistance, minInterval, true, engineOk)
    {
      mBatchingSessions := mBatchingSessions + {sessionId};
      mTripSessions := [Trip(sessionId, 0, 0, 0, minDistance, minInterval)];
      RestartEngine(minDistance, minInterval, engineOk);
      if engineOk {
        mOngoingTripDistance, mOngoingTripTBFInterval := minDistance, minInterval;
        startedAt := startedAt[sessionId := odometer];
      } else {
        mBatchingSessions := mBatchingSessions - {sessionId};
        mTripSessions := [];
      }
    }

    method StartTripBatchingMultiplex(sessionId: nat, minDistance: nat, minInterval: nat, queryOk: bool, engineOk: bool)
      requires fault.NoFault?
      modifies this
      ensures Batch() == Step(old(Batch()), Start(sessionId, minDistance, minInterval, queryOk, engineOk))
    {
      if |mTripSessions| == 0 {
        StartFirstTrip(sessionId, minDistance, minInterval, engineOk);
        return;
      }
      var needsRestart := false;
      var ongoingTripDistance, ongoingTripInterval := mOngoingTripDistance, mOngoingTripTBFInterval;
      var accumulatedDistanceOngoingBatch := QueryAccumulatedTripDistance();
      if ongoingTripInterval > minInterval {
        ongoingTripInterval, needsRestart := minInterval, true;
      }
      if !queryOk {
        if minDistance < ongoingTripDistance {
          ongoingTripDistance, needsRestart := minDistance, true;
        }
      } else {
        var remaining := Sub32(ongoingTripDistance, accumulatedDistanceOngoingBatch);
        if minDistance < remaining {
          ongoingTripDistance, needsRestart := minDistance, true;
        } else if needsRestart {
          ongoingTripDistance := remaining;
        }
        mTripSessions := Inserted(mTripSessions,
          Trip(sessionId, accumulatedDistanceOngoingBatch, 0, 0, minDistance, minInterval));
        startedAt := startedAt[sessionId := odometer];
      }
      if needsRestart {
        mOngoingTripDistance, mOngoingTripTBFInterval := ongoingTripDistance, ongoingTripInterval;
        ResetSessions();
        RestartEngine(ongoingTripDistance, ongoingTripInterval, engineOk);
      }
    }

    /** A client's stop command: an id that is not saved is refused before anything is touched. */
    method StopBatchingCommand(sessionId: nat, ok: bool) returns (known: bool)
      requires fault.NoFault?
      modifies this
      ensures known <==> sessionId in old(mBatchingSessions)
      ensures Batch() == Step(old(Batch()), Stop(sessionId, ok))
    {
      known := sessionId in mBatchingSessions;
      if known {
        if Has(mTripSessions, sessionId) {
          var _ := StopTripBatchingMultiplex(sessionId, ok);
        } else {
          mBatchingSessions := mBatchingSessions - {sessionId};
        }
      }
    }

    /** One saved session of a client that leaves; nothing asks whether its trip is still there. */
    method StopClientSession(sessionId: nat, ok: bool) returns (failed: bool)
      requires fault.NoFault?
      modifies this
      ensures failed <==> sessionId in old(mBatchingSessions) && !Has(old(mTripSessions), sessionId)
      ensures Batch() == Step(old(Batch()), Leave(sessionId, ok))
    {
      failed := false;
      if sessionId in mBatchingSessions {
        failed := StopTripBatchingMultiplex(sessionId, ok);
      }
    }

    /** Stops a trip.  Without one for the id it reads past the end of the table, after the
        engine has been told to stop when one other trip is running.  `ok` is the engine's answer
        to a stop of the last trip, or to the restart that another one may need. */
    method StopTripBatchingMultiplex(sessionId: nat, ok: bool) returns (failed: bool)
      requires fault.NoFault?
      modifies this
      ensures failed <==> !Has(old(mTripSessions), sessionId)
      ensures !failed ==> Batch() == Stopped(old(Batch()), sessionId, ok)
      ensures failed ==> Batch() == old(Batch()).(fault := PastEnd(|old(mTripSessions)| == 1 && ok))
    {
      var batchStopped := |mTripSessions| == 1 && ok;
      failed := !Has(mTripSessions, sessionId);
      if failed {
        fault := PastEnd(batchStopped);
        return;
      }
      EraseSession(sessionId);
      if |mTripSessions| == 0 {
        mOngoingTripDistance, mOngoingTripTBFInterval := 0, 0;
      } else {
        var accumulatedDistance := QueryAccumulatedTripDistance();
        RestartTripBatching(accumulatedDistance, ok);
      }
    }

    method EraseSession(sessionId: nat)
      requires Has(mTripSessions, sessionId)
      modifies this`mTripSessions, this`mTripWithOngoingTBFDropped, this`mTripWithOngoingTripDistanceDropped
      ensures Batch() == Less(old(Batch()), sessionId)
    {
      var i := IndexOf(mTripSessions, sessionId);
      NoteDropped(mTripSessions[i]);
      mTripSessions := mTripSessions[..i] + mTripSessions[i + 1..];
    }
  }

  lemma SweepStep(trips: seq<Trip>, finished: seq<Trip>, acc: nat, i: nat)
    requires i < |trips|
    ensures var t, erased, credited := Credited(trips[i], acc), trips[..i] + trips[i + 1..], trips[i := Credited(trips[i], acc)];
      if Complete(trips[i], acc) then
        && erased[..i] + Unfinished(erased[i..], acc) == trips[..i] + Unfinished(trips[i..], acc)
        && (finished + [t]) + Finished(erased[i..], acc) == finished + Finished(trips[i..], acc)
      else
        && credited[..i + 1] + Unfinished(credited[i + 1..], acc) == trips[..i] + Unfinished(trips[i..], acc)
        && finished + Finished(credited[i + 1..], acc) == finished + Finished(trips[i..], acc)
  {
    assert trips[i..][1..] == trips[i + 1..];
    assert (trips[..i] + trips[i + 1..])[i..] == trips[i + 1..];
    assert trips[i := Credited(trips[i], acc)][i + 1..] == trips[i + 1..];
  }
}
