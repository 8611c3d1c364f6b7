/** Several trips share one engine batch whose distance counter starts again at every engine
    restart.  Each session carries offsets against that counter; this module says what each
    step does to them, next to the distance that was really travelled. */
module TripSessions {

  /** Distances are unsigned 32-bit numbers in the adapter. */
  const WRAP: nat := 0x1_0000_0000

  function Sub32(a: nat, b: nat): nat { (a - b) % WRAP }

  function Add32(a: nat, b: nat): nat { (a + b) % WRAP }

  /** One session; the sessions are kept in ascending order of their ids. */
  datatype Trip = Trip(id: nat, ongoingBatch: nat, thisTrip: nat, onRestart: nat, distance: nat, interval: nat)

  /** A trip reported complete, with what it had really travelled since it started. */
  datatype Completion = Completion(id: nat, distance: nat, travelled: int)

  /** The adapter read past the end of its session table; before that the engine may have
      been told to stop the batch of another trip. */
  datatype Fault = NoFault | PastEnd(batchStopped: bool)

  /** The adapter's fields, then the engine and the history: the odometer, its reading when the
      engine batch last started, the distance and interval the engine was given then, the
      odometer's reading when each session started, and the reports made.  `saved` holds the ids saved as trip
      sessions, which decide whom a stop can reach. */
  datatype Batch = Batch(
    trips: seq<Trip>, ongoingDistance: nat, ongoingInterval: nat, intervalDropped: bool, distanceDropped: bool,
    saved: set<nat>, odometer: nat, batchStart: nat, engineDistance: nat, engineInterval: nat,
    startedAt: map<nat, nat>, done: seq<Completion>, fault: Fault)

  const IDLE := Batch([], 0, 0, false, false, {}, 0, 0, 0, 0, map[], [], NoFault)

  /** What the engine answers when asked for the accumulated distance. */
  function Counter(m: Batch): nat {
    if m.odometer < m.batchStart then 0 else m.odometer - m.batchStart
  }

  function Travelled(m: Batch, t: Trip): int {
    m.odometer - if t.id in m.startedAt then m.startedAt[t.id] else 0
  }

  /** The distance credited to a session when the counter stands at `acc`. */
  function Credit(t: Trip, acc: nat): nat {
    Add32(t.onRestart, Sub32(acc, t.ongoingBatch))
  }

  // ------------------------------------------------------------ session lists

  function Credited(t: Trip, acc: nat): Trip {
    t.(thisTrip := Credit(t, acc))
  }

  predicate Complete(t: Trip, acc: nat) {
    t.distance <= Credit(t, acc)
  }

  function Unfinished(trips: seq<Trip>, acc: nat): seq<Trip> {
    if trips == [] then []
    else if Complete(trips[0], acc) then Unfinished(trips[1..], acc)
    else [Credited(trips[0], acc)] + Unfinished(trips[1..], acc)
  }

  function Finished(trips: seq<Trip>, acc: nat): seq<Trip> {
    if trips == [] then []
    else if Complete(trips[0], acc) then [Credited(trips[0], acc)] + Finished(trips[1..], acc)
    else Finished(trips[1..], acc)
  }

  /** Offsets after the engine restarted with the counter at `acc`. */
  function Rebased(t: Trip, acc: nat): Trip {
    var c := Credit(t, acc);
    t.(thisTrip := c, ongoingBatch := 0, onRestart := c)
  }

  /** Offsets as the start of a new session resets them: from the last recorded distance. */
  function Reset(t: Trip): Trip {
    t.(ongoingBatch := 0, onRestart := t.thisTrip)
  }

  function RebasedAll(trips: seq<Trip>, acc: nat): seq<Trip> {
    seq(|trips|, i requires 0 <= i < |trips| => Rebased(trips[i], acc))
  }

  function ResetAll(trips: seq<Trip>): seq<Trip> {
    seq(|trips|, i requires 0 <= i < |trips| => Reset(trips[i]))
  }

  function Inserted(trips: seq<Trip>, t: Trip): seq<Trip> {
    if trips == [] || t.id < trips[0].id then [t] + trips
    else if t.id == trips[0].id then [t] + trips[1..]
    else [trips[0]] + Inserted(trips[1..], t)
  }

  predicate Ascending(trips: seq<Trip>) {
    forall i, j :: 0 <= i < j < |trips| ==> trips[i].id < trips[j].id
  }

  predicate Has(trips: seq<Trip>, id: nat) {
    exists i :: 0 <= i < |trips| && trips[i].id == id
  }

  /** The remaining-distance fold of a restart: zero stands for "none yet". */
  function MinRemaining(trips: seq<Trip>, least: nat): nat {
    if trips == [] then least else
    var remaining := Sub32(trips[0].distance, trips[0].thisTrip);
    MinRemaining(trips[1..], if least == 0 || least > remaining then remaining else least)
  }

  function MinInterval(trips: seq<Trip>, least: nat): nat {
    if trips == [] then least else
    MinInterval(trips[1..], if least == 0 || least > trips[0].interval then trips[0].interval else least)
  }

  predicate SomeInterval(trips: seq<Trip>, interval: nat) {
    exists t :: t in trips && t.interval == interval
  }

  predicate SomeDistance(trips: seq<Trip>, distance: nat) {
    exists t :: t in trips && t.distance == distance
  }

  // ------------------------------------------------------------ steps

  /** Which distance and interval the engine should run with, and whether that needs a restart. */
  datatype Plan = Plan(distance: nat, interval: nat, restart: bool)

  function RestartPlan(m: Batch, acc: nat): Plan {
    var minRemaining, minInterval := MinRemaining(m.trips, 0), MinInterval(m.trips, 0);
    var left := Sub32(m.ongoingDistance, acc);
    var shorter := if !m.distanceDropped && left != 0 then minRemaining < left else minRemaining != 0;
    var faster := minInterval < m.ongoingInterval || (minInterval != m.ongoingInterval && m.intervalDropped);
    Plan(if shorter then minRemaining else m.ongoingDistance,
         if faster then minInterval else m.ongoingInterval, shorter || faster)
  }

  /** Re-plan the batch after sessions left; `ok` is the engine's answer to a restart. */
  function Replanned(m: Batch, acc: nat, ok: bool): Batch {
    if m.trips == [] then m.(ongoingDistance := 0, ongoingInterval := 0) else
    var p := RestartPlan(m, acc);
    if p.restart && ok
    then m.(trips := RebasedAll(m.trips, acc), ongoingDistance := p.distance, ongoingInterval := p.interval,
            batchStart := m.odometer, engineDistance := p.distance, engineInterval := p.interval)
    else m
  }

  function Completions(m: Batch, finished: seq<Trip>): seq<Completion> {
    seq(|finished|, i requires 0 <= i < |finished| =>
      Completion(finished[i].id, finished[i].distance, Travelled(m, finished[i])))
  }

  /** A report credits every session and takes the complete ones out. */
  function Swept(m: Batch, acc: nat): Batch {
    var finished := Finished(m.trips, acc);
    m.(trips := Unfinished(m.trips, acc),
       intervalDropped := m.intervalDropped || SomeInterval(finished, m.ongoingInterval),
       distanceDropped := m.distanceDropped || SomeDistance(finished, m.ongoingDistance),
       done := m.done + Completions(m, finished))
  }

  function Reported(m: Batch, acc: nat, ok: bool): Batch {
    if Finished(m.trips, acc) == [] then Swept(m, acc) else Replanned(Swept(m, acc), acc, ok)
  }

  /** What starting a session next to running ones asks of the engine. */
  function StartPlan(m: Batch, distance: nat, interval: nat, queryOk: bool): Plan {
    var faster := m.ongoingInterval > interval;
    var left := if queryOk then Sub32(m.ongoingDistance, Counter(m)) else m.ongoingDistance;
    var shorter := distance < left;
    Plan(if shorter then distance else if faster then left else m.ongoingDistance,
         if faster then interval else m.ongoingInterval, shorter || faster)
  }

  /** Only the first session of a batch is saved, and forgotten again if the engine refuses. */
  function Started(m: Batch, id: nat, distance: nat, interval: nat, queryOk: bool, ok: bool): Batch {
    if m.trips == [] then
      if ok then m.(trips := [Trip(id, 0, 0, 0, distance, interval)],
                    ongoingDistance := distance, ongoingInterval := interval, saved := m.saved + {id},
                    batchStart := m.odometer, engineDistance := distance, engineInterval := interval,
                    startedAt := m.startedAt[id := m.odometer])
      else m.(saved := m.saved - {id})
    else
      var p := StartPlan(m, distance, interval, queryOk);
      var m' := if !queryOk then m else
        m.(trips := Inserted(m.trips, Trip(id, Counter(m), 0, 0, distance, interval)),
           startedAt := m.startedAt[id := m.odometer]);
      if p.restart
      then m'.(trips := ResetAll(m'.trips), ongoingDistance := p.distance, ongoingInterval := p.interval,
               batchStart := if ok then m.odometer else m.batchStart,
               engineDistance := if ok then p.distance else m.engineDistance,
               engineInterval := if ok then p.interval else m.engineInterval)
      else m'
  }

  function IndexOf(trips: seq<Trip>, id: nat): nat
    requires Has(trips, id)
    ensures IndexOf(trips, id) < |trips| && trips[IndexOf(trips, id)].id == id
  {
    if trips[0].id == id then 0 else
    assert forall i :: 0 < i < |trips| ==> trips[i] == trips[1..][i - 1];
    1 + IndexOf(trips[1..], id)
  }

  /** The batch less one session, whose interval or distance the engine may be running with. */
  function Less(m: Batch, id: nat): Batch
    requires Has(m.trips, id)
  {
    var i := IndexOf(m.trips, id);
    m.(trips := m.trips[..i] + m.trips[i + 1..],
       intervalDropped := m.intervalDropped || m.trips[i].interval == m.ongoingInterval,
       distanceDropped := m.distanceDropped || m.trips[i].distance == m.ongoingDistance)
  }

  function Stopped(m: Batch, id: nat, ok: bool): Batch
    requires Has(m.trips, id)
  {
    Replanned(Less(m, id), Counter(m), ok)
  }

  /** A stop command: refused for an id that is not saved, and handled as for any other batching
      session, which is forgotten, when its trip is gone. */
  function StopAsked(m: Batch, id: nat, ok: bool): Batch {
    if id !in m.saved then m
    else if Has(m.trips, id) then Stopped(m, id, ok)
    else m.(saved := m.saved - {id})
  }

  /** A leaving client's saved session is stopped as a trip, although its trip may be gone; with
      one trip running the engine has then been told to stop already. */
  function LeaverStopped(m: Batch, id: nat, ok: bool): Batch {
    if id !in m.saved then m
    else if Has(m.trips, id) then Stopped(m, id, ok)
    else m.(fault := PastEnd(|m.trips| == 1 && ok))
  }

  /** `Leave` is the stop of one saved session of a client that leaves. */
  datatype Event =
    | Travel(d: nat)
    | Start(id: nat, distance: nat, interval: nat, queryOk: bool, ok: bool)
    | Stop(id: nat, ok: bool)
    | Leave(id: nat, ok: bool)
    | Report(acc: nat, ok: bool)

  /** Nothing is said of what comes after a fault. */
  function Step(m: Batch, e: Event): Batch {
    if m.fault.PastEnd? then m else
    match e
    case Travel(d) => m.(odometer := m.odometer + d)
    case Start(id, distance, interval, queryOk, ok) => Started(m, id, distance, interval, queryOk, ok)
    case Stop(id, ok) => StopAsked(m, id, ok)
    case Leave(id, ok) => LeaverStopped(m, id, ok)
    case Report(acc, ok) => Reported(m, acc, ok)
  }

  function Run(events: seq<Event>): Batch {
    if events == [] then IDLE else Step(Run(events[..|events| - 1]), events[|events| - 1])
  }

  // ------------------------------------------------------------ what is safe

  /** Offsets lie behind the counter, the recorded distance behind the credit and that behind
      the distance really travelled; a session with an offset has not seen a restart yet. */
  predicate SafeTrip(m: Batch, t: Trip) {
    && t.id in m.startedAt && m.startedAt[t.id] <= m.odometer
    && t.ongoingBatch <= Counter(m)
    && t.thisTrip <= t.onRestart + (Counter(m) - t.ongoingBatch) <= Travelled(m, t)
    && (t.ongoingBatch > 0 ==> t.onRestart == 0)
  }

  predicate Safe(m: Batch) {
    && m.batchStart <= m.odometer < WRAP
    && Ascending(m.trips)
    && (forall t :: t in m.trips ==> SafeTrip(m, t))
    && (forall c :: c in m.done ==> c.distance <= c.travelled)
  }

  /** A report counted within the present batch, after the youngest session's offset. */
  predicate InBatch(m: Batch, acc: nat) {
    acc <= Counter(m) && forall t :: t in m.trips ==> t.ongoingBatch <= acc
  }

  /** What makes starting a session safe: a restart of the engine that it asks for succeeds.
      If the engine refuses, its counter goes on while all offsets are taken back: a new
      session is then right only at counter zero, and without one (the query had failed) each
      running session needs a recorded distance that lies that far behind. */
  predicate StartIsSafe(m: Batch, distance: nat, interval: nat, queryOk: bool, ok: bool) {
    m.trips != [] && StartPlan(m, distance, interval, queryOk).restart && !ok ==>
      if queryOk then Counter(m) == 0
      else forall t :: t in m.trips ==> t.thisTrip + Counter(m) <= Travelled(m, t)
  }

  /** What the environment must respect: distances below 2^32, fresh session ids, reports of
      the present batch, and safe starts. */
  predicate Fair(m: Batch, e: Event) {
    match e
    case Travel(d) => m.odometer + d < WRAP
    case Start(id, distance, interval, queryOk, ok) =>
      id !in m.startedAt && StartIsSafe(m, distance, interval, queryOk, ok)
    case Stop(_, _) => true
    case Leave(_, _) => true
    case Report(acc, _) => InBatch(m, acc)
  }

  predicate FairRun(events: seq<Event>) {
    events != [] ==>
      var init := events[..|events| - 1];
      FairRun(init) && Fair(Run(init), events[|events| - 1])
  }

  lemma CreditDoesNotWrap(m: Batch, t: Trip, acc: nat)
    requires Safe(m) && SafeTrip(m, t) && t.ongoingBatch <= acc <= Counter(m)
    ensures Sub32(acc, t.ongoingBatch) == acc - t.ongoingBatch
    ensures Credit(t, acc) == t.onRestart + (acc - t.ongoingBatch) <= Travelled(m, t)
  {
  }

  lemma {:induction false} UnfinishedOf(trips: seq<Trip>, acc: nat)
    ensures forall t :: t in Unfinished(trips, acc) ==>
      exists s :: s in trips && !Complete(s, acc) && t == Credited(s, acc)
    ensures forall t :: t in Finished(trips, acc) ==>
      exists s :: s in trips && Complete(s, acc) && t == Credited(s, acc)
    ensures forall s :: s in trips ==>
      if Complete(s, acc) then Credited(s, acc) in Finished(trips, acc) else Credited(s, acc) in Unfinished(trips, acc)
  {
    if trips != [] {
      UnfinishedOf(trips[1..], acc);
      assert trips == [trips[0]] + trips[1..];
    }
  }

  lemma {:induction false} UnfinishedAscending(trips: seq<Trip>, acc: nat)
    requires Ascending(trips)
    ensures Ascending(Unfinished(trips, acc))
  {
    if trips != [] {
      var rest := Unfinished(trips[1..], acc);
      UnfinishedAscending(trips[1..], acc);
      UnfinishedOf(trips[1..], acc);
      forall t | t in rest ensures trips[0].id < t.id {
        var s :| s in trips[1..] && t == Credited(s, acc);
      }
    }
  }

  lemma {:induction false} InsertedHolds(trips: seq<Trip>, t: Trip, s: Trip)
    requires Ascending(trips)
    ensures s in Inserted(trips, t) <==> s == t || (s in trips && s.id != t.id)
  {
    if trips != [] {
      assert s in trips <==> s == trips[0] || s in trips[1..];
      assert forall r :: r in trips[1..] ==> trips[0].id < r.id;
      if t.id > trips[0].id { InsertedHolds(trips[1..], t, s); }
    }
  }

  lemma {:induction false} InsertedAscending(trips: seq<Trip>, t: Trip)
    requires Ascending(trips)
    ensures Ascending(Inserted(trips, t))
  {
    if trips != [] && t.id > trips[0].id {
      InsertedAscending(trips[1..], t);
      forall s | s in Inserted(trips[1..], t) ensures trips[0].id < s.id {
        InsertedHolds(trips[1..], t, s);
      }
    }
  }
}
