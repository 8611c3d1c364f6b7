/** The handshake by which a client object is destroyed: each adapter that is loaded has to
    confirm that it removed the client before the client's callback runs and the object is
    deleted.  Every event is one critical section or one message. */
module DestroyHandshake {
  import opened Common

  type Client = nat
  datatype Adapter = GNSS | BATCHING | GEOFENCE

  /** `loaded` and `failed` are the adapters whose libraries did and did not load; `waiting`
      holds the confirmations still missing; `pending` the removal messages on their way;
      `due` the callbacks about to run, outside the lock; `known` every client ever created. */
  datatype State = State(
    loaded: set<Adapter>, failed: set<Adapter>, clients: set<Client>, waiting: map<Client, set<Adapter>>,
    pending: map<nat, (Client, Adapter)>, next: nat, due: multiset<Client>,
    called: multiset<Client>, deleted: set<Client>, known: set<Client>)

  /** `wants` are the adapters the callbacks are for, `loads` those whose libraries load. */
  datatype Event =
    | Create(client: Client, wants: set<Adapter>, loads: set<Adapter>)
    | Update(client: Client, wants: set<Adapter>, loads: set<Adapter>)
    | Destroy(client: Client, hasCallback: bool)
    | Complete(ticket: nat)
    | Finish(client: Client)

  const START := State({}, {}, {}, map[], map[], 0, multiset{}, multiset{}, {}, {})

  /** An adapter is loaded when first wanted; a failed load is not tried again. */
  function Loaded(s: State, wants: set<Adapter>, loads: set<Adapter>): State {
    var tried := wants - s.loaded - s.failed;
    s.(loaded := s.loaded + tried * loads, failed := s.failed + (tried - loads))
  }

  function Queue(s: State, c: Client, a: Adapter): State {
    if a in s.loaded then s.(pending := s.pending[s.next := (c, a)], next := s.next + 1) else s
  }

  /** In turn to each adapter that is loaded. */
  function Queued(s: State, c: Client, adapters: seq<Adapter>): State {
    if adapters == [] then s
    else Queue(Queued(s, c, adapters[..|adapters| - 1]), c, adapters[|adapters| - 1])
  }

  const ADAPTERS := [GNSS, BATCHING, GEOFENCE]

  /** Only what is loaded and on its way already matters. */
  lemma {:induction false} QueuedAlike(s: State, r: State, c: Client, adapters: seq<Adapter>)
    requires r.loaded == s.loaded && r.pending == s.pending && r.next == s.next
    ensures var q, p := Queued(s, c, adapters), Queued(r, c, adapters);
      p == r.(pending := q.pending, next := q.next) && q == s.(pending := q.pending, next := q.next)
  {
    if adapters != [] {
      QueuedAlike(s, r, c, adapters[..|adapters| - 1]);
    }
  }

  function Destroyed(s: State, c: Client, hasCallback: bool): State {
    if c !in s.clients then s
    else
      var q := Queued(s, c, ADAPTERS);
      s.(pending := q.pending, next := q.next, clients := s.clients - {c},
         waiting := if hasCallback && s.loaded != {} then s.waiting[c := s.loaded] else s.waiting,
         due := if hasCallback && s.loaded == {} then s.due[c := s.due[c] + 1] else s.due)
  }

  function Confirmed(s: State, c: Client, a: Adapter): State {
    if c !in s.waiting then s
    else if s.waiting[c] - {a} == {} then s.(waiting := s.waiting - {c}, due := s.due[c := s.due[c] + 1])
    else s.(waiting := s.waiting[c := s.waiting[c] - {a}])
  }

  predicate Possible(s: State, e: Event) {
    match e
    case Complete(t) => t in s.pending
    case Finish(c) => c in s.due
    case _ => true
  }

  function Step(s: State, e: Event): State
    requires Possible(s, e)
  {
    match e
    case Create(c, wants, loads) => Loaded(s, wants, loads).(clients := s.clients + {c}, known := s.known + {c})
    case Update(c, wants, loads) => Loaded(s, wants, loads).(clients := s.clients + {c})
    case Destroy(c, hasCallback) => Destroyed(s, c, hasCallback)
    case Complete(t) => Confirmed(s.(pending := s.pending - {t}), s.pending[t].0, s.pending[t].1)
    case Finish(c) => s.(due := s.due[c := s.due[c] - 1], called := s.called[c := s.called[c] + 1], deleted := s.deleted + {c})
  }

  // ------------------------------------------------------------ what every step keeps

  ghost predicate OnItsWay(s: State, c: Client, a: Adapter) {
    exists t :: t in s.pending && s.pending[t] == (c, a)
  }

  /** How far the callback of a client is: expected, about to run, run. */
  function Stages(s: State, c: Client): nat {
    (if c in s.waiting then 1 else 0) + s.due[c] + s.called[c]
  }

  /** A client is created once, and its callbacks are updated only while it is registered or
      after everything that its destruction set off is over and had no callback. */
  ghost predicate Orderly(s: State, e: Event) {
    && (e.Create? ==> e.client !in s.known)
    && (e.Update? ==> e.client in s.clients || Quiet(s, e.client))
  }

  /** Nothing of the client is on its way, and no callback of it is expected, due or run. */
  ghost predicate Quiet(s: State, c: Client) {
    c in s.known && Stages(s, c) == 0 && forall a :: !OnItsWay(s, c, a)
  }

  ghost predicate Sane(s: State, c: Client) {
    && (c in s.clients ==> c in s.known)
    && (c in s.clients || c !in s.known ==> Stages(s, c) == 0 && forall a :: !OnItsWay(s, c, a))
    && Stages(s, c) <= 1
    && (c in s.waiting ==> s.waiting[c] != {} && forall a :: a in s.waiting[c] <==> OnItsWay(s, c, a))
    && (c in s.deleted <==> s.called[c] > 0)
  }

  ghost predicate OneMessageEach(s: State) {
    && (forall t :: t in s.pending ==> t < s.next)
    && (forall t, u :: t in s.pending && u in s.pending && t != u ==> s.pending[t] != s.pending[u])
  }

  ghost predicate AllSane(s: State) {
    OneMessageEach(s) && forall c :: Sane(s, c)
  }

  lemma QueueAdds(s: State, c: Client, a: Adapter)
    requires OneMessageEach(s) && !OnItsWay(s, c, a)
    ensures var q := Queue(s, c, a);
      && OneMessageEach(q)
      && (forall d, b :: OnItsWay(q, d, b) <==> OnItsWay(s, d, b) || (d == c && b == a && a in s.loaded))
  {
    var q := Queue(s, c, a);
    forall d, b ensures OnItsWay(q, d, b) <==> OnItsWay(s, d, b) || (d == c && b == a && a in s.loaded) {
      if OnItsWay(s, d, b) {
        var t :| t in s.pending && s.pending[t] == (d, b);
        assert t in q.pending && q.pending[t] == (d, b);
      }
      if d == c && b == a && a in s.loaded {
        assert s.next in q.pending && q.pending[s.next] == (c, a);
      }
    }
  }

  lemma {:induction false} QueuedAdds(s: State, c: Client, adapters: seq<Adapter>)
    requires OneMessageEach(s) && (forall a :: !OnItsWay(s, c, a))
    requires Distinct(adapters)
    ensures var q := Queued(s, c, adapters);
      && OneMessageEach(q)
      && (forall d, b :: OnItsWay(q, d, b) <==> OnItsWay(s, d, b) || (d == c && b in s.loaded && b in adapters))
  {
    if adapters != [] {
      var early, a := adapters[..|adapters| - 1], adapters[|adapters| - 1];
      QueuedAdds(s, c, early);
      QueuedAlike(s, s, c, early);
      assert adapters == early + [a];
      QueueAdds(Queued(s, c, early), c, a);
    }
  }

  /** A destroyed client has one message on its way to each loaded adapter. */
  lemma OneToEach(s: State, c: Client)
    requires OneMessageEach(s) && (forall a :: !OnItsWay(s, c, a))
    ensures var q := Queued(s, c, ADAPTERS);
      OneMessageEach(q) && (forall d, b :: OnItsWay(q, d, b) <==> OnItsWay(s, d, b) || (d == c && b in s.loaded))
  {
    QueuedAdds(s, c, ADAPTERS);
    forall b: Adapter ensures b in ADAPTERS {
      match b
      case GNSS => assert ADAPTERS[0] == b;
      case BATCHING => assert ADAPTERS[1] == b;
      case GEOFENCE => assert ADAPTERS[2] == b;
    }
  }

  /** A message that is delivered was the only one of its kind. */
  lemma DeliveredOnce(s: State, t: nat)
    requires OneMessageEach(s) && t in s.pending
    ensures var r := s.(pending := s.pending - {t});
      && OneMessageEach(r)
      && (forall d: Client, b :: OnItsWay(r, d, b) <==> OnItsWay(s, d, b) && (d, b) != s.pending[t])
  {
    var r := s.(pending := s.pending - {t});
    forall d: Client, b ensures OnItsWay(r, d, b) <==> OnItsWay(s, d, b) && (d, b) != s.pending[t] {
      if OnItsWay(s, d, b) && (d, b) != s.pending[t] {
        var u :| u in s.pending && s.pending[u] == (d, b);
        assert u in r.pending;
      }
    }
  }

  lemma DestroyKeepsSane(s: State, c: Client, hasCallback: bool)
    requires AllSane(s) && c in s.clients
    ensures AllSane(Destroyed(s, c, hasCallback))
  {
    var q, s' := Queued(s, c, ADAPTERS), Destroyed(s, c, hasCallback);
    assert Sane(s, c);
    OneToEach(s, c);
    assert forall d, b :: OnItsWay(s', d, b) <==> OnItsWay(q, d, b);
    forall d ensures Sane(s', d) {
      assert Sane(s, d);
    }
  }

  lemma CompleteKeepsSane(s: State, t: nat)
    requires AllSane(s) && t in s.pending
    ensures AllSane(Step(s, Complete(t)))
  {
    var (c, a) := s.pending[t];
    var r, s' := s.(pending := s.pending - {t}), Step(s, Complete(t));
    DeliveredOnce(s, t);
    assert forall d, b :: OnItsWay(s', d, b) <==> OnItsWay(r, d, b);
    assert Sane(s, c);
    forall d ensures Sane(s', d) {
      assert Sane(s, d);
    }
  }

  lemma StepKeepsSane(s: State, e: Event)
    requires AllSane(s) && Possible(s, e) && Orderly(s, e)
    ensures AllSane(Step(s, e))
  {
    match e
    case Destroy(c, hasCallback) => if c in s.clients { DestroyKeepsSane(s, c, hasCallback); }
    case Complete(t) => CompleteKeepsSane(s, t);
    case _ =>
      var s' := Step(s, e);
      assert forall d, b :: OnItsWay(s', d, b) <==> OnItsWay(s, d, b);
      forall d ensures Sane(s', d) {
        assert Sane(s, d);
      }
  }

  /** Updating callbacks keeps the handshake sane exactly when it is orderly; after a destroy
      that means: only once its messages are delivered and if it had no callback. */
  lemma UpdateExactly(s: State, c: Client, wants: set<Adapter>, loads: set<Adapter>)
    requires AllSane(s)
    ensures AllSane(Step(s, Update(c, wants, loads))) <==> c in s.clients || Quiet(s, c)
  {
    var s' := Step(s, Update(c, wants, loads));
    if c in s.clients || Quiet(s, c) {
      StepKeepsSane(s, Update(c, wants, loads));
    } else {
      assert forall d, b :: OnItsWay(s', d, b) <==> OnItsWay(s, d, b);
      assert !Sane(s', c);
    }
  }

  // ------------------------------------------------------------ runs

  ghost predicate OrderlyRun(events: seq<Event>)
    decreases |events|, 0
  {
    events == [] ||
      var before, e := events[..|events| - 1], events[|events| - 1];
      OrderlyRun(before) && Possible(Run(before), e) && Orderly(Run(before), e)
  }

  ghost function Run(events: seq<Event>): State
    requires OrderlyRun(events)
    decreases |events|, 1
  {
    if events == [] then START else Step(Run(events[..|events| - 1]), events[|events| - 1])
  }

  lemma {:induction false} RunStaysSane(events: seq<Event>)
    requires OrderlyRun(events)
    ensures AllSane(Run(events))
  {
    if events != [] {
      RunStaysSane(events[..|events| - 1]);
      StepKeepsSane(Run(events[..|events| - 1]), events[|events| - 1]);
    }
  }

  /** The adapters that were loaded when the client was destroyed with a callback. */
  ghost function Promise(events: seq<Event>, c: Client): Option<set<Adapter>>
    requires OrderlyRun(events)
  {
    if events == [] then None
    else
      var before, e := events[..|events| - 1], events[|events| - 1];
      Promised(Run(before), e, c, Promise(before, c))
  }

  /** The adapters that have confirmed that they removed the client since it was last destroyed. */
  ghost function Heard(events: seq<Event>, c: Client): set<Adapter>
    requires OrderlyRun(events)
  {
    if events == [] then {}
    else
      var before, e := events[..|events| - 1], events[|events| - 1];
      HeardNow(Run(before), e, c, Heard(before, c))
  }

  function Confirms(s: State, e: Event, c: Client): set<Adapter>
    requires Possible(s, e)
  {
    if e.Complete? && s.pending[e.ticket].0 == c then {s.pending[e.ticket].1} else {}
  }

  function HeardNow(s: State, e: Event, c: Client, heard: set<Adapter>): set<Adapter>
    requires Possible(s, e)
  {
    if e.Destroy? && e.client == c && c in s.clients then {} else heard + Confirms(s, e, c)
  }

  /** A promised callback is at exactly one stage, and what is not awaited any more has been
      heard; without a promise there is no callback. */
  ghost predicate Kept(s: State, c: Client, promise: Option<set<Adapter>>, heard: set<Adapter>) {
    match promise
    case None => Stages(s, c) == 0
    case Some(adapters) =>
      && Stages(s, c) == 1 && c in s.known && c !in s.clients
      && forall a :: a in adapters && a !in heard ==> c in s.waiting && a in s.waiting[c]
  }

  function Promised(s: State, e: Event, c: Client, promise: Option<set<Adapter>>): Option<set<Adapter>> {
    if e == Destroy(c, true) && c in s.clients then Some(s.loaded) else promise
  }

  lemma StepKeepsPromise(s: State, e: Event, c: Client, promise: Option<set<Adapter>>, heard: set<Adapter>)
    requires AllSane(s) && Possible(s, e) && Orderly(s, e) && Kept(s, c, promise, heard)
    ensures Kept(Step(s, e), c, Promised(s, e, c, promise), HeardNow(s, e, c, heard))
  {
    assert Sane(s, c);
    match e
    case Complete(t) =>
      assert c in s.waiting ==> OnItsWay(s, c, s.pending[t].1) || s.pending[t].0 != c;
    case _ =>
  }

  lemma {:induction false} PromiseKept(events: seq<Event>, c: Client)
    requires OrderlyRun(events)
    ensures Kept(Run(events), c, Promise(events, c), Heard(events, c))
  {
    if events != [] {
      var before := events[..|events| - 1];
      RunStaysSane(before);
      PromiseKept(before, c);
      StepKeepsPromise(Run(before), events[|events| - 1], c, Promise(before, c), Heard(before, c));
    }
  }

  /** In every run each callback runs at most once, and the object is deleted with it. */
  lemma CallbackAtMostOnce(events: seq<Event>, c: Client)
    requires OrderlyRun(events)
    ensures Run(events).called[c] <= 1 && (c in Run(events).deleted <==> Run(events).called[c] == 1)
  {
    RunStaysSane(events);
    assert Sane(Run(events), c);
  }

  /** It runs only for a client destroyed with a callback, and only after every adapter that
      was loaded then has confirmed. */
  lemma CallbackAfterAllAdapters(events: seq<Event>, c: Client)
    requires OrderlyRun(events) && c in Run(events).called
    ensures Promise(events, c).Some? && Promise(events, c).value <= Heard(events, c)
  {
    PromiseKept(events, c);
  }

  /** Once all messages are delivered and all callbacks that are due have run, exactly the
      promised callbacks have run. */
  lemma DrainedRunKeepsEveryPromise(events: seq<Event>, c: Client)
    requires OrderlyRun(events) && Run(events).pending == map[] && c !in Run(events).due
    ensures Promise(events, c).Some? <==> Run(events).called[c] == 1
  {
    PromiseKept(events, c);
    RunStaysSane(events);
    var s := Run(events);
    assert Sane(s, c);
    assert forall a :: !OnItsWay(s, c, a);
  }

  lemma OnlyOne(s: State, c: Client)
    requires s.loaded == {GNSS}
    ensures Queued(s, c, ADAPTERS) == Queue(s, c, GNSS)
  {
    assert ADAPTERS[..2] == [GNSS, BATCHING] && [GNSS, BATCHING][..1] == [GNSS] && [GNSS][..0] == [];
    assert Queued(s, c, [GNSS]) == Queue(s, c, GNSS);
    assert Queued(s, c, [GNSS, BATCHING]) == Queue(s, c, GNSS);
  }

  /** With callbacks updated after the client was destroyed, the second destroy takes the
      confirmation of the first for its own: the callback is due while a message of the
      client is still on its way. */
  lemma UpdateAfterDestroyIsEarly(c: Client)
    ensures
      var s1 := Step(START, Create(c, {GNSS}, {GNSS}));
      var s2 := Step(s1, Destroy(c, true));
      var s3 := Step(s2, Update(c, {GNSS}, {GNSS}));
      var s4 := Step(s3, Destroy(c, true));
      && !Orderly(s2, Update(c, {GNSS}, {GNSS}))
      && Possible(s4, Complete(0))
      && c in Step(s4, Complete(0)).due && OnItsWay(Step(s4, Complete(0)), c, GNSS)
  {
    var s1 := Step(START, Create(c, {GNSS}, {GNSS}));
    var s2 := Step(s1, Destroy(c, true));
    var s3 := Step(s2, Update(c, {GNSS}, {GNSS}));
    var s4 := Step(s3, Destroy(c, true));
    assert s1.loaded == {GNSS} && s3.loaded == {GNSS};
    OnlyOne(s1, c);
    OnlyOne(s3, c);
    assert s2.waiting == map[c := {GNSS}];
    assert s4.waiting == map[c := {GNSS}];
    assert Step(s4, Complete(0)).pending[1] == (c, GNSS);
  }
}
