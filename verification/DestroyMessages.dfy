/** What the destroy handshake does besides running callbacks: which libraries are loaded, which
    clients are registered, and whom a removal message reaches. */
module DestroyMessages {
  import opened Common
  import opened DestroyHandshake

  /** The callbacks of a client that is created or updated want an adapter. */
  predicate WantedBy(e: Event, a: Adapter) {
    (e.Create? || e.Update?) && a in e.wants
  }

  /** How the first attempt to load an adapter went. */
  function FirstLoad(events: seq<Event>, a: Adapter): Option<bool> {
    if events == [] then None
    else
      var before, e := FirstLoad(events[..|events| - 1], a), events[|events| - 1];
      if before.None? && WantedBy(e, a) then Some(a in e.loads) else before
  }

  /** In every run an adapter is loaded, or given up, as its first attempt went, and not tried
      before it is wanted nor ever again. */
  lemma {:induction false} LoadedOnceExactly(events: seq<Event>, a: Adapter)
    requires OrderlyRun(events)
    ensures a in Run(events).loaded <==> FirstLoad(events, a).Some? && FirstLoad(events, a).value
    ensures a in Run(events).failed <==> FirstLoad(events, a).Some? && !FirstLoad(events, a).value
  {
    if events != [] {
      var before, e := events[..|events| - 1], events[|events| - 1];
      LoadedOnceExactly(before, a);
      StepLoads(Run(before), e, a);
    }
  }

  lemma StepLoads(s: State, e: Event, a: Adapter)
    requires Possible(s, e)
    ensures a in Step(s, e).loaded <==> a in s.loaded || (WantedBy(e, a) && a !in s.failed && a in e.loads)
    ensures a in Step(s, e).failed <==> a in s.failed || (WantedBy(e, a) && a !in s.loaded && a !in e.loads)
  {
  }

  /** Created or updated, and not destroyed since. */
  function Registered(events: seq<Event>, c: Client): bool {
    events != [] &&
      var before, e := Registered(events[..|events| - 1], c), events[|events| - 1];
      if (e.Create? || e.Update?) && e.client == c then true
      else if e.Destroy? && e.client == c then false
      else before
  }

  lemma {:induction false} RegisteredExactly(events: seq<Event>, c: Client)
    requires OrderlyRun(events)
    ensures c in Run(events).clients <==> Registered(events, c)
  {
    if events != [] {
      RegisteredExactly(events[..|events| - 1], c);
    }
  }

  /** The adapters that were loaded when the client was last destroyed while registered. */
  function Told(events: seq<Event>, c: Client): set<Adapter> {
    if events == [] then {}
    else
      var before, e := events[..|events| - 1], events[|events| - 1];
      if e.Destroy? && e.client == c && Registered(before, c)
      then set a: Adapter | FirstLoad(before, a).Some? && FirstLoad(before, a).value
      else Told(before, c)
  }

  lemma StepOnItsWay(s: State, e: Event, c: Client, a: Adapter)
    requires AllSane(s) && Possible(s, e)
    ensures OnItsWay(Step(s, e), c, a) <==>
      if e.Destroy? && e.client == c && c in s.clients then a in s.loaded
      else OnItsWay(s, c, a) && !(e.Complete? && s.pending[e.ticket] == (c, a))
  {
    var s' := Step(s, e);
    match e
    case Destroy(d, hasCallback) =>
      assert Sane(s, d) && Sane(s, c);
      if d in s.clients {
        OneToEach(s, d);
        assert OnItsWay(s', c, a) <==> OnItsWay(Queued(s, d, ADAPTERS), c, a);
      }
    case Complete(t) =>
      DeliveredOnce(s, t);
      assert OnItsWay(s', c, a) <==> OnItsWay(s.(pending := s.pending - {t}), c, a);
    case _ => assert OnItsWay(s', c, a) <==> OnItsWay(s, c, a);
  }

  /** In every run, with a callback or without, each adapter that was loaded when the client was
      destroyed has either confirmed the client's removal since or has its message on the way,
      and nobody else has one. */
  lemma {:induction false} ToldExactly(events: seq<Event>, c: Client, a: Adapter)
    requires OrderlyRun(events)
    ensures OnItsWay(Run(events), c, a) <==> a in Told(events, c) && a !in Heard(events, c)
  {
    if events != [] {
      var before, e := events[..|events| - 1], events[|events| - 1];
      ToldExactly(before, c, a);
      RunStaysSane(before);
      RegisteredExactly(before, c);
      LoadedOnceExactly(before, a);
      StepOnItsWay(Run(before), e, c, a);
      if e.Complete? && Run(before).pending[e.ticket] == (c, a) {
        assert OnItsWay(Run(before), c, a);
      }
    }
  }
}
