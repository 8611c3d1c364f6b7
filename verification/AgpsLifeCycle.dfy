/** The life of a subscriber in the list of one AGPS state machine, over whole runs. */
module AgpsLifeCycle {
  import opened Common
  import opened AgpsMachine

  /** Where one handle stands, read off the notes alone.  `Greeted` and `Told` are the
      moments between a callback and the list change that belongs to it. */
  datatype Phase = Out | Greeted | Waiting | Open | Leaving | Farewell | Bad

  function Next(p: Phase, n: Note): Phase {
    match n.kind
    case Joined => if p == Out then Waiting else if p == Greeted then Open else Bad
    case OpenOk =>
      if n.at != Acquired then Bad
      else if p == Out then Greeted else if p == Waiting then Open else Bad
    case Retired => if p == Waiting || p == Open || p == Leaving then Leaving else Bad
    case OpenFailed => if p == Waiting || p == Leaving then Farewell else Bad
    case Closed => if p == Waiting || p == Open || p == Leaving then Farewell else Bad
    case Left => if p == Farewell then Out else Bad
    case Dropped => if p == Waiting || p == Open || p == Leaving then Out else Bad
  }

  function PhaseFrom(p: Phase, notes: seq<Note>, h: int): Phase
    decreases notes
  {
    if notes == [] then p
    else PhaseFrom(if notes[0].handle == h then Next(p, notes[0]) else p, notes[1..], h)
  }

  function PhaseOf(m: Machine, h: int): Phase {
    PhaseFrom(Out, m.notes, h)
  }

  /** Where a handle should stand, read off the state and the list. */
  function Expected(state: State, subs: seq<Sub>, h: int): Phase {
    var s := Lookup(subs, h);
    if s == None then Out
    else if s.value.inactive then Leaving
    else if state == Acquired then Open
    else Waiting
  }

  ghost predicate Agrees(m: Machine) {
    forall h :: PhaseOf(m, h) == Expected(m.state, m.subs, h)
  }

  /** Handles are distinct, only those who wait for the close are inactive, and nobody is
      listed in RELEASED. */
  predicate ListInvariant(m: Machine) {
    && DistinctHandles(m.subs)
    && InactiveWait(m.subs)
    && (m.state == Released ==> m.subs == [])
  }

  /** Someone needs the connection in PENDING and ACQUIRED; someone waits for its end in RELEASING. */
  predicate Needed(m: Machine) {
    && (m.state == Pending || m.state == Acquired ==> AnyActive(m.subs))
    && (m.state == Releasing ==> AnyInactive(m.subs))
  }

  // ------------------------------------------------------------ notes

  lemma {:induction false} PhaseConcat(p: Phase, a: seq<Note>, b: seq<Note>, h: int)
    ensures PhaseFrom(p, a + b, h) == PhaseFrom(PhaseFrom(p, a, h), b, h)
    decreases a
  {
    if a == [] {
      assert a + b == b;
    } else {
      assert (a + b)[1..] == a[1..] + b;
      PhaseConcat(if a[0].handle == h then Next(p, a[0]) else p, a[1..], b, h);
    }
  }

  lemma {:induction false} BadForever(notes: seq<Note>, h: int)
    ensures PhaseFrom(Bad, notes, h) == Bad
  {
    if notes != [] { BadForever(notes[1..], h); }
  }

  function OneTelling(p: Phase, kind: Kind, drop: bool, h: int, at: State): Phase {
    var q := Next(p, Note(kind, h, at));
    if drop then Next(q, Note(Left, h, at)) else q
  }

  /** One pass of notifications reaches each concerned handle once and no other. */
  lemma {:induction false} PhaseTold(p: Phase, kind: Kind, drop: bool, w: Which, subs: seq<Sub>, at: State, h: int)
    requires DistinctHandles(subs)
    ensures var s := Lookup(subs, h);
      PhaseFrom(p, Told(kind, drop, w, subs, at), h)
      == if s.Some? && Concerns(w, s.value) then OneTelling(p, kind, drop, h, at) else p
    decreases subs
  {
    if subs != [] {
      var first := ToldOne(kind, drop, w, subs[0], at);
      PhaseToldOne(p, kind, drop, w, subs[0], at, h);
      PhaseConcat(p, first, Told(kind, drop, w, subs[1..], at), h);
      PhaseTold(PhaseFrom(p, first, h), kind, drop, w, subs[1..], at, h);
    }
  }

  lemma PhaseToldOne(p: Phase, kind: Kind, drop: bool, w: Which, s: Sub, at: State, h: int)
    ensures PhaseFrom(p, ToldOne(kind, drop, w, s, at), h)
      == if s.handle == h && Concerns(w, s) then OneTelling(p, kind, drop, h, at) else p
  {
    PhaseOne(p, Note(kind, s.handle, at), h);
    PhaseTwo(p, Note(kind, s.handle, at), Note(Left, s.handle, at), h);
  }

  lemma PhaseOne(p: Phase, n: Note, h: int)
    ensures PhaseFrom(p, [n], h) == if n.handle == h then Next(p, n) else p
  {
  }

  lemma PhaseTwo(p: Phase, n: Note, n': Note, h: int)
    requires n.handle == n'.handle
    ensures PhaseFrom(p, [n, n'], h) == if n.handle == h then Next(Next(p, n), n') else p
  {
    assert [n, n'][1..] == [n'];
    PhaseOne(if n.handle == h then Next(p, n) else p, n', h);
  }

  lemma {:induction false} PhaseDrops(p: Phase, subs: seq<Sub>, at: State, h: int)
    requires DistinctHandles(subs)
    ensures PhaseFrom(p, Drops(subs, at), h) == if Lookup(subs, h) == None then p else Next(p, Note(Dropped, h, at))
    decreases subs
  {
    if subs != [] {
      var first := Note(Dropped, subs[0].handle, at);
      PhaseOne(p, first, h);
      PhaseConcat(p, [first], Drops(subs[1..], at), h);
      PhaseDrops(PhaseFrom(p, [first], h), subs[1..], at, h);
    }
  }

  // ------------------------------------------------------------ the list

  lemma {:induction false} LookupHandle(subs: seq<Sub>, h: int)
    ensures Lookup(subs, h).Some? ==> Lookup(subs, h).value.handle == h
  {
    if subs != [] { LookupHandle(subs[1..], h); }
  }

  lemma {:induction false} KeptList(drop: bool, w: Which, subs: seq<Sub>, h: int)
    requires DistinctHandles(subs)
    ensures var s := Lookup(subs, h);
      Lookup(Kept(drop, w, subs), h) == if s.Some? && drop && Concerns(w, s.value) then None else s
    ensures DistinctHandles(Kept(drop, w, subs))
    ensures InactiveWait(subs) ==> InactiveWait(Kept(drop, w, subs))
    ensures !drop ==> Kept(drop, w, subs) == subs
    ensures drop && w == All ==> Kept(drop, w, subs) == []
    decreases subs
  {
    if subs != [] {
      Cons(subs[0], Kept(drop, w, subs[1..]));
      KeptList(drop, w, subs[1..], h);
      KeptList(drop, w, subs[1..], subs[0].handle);
      LookupHandle(subs[1..], h);
    }
  }

  lemma {:induction false} WithoutList(subs: seq<Sub>, h: int, k: int)
    requires DistinctHandles(subs)
    ensures Lookup(Without(subs, h), k) == if k == h then None else Lookup(subs, k)
    ensures DistinctHandles(Without(subs, h))
    ensures InactiveWait(subs) ==> InactiveWait(Without(subs, h))
    decreases subs
  {
    if subs != [] {
      Cons(subs[0], Without(subs[1..], h));
      WithoutList(subs[1..], h, k);
      WithoutList(subs[1..], h, subs[0].handle);
    }
  }

  lemma {:induction false} RetiredList(subs: seq<Sub>, h: int, k: int)
    requires DistinctHandles(subs)
    ensures var s := Lookup(subs, k);
      Lookup(RetiredSubs(subs, h), k) == if k == h && s.Some? then Some(s.value.(inactive := true)) else s
    ensures DistinctHandles(RetiredSubs(subs, h))
    ensures InactiveWait(subs) && (Lookup(subs, h).Some? ==> Lookup(subs, h).value.waits) ==> InactiveWait(RetiredSubs(subs, h))
    ensures Lookup(subs, h).Some? ==> AnyInactive(RetiredSubs(subs, h))
    decreases subs
  {
    if subs != [] {
      Cons(if subs[0].handle == h then subs[0].(inactive := true) else subs[0], RetiredSubs(subs[1..], h));
      RetiredList(subs[1..], h, k);
      RetiredList(subs[1..], h, subs[0].handle);
      NoSuchHandle(subs[1..], h);
    }
  }

  lemma {:induction false} NoSuchHandle(subs: seq<Sub>, h: int)
    ensures Lookup(subs, h) == None ==> RetiredSubs(subs, h) == subs && Without(subs, h) == subs
  {
    if subs != [] { NoSuchHandle(subs[1..], h); }
  }

  lemma {:induction false} AppendList(subs: seq<Sub>, s: Sub, k: int)
    requires DistinctHandles(subs) && Lookup(subs, s.handle) == None
    ensures Lookup(subs + [s], k) == if k == s.handle then Some(s) else Lookup(subs, k)
    ensures DistinctHandles(subs + [s])
    ensures InactiveWait(subs) && !s.inactive ==> InactiveWait(subs + [s])
    ensures AnyActive(subs + [s]) == (AnyActive(subs) || !s.inactive)
    ensures AnyInactive(subs + [s]) == (AnyInactive(subs) || s.inactive)
    decreases subs
  {
    if subs != [] {
      assert (subs + [s])[1..] == subs[1..] + [s];
      AppendList(subs[1..], s, k);
      AppendList(subs[1..], s, subs[0].handle);
    }
  }

  /** Taking an active handle out of a list of distinct handles leaves the inactive ones. */
  lemma {:induction false} WithoutKeepsInactive(subs: seq<Sub>, h: int)
    requires DistinctHandles(subs) && (Lookup(subs, h).Some? ==> !Lookup(subs, h).value.inactive)
    ensures AnyInactive(Without(subs, h)) == AnyInactive(subs)
  {
    if subs != [] {
      Cons(subs[0], Without(subs[1..], h));
      if subs[0].handle == h { NoSuchHandle(subs[1..], h); } else { WithoutKeepsInactive(subs[1..], h); }
    }
  }

  lemma {:induction false} SomeoneListed(subs: seq<Sub>)
    ensures subs != [] ==> AnyActive(subs) || AnyInactive(subs)
    ensures !AnyActive(subs) ==> forall h :: Lookup(subs, h).Some? ==> Lookup(subs, h).value.inactive
  {
    if subs != [] { SomeoneListed(subs[1..]); }
  }

  lemma {:induction false} OnlyActiveKept(subs: seq<Sub>, h: int)
    requires DistinctHandles(subs)
    ensures var s := Lookup(Kept(true, OnlyInactive, subs), h); s.Some? ==> !s.value.inactive
    ensures AnyActive(Kept(true, OnlyInactive, subs)) <==> Kept(true, OnlyInactive, subs) != []
  {
    if subs != [] {
      Cons(subs[0], Kept(true, OnlyInactive, subs[1..]));
      OnlyActiveKept(subs[1..], h);
    }
  }

  lemma WaitersOnly(subs: seq<Sub>, h: int)
    requires InactiveWait(subs)
    ensures var s := Lookup(subs, h); s.Some? && s.value.inactive ==> s.value.waits
  {
    if subs != [] { WaitersOnly(subs[1..], h); }
  }

  // ------------------------------------------------------------ one event

  predicate AgreesAt(m: Machine, h: int) {
    PhaseOf(m, h) == Expected(m.state, m.subs, h)
  }

  /** A live handle subscribes once more while the connection is up: the caller could have
      known, and the machine sends it a second open-success. */
  predicate ResubscribesWhileAcquired(m: Machine, e: Event) {
    e.Subscribe? && m.state == Acquired && Lookup(m.subs, e.handle).Some?
  }

  lemma JoinAgrees(m: Machine, s: Sub, h: int)
    requires DistinctHandles(m.subs) && !s.inactive
    requires Lookup(m.subs, s.handle) == None && m.state != Acquired && AgreesAt(m, h)
    ensures AgreesAt(Join(m, s), h)
  {
    AppendList(m.subs, s, h);
    PhaseOne(PhaseOf(m, h), Note(Joined, s.handle, m.state), h);
    PhaseConcat(Out, m.notes, [Note(Joined, s.handle, m.state)], h);
  }

  lemma GreetedJoinAgrees(m: Machine, s: Sub, h: int)
    requires DistinctHandles(m.subs) && !s.inactive
    requires Lookup(m.subs, s.handle) == None && m.state == Acquired && AgreesAt(m, h)
    ensures AgreesAt(Subscribed(m, s), h)
  {
    var ok, joined := Note(OpenOk, s.handle, m.state), Note(Joined, s.handle, m.state);
    AppendList(m.subs, s, h);
    PhaseOne(PhaseOf(m, h), ok, h);
    PhaseConcat(Out, m.notes, [ok], h);
    PhaseOne(PhaseFrom(Out, m.notes + [ok], h), joined, h);
    PhaseConcat(Out, m.notes + [ok], [joined], h);
  }

  lemma SubscribeAgrees(m: Machine, s: Sub, h: int)
    requires ListInvariant(m) && !s.inactive && AgreesAt(m, h)
    requires !(m.state == Acquired && Lookup(m.subs, s.handle).Some?)
    ensures AgreesAt(Subscribed(m, s), h)
  {
    if Lookup(m.subs, s.handle) == None {
      if m.state == Acquired { GreetedJoinAgrees(m, s, h); } else { JoinAgrees(m, s, h); }
    }
  }

  lemma StepAsideAgrees(m: Machine, s: Sub, h: int)
    requires DistinctHandles(m.subs) && AgreesAt(m, h) && Lookup(m.subs, s.handle) == Some(s)
    ensures AgreesAt(StepAside(m, s), h)
  {
    if s.waits {
      RetiredList(m.subs, s.handle, h);
      PhaseOne(PhaseOf(m, h), Note(Retired, s.handle, m.state), h);
      PhaseConcat(Out, m.notes, [Note(Retired, s.handle, m.state)], h);
    } else {
      WithoutList(m.subs, s.handle, h);
      var closed, left := Note(Closed, s.handle, m.state), Note(Left, s.handle, m.state);
      PhaseTwo(PhaseOf(m, h), closed, left, h);
      PhaseConcat(Out, m.notes, [closed, left], h);
    }
  }

  lemma UnsubscribeAgrees(m: Machine, s: Sub, h: int)
    requires ListInvariant(m) && AgreesAt(m, h) && Lookup(m.subs, s.handle) == Some(s)
    ensures AgreesAt(Unsubscribed(m, s), h)
  {
    StepAsideAgrees(m, s, h);
    SomeoneListed(StepAside(m, s).subs);
  }

  lemma NotifiedAllPhase(m: Machine, kind: Kind, drop: bool, w: Which, h: int)
    requires DistinctHandles(m.subs)
    ensures var s := Lookup(m.subs, h);
      PhaseOf(NotifiedAll(m, kind, drop, w), h)
      == if s.Some? && Concerns(w, s.value) then OneTelling(PhaseOf(m, h), kind, drop, h, m.state) else PhaseOf(m, h)
  {
    PhaseTold(PhaseOf(m, h), kind, drop, w, m.subs, m.state, h);
    PhaseConcat(Out, m.notes, Told(kind, drop, w, m.subs, m.state), h);
  }

  lemma GrantAgrees(m: Machine, h: int)
    requires ListInvariant(m) && AgreesAt(m, h)
    ensures AgreesAt(AfterGranted(m), h)
  {
    if m.state == Pending {
      NotifiedAllPhase(m.(state := Acquired), OpenOk, false, OnlyActive, h);
      KeptList(false, OnlyActive, m.subs, h);
    }
  }

  lemma EndAgrees(m: Machine, kind: Kind, h: int)
    requires ListInvariant(m) && AgreesAt(m, h)
    requires (kind == Closed && m.state == Acquired) || (kind == OpenFailed && m.state == Pending)
    ensures AgreesAt(NotifiedAll(m.(state := Released), kind, true, All), h)
  {
    NotifiedAllPhase(m.(state := Released), kind, true, All, h);
    KeptList(true, All, m.subs, h);
  }

  lemma ReopenAgrees(m: Machine, h: int)
    requires ListInvariant(m) && AgreesAt(m, h) && m.state == Releasing
    ensures AgreesAt(Reopened(m), h)
  {
    NotifiedAllPhase(m, Closed, true, OnlyInactive, h);
    KeptList(true, OnlyInactive, m.subs, h);
    OnlyActiveKept(m.subs, h);
  }

  lemma RestartAgrees(m: Machine, h: int)
    requires ListInvariant(m) && AgreesAt(m, h)
    ensures AgreesAt(AfterRestart(m), h)
  {
    PhaseDrops(PhaseOf(m, h), m.subs, m.state, h);
    PhaseConcat(Out, m.notes, Drops(m.subs, m.state), h);
  }

  lemma StepAgrees(m: Machine, e: Event, h: int)
    requires ListInvariant(m) && AgreesAt(m, h) && !ResubscribesWhileAcquired(m, e)
    ensures AgreesAt(Step(m, e), h)
  {
    match e {
      case Subscribe(k, waits) => SubscribeAgrees(m, Sub(k, waits, false), h);
      case Unsubscribe(k) =>
        LookupHandle(m.subs, k);
        if Lookup(m.subs, k).Some? { UnsubscribeAgrees(m, Lookup(m.subs, k).value, h); }
      case Granted => GrantAgrees(m, h);
      case ReleasedEvent =>
        if m.state == Acquired { EndAgrees(m, Closed, h); } else if m.state == Releasing { ReopenAgrees(m, h); }
      case Denied =>
        if m.state == Pending { EndAgrees(m, OpenFailed, h); } else if m.state == Releasing { ReopenAgrees(m, h); }
      case ModemRestart => RestartAgrees(m, h);
    }
  }

  lemma StepKeepsList(m: Machine, e: Event)
    requires ListInvariant(m)
    ensures ListInvariant(Step(m, e))
  {
    match e {
      case Subscribe(k, waits) =>
        if Lookup(m.subs, k) == None { AppendList(m.subs, Sub(k, waits, false), k); }
      case Unsubscribe(k) =>
        LookupHandle(m.subs, k);
        WithoutList(m.subs, k, k);
        RetiredList(m.subs, k, k);
      case Granted => KeptList(false, OnlyActive, m.subs, 0);
      case ReleasedEvent =>
        KeptList(true, All, m.subs, 0);
        KeptList(true, OnlyInactive, m.subs, 0);
        OnlyActiveKept(m.subs, 0);
      case Denied =>
        KeptList(true, All, m.subs, 0);
        KeptList(true, OnlyInactive, m.subs, 0);
        OnlyActiveKept(m.subs, 0);
      case ModemRestart =>
    }
  }

  lemma StepKeepsNeeded(m: Machine, e: Event)
    requires ListInvariant(m) && Needed(m) && !e.ModemRestart?
    ensures Needed(Step(m, e))
  {
    match e {
      case Subscribe(k, waits) =>
        if Lookup(m.subs, k) == None { AppendList(m.subs, Sub(k, waits, false), k); }
      case Unsubscribe(k) =>
        if Lookup(m.subs, k).Some? { UnsubscribeKeepsNeeded(m, k); }
      case Granted => KeptList(false, OnlyActive, m.subs, 0);
      case ReleasedEvent => KeptList(true, All, m.subs, 0);
      case Denied => KeptList(true, All, m.subs, 0);
    }
  }

  lemma UnsubscribeKeepsNeeded(m: Machine, k: int)
    requires ListInvariant(m) && Needed(m) && Lookup(m.subs, k).Some?
    ensures Needed(Unsubscribed(m, Lookup(m.subs, k).value))
  {
    var s := Lookup(m.subs, k).value;
    LookupHandle(m.subs, k);
    WaitersOnly(m.subs, k);
    SomeoneListed(StepAside(m, s).subs);
    if s.waits { RetiredList(m.subs, k, k); } else { WithoutKeepsInactive(m.subs, k); }
  }

  // ------------------------------------------------------------ whole runs

  /** A modem restart while the state stands for a connection. */
  predicate Strands(m: Machine, e: Event) {
    e.ModemRestart? && m.state != Released
  }

  /** One event makes the state outlive those who needed it exactly when it is a modem
      restart outside RELEASED. */
  lemma NeededLostExactly(m: Machine, e: Event)
    requires ListInvariant(m) && Needed(m)
    ensures Needed(Step(m, e)) <==> !Strands(m, e)
  {
    if !e.ModemRestart? { StepKeepsNeeded(m, e); }
  }

  predicate NeverStrands(events: seq<Event>) {
    events != [] ==>
      var init := events[..|events| - 1];
      NeverStrands(init) && !Strands(Run(init), events[|events| - 1])
  }

  /** In all runs handles stay distinct, inactive means waiting for the close, and RELEASED
      means that nobody is listed; as long as no modem restart comes outside RELEASED,
      somebody in the list always needs what the state stands for. */
  lemma {:induction false} StateAgreesWithList(events: seq<Event>)
    ensures ListInvariant(Run(events))
    ensures NeverStrands(events) ==> Needed(Run(events))
  {
    if events != [] {
      var init := events[..|events| - 1];
      StateAgreesWithList(init);
      StepKeepsList(Run(init), events[|events| - 1]);
      if NeverStrands(events) {
        NeededLostExactly(Run(init), events[|events| - 1]);
      }
    }
  }

  /** Of any run in which state and list agree, one more event ends the agreement exactly
      when it is a modem restart outside RELEASED. */
  lemma AgreementEndsExactly(events: seq<Event>, e: Event)
    requires Needed(Run(events))
    ensures Needed(Run(events + [e])) <==> !Strands(Run(events), e)
  {
    assert (events + [e])[..|events|] == events;
    StateAgreesWithList(events);
    NeededLostExactly(Run(events), e);
  }

  lemma RunSnoc(events: seq<Event>, e: Event)
    ensures Run(events + [e]) == Step(Run(events), e)
  {
    assert (events + [e])[..|events|] == events;
  }

  /** Runs that end in each of the three states with nobody listed. */
  lemma RestartLeavesNobody()
    ensures var pending := Run([Subscribe(7, true)] + [ModemRestart]);
      pending.state == Pending && pending.subs == []
    ensures var acquired := Run([Subscribe(7, true)] + [Granted] + [ModemRestart]);
      acquired.state == Acquired && acquired.subs == []
    ensures var releasing := Run([Subscribe(7, true)] + [Unsubscribe(7)] + [ModemRestart]);
      releasing.state == Releasing && releasing.subs == []
  {
    assert [Subscribe(7, true)] == [] + [Subscribe(7, true)];
    RunSnoc([], Subscribe(7, true));
    var m := Run([Subscribe(7, true)]);
    assert m.subs == [Sub(7, true, false)] && m.state == Pending;
    RunSnoc([Subscribe(7, true)], ModemRestart);
    RunSnoc([Subscribe(7, true)], Granted);
    RunSnoc([Subscribe(7, true)] + [Granted], ModemRestart);
    RunSnoc([Subscribe(7, true)], Unsubscribe(7));
    RunSnoc([Subscribe(7, true)] + [Unsubscribe(7)], ModemRestart);
  }

  /** No event of the run subscribes a live handle again while the connection is up. */
  predicate NeverResubscribes(events: seq<Event>) {
    events != [] ==>
      var init := events[..|events| - 1];
      NeverResubscribes(init) && !ResubscribesWhileAcquired(Run(init), events[|events| - 1])
  }

  /** Every stay in the list is regular: at most one open-success, given only while ACQUIRED
      and never after leaving was asked for; one close or open-failed before every leaving
      other than a restart drop; nothing for a handle that is not listed. */
  ghost predicate LivesAreRegular(m: Machine) {
    forall h :: PhaseOf(m, h) != Bad
  }

  /** Every stay in every run is regular exactly when no live handle subscribes again while
      the connection is up; and then each handle stands where state and list say: an active
      subscriber in ACQUIRED has had its open-success. */
  lemma {:induction false} LifeCycle(events: seq<Event>)
    ensures LivesAreRegular(Run(events)) <==> NeverResubscribes(events)
    ensures NeverResubscribes(events) ==> Agrees(Run(events))
  {
    if events != [] {
      var init, e := events[..|events| - 1], events[|events| - 1];
      LifeCycle(init);
      StateAgreesWithList(init);
      if !NeverResubscribes(init) {
        IrregularForever(Run(init), e);
      } else if ResubscribesWhileAcquired(Run(init), e) {
        SecondOpenIsBad(Run(init), e);
      } else {
        StaysRegular(Run(init), e);
      }
    }
  }

  lemma StaysRegular(m: Machine, e: Event)
    requires ListInvariant(m) && Agrees(m) && !ResubscribesWhileAcquired(m, e)
    ensures Agrees(Step(m, e)) && LivesAreRegular(Step(m, e))
  {
    forall h ensures AgreesAt(Step(m, e), h) && PhaseOf(Step(m, e), h) != Bad {
      StepAgrees(m, e, h);
    }
    assert forall h :: AgreesAt(Step(m, e), h);
  }

  lemma SecondOpenIsBad(m: Machine, e: Event)
    requires ResubscribesWhileAcquired(m, e) && Agrees(m)
    ensures !LivesAreRegular(Step(m, e))
  {
    var ok := Note(OpenOk, e.handle, Acquired);
    PhaseOne(PhaseOf(m, e.handle), ok, e.handle);
    PhaseConcat(Out, m.notes, [ok], e.handle);
    assert PhaseOf(Step(m, e), e.handle) == Bad;
  }

  lemma IrregularForever(m: Machine, e: Event)
    requires !LivesAreRegular(m)
    ensures !LivesAreRegular(Step(m, e))
  {
    var h :| PhaseOf(m, h) == Bad;
    NotesGrow(m, e);
    var rest := Step(m, e).notes[|m.notes|..];
    assert Step(m, e).notes == m.notes + rest;
    PhaseConcat(Out, m.notes, rest, h);
    BadForever(rest, h);
    assert PhaseOf(Step(m, e), h) == Bad;
  }

  lemma NotesGrow(m: Machine, e: Event)
    ensures m.notes <= Step(m, e).notes
  {
  }
}
