/** Who is listed with an AGPS state machine, who hears of what, and what is sent, read off the
    events alone: over whole runs, without the functions that make the steps. */
module AgpsListing {
  import opened Common
  import opened AgpsMachine
  import opened AgpsLifeCycle

  // ------------------------------------------------------------ who is listed

  /** How a handle stands. */
  datatype Stay = Away | Present(waits: bool, inactive: bool)

  /** A handle comes by subscribing while it is away.  It goes by its own unsubscribe, unless it
      waits for the close and turns inactive; with a denial in PENDING; with a release in
      ACQUIRED; inactive, with either in RELEASING; and with a modem restart. */
  function StayNext(st: Stay, state: State, e: Event, h: int): Stay {
    match e
    case Subscribe(k, waits) => if k == h && st.Away? then Present(waits, false) else st
    case Unsubscribe(k) => if k != h || st.Away? then st else if st.waits then Present(true, true) else Away
    case Granted => st
    case ReleasedEvent => if state.Acquired? || (state.Releasing? && st.Present? && st.inactive) then Away else st
    case Denied => if state.Pending? || (state.Releasing? && st.Present? && st.inactive) then Away else st
    case ModemRestart => Away
  }

  function StayAfter(events: seq<Event>, h: int): Stay {
    if events == [] then Away
    else
      var init := events[..|events| - 1];
      StayNext(StayAfter(init, h), Run(init).state, events[|events| - 1], h)
  }

  function Standing(s: Option<Sub>): Stay {
    if s.None? then Away else Present(s.value.waits, s.value.inactive)
  }

  lemma {:induction false} LookupIsEntry(subs: seq<Sub>, h: int)
    requires DistinctHandles(subs)
    ensures Lookup(subs, h).Some? <==> exists i :: 0 <= i < |subs| && subs[i].handle == h
    ensures forall i :: 0 <= i < |subs| && subs[i].handle == h ==> Lookup(subs, h) == Some(subs[i])
  {
    if subs != [] {
      LookupIsEntry(subs[1..], h);
      LookupIsEntry(subs[1..], subs[0].handle);
      assert forall i :: 0 < i < |subs| ==> subs[i] == subs[1..][i - 1];
      if Lookup(subs[1..], h).Some? {
        var i :| 0 <= i < |subs[1..]| && subs[1..][i].handle == h;
        assert subs[i + 1].handle == h;
      }
    }
  }

  lemma {:induction false} AnyActiveIs(subs: seq<Sub>)
    ensures AnyActive(subs) <==> exists i :: 0 <= i < |subs| && !subs[i].inactive
  {
    if subs != [] {
      AnyActiveIs(subs[1..]);
      assert forall i :: 0 < i < |subs| ==> subs[i] == subs[1..][i - 1];
      if AnyActive(subs[1..]) {
        var i :| 0 <= i < |subs[1..]| && !subs[1..][i].inactive;
        assert !subs[i + 1].inactive;
      }
    }
  }

  lemma JoinStands(m: Machine, s: Sub, h: int)
    requires ListInvariant(m) && !s.inactive
    ensures Standing(Lookup(Join(m, s).subs, h)) ==
      if s.handle == h && Lookup(m.subs, h) == None then Present(s.waits, false) else Standing(Lookup(m.subs, h))
  {
    if Lookup(m.subs, s.handle) == None { AppendList(m.subs, s, h); }
  }

  lemma UnsubscribeStands(m: Machine, k: int, h: int)
    requires ListInvariant(m)
    ensures Standing(Lookup(Step(m, Unsubscribe(k)).subs, h)) == StayNext(Standing(Lookup(m.subs, h)), m.state, Unsubscribe(k), h)
  {
    LookupHandle(m.subs, k);
    if Lookup(m.subs, k).Some? {
      RetiredList(m.subs, k, h);
      WithoutList(m.subs, k, h);
    }
  }

  lemma StepStands(m: Machine, e: Event, h: int)
    requires ListInvariant(m)
    ensures Standing(Lookup(Step(m, e).subs, h)) == StayNext(Standing(Lookup(m.subs, h)), m.state, e, h)
  {
    match e {
      case Subscribe(k, waits) =>
        JoinStands(m, Sub(k, waits, false), h);
        JoinStands(Noted(m, [Note(OpenOk, k, m.state)]), Sub(k, waits, false), h);
      case Unsubscribe(k) => UnsubscribeStands(m, k, h);
      case Granted => KeptList(false, OnlyActive, m.subs, h);
      case ReleasedEvent =>
        KeptList(true, All, m.subs, h);
        KeptList(true, OnlyInactive, m.subs, h);
      case Denied =>
        KeptList(true, All, m.subs, h);
        KeptList(true, OnlyInactive, m.subs, h);
      case ModemRestart =>
    }
  }

  lemma {:induction false} StandsAfter(events: seq<Event>, h: int)
    ensures Standing(Lookup(Run(events).subs, h)) == StayAfter(events, h)
  {
    if events != [] {
      var init := events[..|events| - 1];
      StandsAfter(init, h);
      StateAgreesWithList(init);
      StepStands(Run(init), events[|events| - 1], h);
    }
  }

  /** After any run a handle is listed exactly when it came and has not gone since, once, and
      its entry says whether it waits and whether it is inactive. */
  lemma ListedExactly(events: seq<Event>, h: int)
    ensures var subs := Run(events).subs;
      && (StayAfter(events, h).Present? <==> exists i :: 0 <= i < |subs| && subs[i].handle == h)
      && (forall i :: 0 <= i < |subs| && subs[i].handle == h ==>
            StayAfter(events, h) == Present(subs[i].waits, subs[i].inactive))
      && (forall i, j :: 0 <= i < j < |subs| ==> subs[i].handle != subs[j].handle)
  {
    var subs := Run(events).subs;
    StandsAfter(events, h);
    StateAgreesWithList(events);
    LookupIsEntry(subs, h);
    HandlesOnce(subs);
  }

  lemma {:induction false} HandlesOnce(subs: seq<Sub>)
    requires DistinctHandles(subs)
    ensures forall i, j :: 0 <= i < j < |subs| ==> subs[i].handle != subs[j].handle
  {
    if subs != [] {
      HandlesOnce(subs[1..]);
      LookupIsEntry(subs[1..], subs[0].handle);
      assert forall i :: 0 < i < |subs| ==> subs[i] == subs[1..][i - 1];
    }
  }

  // ------------------------------------------------------------ who hears of what

  /** How often some notes tell a handle something. */
  function Heard(notes: seq<Note>, kind: Kind, h: int): nat {
    if notes == [] then 0
    else Heard(notes[1..], kind, h) + if notes[0].kind == kind && notes[0].handle == h then 1 else 0
  }

  lemma {:induction false} HeardConcat(a: seq<Note>, b: seq<Note>, kind: Kind, h: int)
    ensures Heard(a + b, kind, h) == Heard(a, kind, h) + Heard(b, kind, h)
    decreases a
  {
    if a == [] {
      assert a + b == b;
    } else {
      assert (a + b)[1..] == a[1..] + b;
      HeardConcat(a[1..], b, kind, h);
    }
  }

  lemma HeardOne(n: Note, kind: Kind, h: int)
    ensures Heard([n], kind, h) == if n.kind == kind && n.handle == h then 1 else 0
  {
    assert [n][1..] == [];
  }

  lemma HeardTwo(n: Note, n': Note, kind: Kind, h: int)
    ensures Heard([n, n'], kind, h) == Heard([n], kind, h) + Heard([n'], kind, h)
  {
    assert [n, n'] == [n] + [n'];
    HeardConcat([n], [n'], kind, h);
  }

  /** A pass of notifications tells each concerned handle once. */
  lemma {:induction false} HeardTold(told: Kind, drop: bool, w: Which, subs: seq<Sub>, at: State, kind: Kind, h: int)
    requires DistinctHandles(subs) && kind != Left
    ensures var s := Lookup(subs, h);
      Heard(Told(told, drop, w, subs, at), kind, h) == if kind == told && s.Some? && Concerns(w, s.value) then 1 else 0
    decreases subs
  {
    if subs != [] {
      var s := subs[0];
      HeardOne(Note(told, s.handle, at), kind, h);
      HeardOne(Note(Left, s.handle, at), kind, h);
      HeardTwo(Note(told, s.handle, at), Note(Left, s.handle, at), kind, h);
      HeardConcat(ToldOne(told, drop, w, s, at), Told(told, drop, w, subs[1..], at), kind, h);
      HeardTold(told, drop, w, subs[1..], at, kind, h);
    }
  }

  lemma {:induction false} NotHeardDrops(subs: seq<Sub>, at: State, kind: Kind, h: int)
    requires kind != Dropped
    ensures Heard(Drops(subs, at), kind, h) == 0
  {
    if subs != [] {
      HeardOne(Note(Dropped, subs[0].handle, at), kind, h);
      HeardConcat([Note(Dropped, subs[0].handle, at)], Drops(subs[1..], at), kind, h);
      NotHeardDrops(subs[1..], at, kind, h);
    }
  }

  /** How often a handle that stands as given should be called back by one event: an open-success
      for a subscribe while ACQUIRED and for each active one at the grant in PENDING; an open-
      failed for each at a denial in PENDING; a close for an unsubscribe that does not wait, for
      each at a release in ACQUIRED and for each inactive one at the end of RELEASING. */
  function Calls(st: Stay, state: State, e: Event, kind: Kind, h: int): nat {
    match kind
    case OpenOk =>
      if (state.Acquired? && e.Subscribe? && e.handle == h) || (state.Pending? && e.Granted? && st.Present? && !st.inactive) then 1 else 0
    case OpenFailed =>
      if state.Pending? && e.Denied? && st.Present? then 1 else 0
    case Closed =>
      if st.Present? && ((e.Unsubscribe? && e.handle == h && !st.waits)
                         || (state.Acquired? && e.ReleasedEvent?)
                         || (state.Releasing? && st.inactive && (e.ReleasedEvent? || e.Denied?))) then 1 else 0
    case _ => 0
  }

  predicate Callback(kind: Kind) {
    kind == OpenOk || kind == OpenFailed || kind == Closed
  }

  lemma SubscribeCalls(m: Machine, s: Sub, kind: Kind, h: int) returns (more: seq<Note>)
    requires ListInvariant(m) && Callback(kind)
    ensures Subscribed(m, s).notes == m.notes + more
    ensures Heard(more, kind, h) == if kind == OpenOk && m.state.Acquired? && s.handle == h then 1 else 0
  {
    var ok, joined := Note(OpenOk, s.handle, m.state), Note(Joined, s.handle, m.state);
    HeardOne(ok, kind, h);
    HeardOne(joined, kind, h);
    HeardTwo(ok, joined, kind, h);
    more := (if m.state.Acquired? then [ok] else []) + (if Lookup(m.subs, s.handle) == None then [joined] else []);
    HeardConcat(if m.state.Acquired? then [ok] else [], if Lookup(m.subs, s.handle) == None then [joined] else [], kind, h);
  }

  lemma UnsubscribeCalls(m: Machine, k: int, kind: Kind, h: int) returns (more: seq<Note>)
    requires ListInvariant(m) && Callback(kind)
    ensures Step(m, Unsubscribe(k)).notes == m.notes + more
    ensures Heard(more, kind, h) == Calls(Standing(Lookup(m.subs, h)), m.state, Unsubscribe(k), kind, h)
  {
    var closed, left, retired := Note(Closed, k, m.state), Note(Left, k, m.state), Note(Retired, k, m.state);
    LookupHandle(m.subs, k);
    HeardOne(closed, kind, h);
    HeardOne(left, kind, h);
    HeardOne(retired, kind, h);
    HeardTwo(closed, left, kind, h);
    var s := Lookup(m.subs, k);
    more := if s == None then [] else if s.value.waits then [retired] else [closed, left];
  }

  lemma PassCalls(m: Machine, told: Kind, drop: bool, w: Which, kind: Kind, h: int) returns (more: seq<Note>)
    requires DistinctHandles(m.subs) && Callback(kind)
    ensures NotifiedAll(m, told, drop, w).notes == m.notes + more
    ensures var s := Lookup(m.subs, h);
      Heard(more, kind, h) == if kind == told && s.Some? && Concerns(w, s.value) then 1 else 0
  {
    more := Told(told, drop, w, m.subs, m.state);
    HeardTold(told, drop, w, m.subs, m.state, kind, h);
  }

  lemma StepCalls(m: Machine, e: Event, kind: Kind, h: int) returns (more: seq<Note>)
    requires ListInvariant(m) && Callback(kind)
    ensures Step(m, e).notes == m.notes + more
    ensures Heard(more, kind, h) == Calls(Standing(Lookup(m.subs, h)), m.state, e, kind, h)
  {
    more := [];
    match e {
      case Subscribe(k, waits) => more := SubscribeCalls(m, Sub(k, waits, false), kind, h);
      case Unsubscribe(k) => more := UnsubscribeCalls(m, k, kind, h);
      case Granted =>
        if m.state.Pending? { more := PassCalls(m.(state := Acquired), OpenOk, false, OnlyActive, kind, h); }
      case ReleasedEvent =>
        if m.state.Acquired? { more := PassCalls(m.(state := Released), Closed, true, All, kind, h); }
        else if m.state.Releasing? { more := PassCalls(m, Closed, true, OnlyInactive, kind, h); }
      case Denied =>
        if m.state.Pending? { more := PassCalls(m.(state := Released), OpenFailed, true, All, kind, h); }
        else if m.state.Releasing? { more := PassCalls(m, Closed, true, OnlyInactive, kind, h); }
      case ModemRestart =>
        more := Drops(m.subs, m.state);
        NotHeardDrops(m.subs, m.state, kind, h);
    }
  }

  /** After any run, the callbacks that one more event makes to a handle are exactly those its
      history calls for. */
  lemma CalledExactly(events: seq<Event>, e: Event, kind: Kind, h: int) returns (more: seq<Note>)
    requires Callback(kind)
    ensures Run(events + [e]).notes == Run(events).notes + more
    ensures Heard(more, kind, h) == Calls(StayAfter(events, h), Run(events).state, e, kind, h)
  {
    RunSnoc(events, e);
    StateAgreesWithList(events);
    StandsAfter(events, h);
    more := StepCalls(Run(events), e, kind, h);
  }

  // ------------------------------------------------------------ from PENDING to the grant

  /** Nothing that ends the wait of a handle. */
  predicate Undisturbed(mid: seq<Event>, h: int) {
    forall e :: e in mid ==> e.Subscribe? || e.ReleasedEvent? || (e.Unsubscribe? && e.handle != h)
  }

  lemma {:induction false} ActiveNeeded(subs: seq<Sub>, h: int)
    ensures Lookup(subs, h).Some? && !Lookup(subs, h).value.inactive ==> AnyActive(subs)
  {
    if subs != [] { ActiveNeeded(subs[1..], h); }
  }

  /** While an active handle is listed, others may come and go without the state leaving PENDING. */
  lemma PendingStays(m: Machine, e: Event, h: int)
    requires ListInvariant(m) && m.state.Pending? && Undisturbed([e], h)
    requires Lookup(m.subs, h).Some? && !Lookup(m.subs, h).value.inactive
    ensures Step(m, e).state.Pending?
    ensures Lookup(Step(m, e).subs, h).Some? && !Lookup(Step(m, e).subs, h).value.inactive
  {
    assert e in [e];
    StepStands(m, e, h);
    ActiveNeeded(Step(m, e).subs, h);
    if e.Unsubscribe? && Lookup(m.subs, e.handle).Some? {
      var a := StepAside(m, Lookup(m.subs, e.handle).value);
      assert Step(m, e).subs == a.subs;
    }
  }

  lemma StaySnoc(events: seq<Event>, e: Event, h: int)
    ensures StayAfter(events + [e], h) == StayNext(StayAfter(events, h), Run(events).state, e, h)
  {
    assert (events + [e])[..|events|] == events;
  }

  lemma {:induction false} WaitsOn(early: seq<Event>, mid: seq<Event>, h: int)
    requires Run(early).state.Pending? && Undisturbed(mid, h)
    requires StayAfter(early, h).Present? && !StayAfter(early, h).inactive
    ensures StayAfter(early + mid, h) == StayAfter(early, h) && Run(early + mid).state.Pending?
    decreases |mid|
  {
    if mid == [] {
      assert early + mid == early;
    } else {
      var n := |mid| - 1;
      assert mid == mid[..n] + [mid[n]] && mid[n] in mid;
      assert early + mid == (early + mid[..n]) + [mid[n]];
      WaitsOn(early, mid[..n], h);
      RunSnoc(early + mid[..n], mid[n]);
      StaySnoc(early + mid[..n], mid[n], h);
      StandsAfter(early + mid[..n], h);
      StateAgreesWithList(early + mid[..n]);
      PendingStays(Run(early + mid[..n]), mid[n], h);
    }
  }

  /** A handle that subscribes in PENDING, and is not unsubscribed, denied or dropped before the
      grant, gets its open-success with the grant, whoever comes and goes meanwhile. */
  lemma GrantReaches(early: seq<Event>, h: int, waits: bool, mid: seq<Event>) returns (more: seq<Note>)
    requires Run(early).state.Pending? && Undisturbed(mid, h)
    requires StayAfter(early, h).Present? ==> !StayAfter(early, h).inactive
    ensures var events := early + [Subscribe(h, waits)] + mid;
      Run(events + [Granted]).notes == Run(events).notes + more && Heard(more, OpenOk, h) == 1
  {
    var first := early + [Subscribe(h, waits)];
    RunSnoc(early, Subscribe(h, waits));
    StaySnoc(early, Subscribe(h, waits), h);
    WaitsOn(first, mid, h);
    more := CalledExactly(first + mid, Granted, OpenOk, h);
  }

  /** But subscribing again does not make an inactive handle active, and no grant is told to it
      before it has left the list. */
  lemma {:induction false} InactiveStays(early: seq<Event>, mid: seq<Event>, h: int)
    requires StayAfter(early, h).Present? && StayAfter(early, h).inactive
    requires forall e :: e in mid ==> e.Subscribe? || e.Unsubscribe? || e.Granted?
    ensures StayAfter(early + mid, h) == Present(true, true) || StayAfter(early + mid, h) == StayAfter(early, h)
    ensures Calls(StayAfter(early + mid, h), Run(early + mid).state, Granted, OpenOk, h) == 0
    decreases |mid|
  {
    if mid == [] {
      assert early + mid == early;
    } else {
      var n := |mid| - 1;
      assert mid == mid[..n] + [mid[n]] && mid[n] in mid;
      assert early + mid == (early + mid[..n]) + [mid[n]];
      assert forall e :: e in mid[..n] ==> e in mid;
      InactiveStays(early, mid[..n], h);
      StaySnoc(early + mid[..n], mid[n], h);
      WaitingOnly(early + mid[..n], h);
    }
  }

  lemma WaitingOnly(events: seq<Event>, h: int)
    ensures var st := StayAfter(events, h); st.Present? && st.inactive ==> st.waits
  {
    StandsAfter(events, h);
    StateAgreesWithList(events);
    WaitersOnly(Run(events).subs, h);
  }

  // ------------------------------------------------------------ states and messages

  predicate SomeoneActive(subs: seq<Sub>) {
    exists i :: 0 <= i < |subs| && !subs[i].inactive
  }

  predicate IsListed(subs: seq<Sub>, h: int) {
    exists i :: 0 <= i < |subs| && subs[i].handle == h
  }

  /** The state that an event should lead to, given the lists before and after it. */
  function StateNext(state: State, before: seq<Sub>, after: seq<Sub>, e: Event): State {
    match state
    case Released => if e.Subscribe? then Pending else Released
    case Pending =>
      if e.Granted? then Acquired
      else if e.Denied? then Released
      else if e.Unsubscribe? && IsListed(before, e.handle)
      then if after == [] then Released else if SomeoneActive(after) then Pending else Releasing
      else Pending
    case Acquired =>
      if e.ReleasedEvent? then Released
      else if e.Unsubscribe? && IsListed(before, e.handle)
      then if after == [] then Released else if SomeoneActive(after) then Acquired else Releasing
      else Acquired
    case Releasing =>
      if e.ReleasedEvent? || e.Denied? then if SomeoneActive(before) then Pending else Released
      else if e.Unsubscribe? && IsListed(before, e.handle) && after == [] then Released
      else Releasing
  }

  lemma {:induction false} KeptActive(subs: seq<Sub>)
    ensures AnyActive(Kept(true, OnlyInactive, subs)) <==> AnyActive(subs)
  {
    if subs != [] {
      Cons(subs[0], Kept(true, OnlyInactive, subs[1..]));
      KeptActive(subs[1..]);
    }
  }

  /** States follow the list, and a message is sent exactly with a change between holding a
      connection and not: a request for the first who needs one, a release when the last active
      one has gone. */
  lemma StateExactly(events: seq<Event>, e: Event)
    ensures var (m, m') := (Run(events), Run(events + [e]));
      && m'.state == StateNext(m.state, m.subs, m'.subs, e)
      && m'.wire == m.wire + (if m'.state.Pending? && (m.state.Released? || m.state.Releasing?) then [RequestConn]
                              else if (m.state.Pending? || m.state.Acquired?) && e.Unsubscribe? && m'.state != m.state then [ReleaseConn]
                              else [])
  {
    var m := Run(events);
    var m' := Step(m, e);
    RunSnoc(events, e);
    StateAgreesWithList(events);
    AnyActiveIs(m.subs);
    AnyActiveIs(m'.subs);
    KeptActive(m.subs);
    if e.Unsubscribe? {
      LookupIsEntry(m.subs, e.handle);
    }
  }
}
