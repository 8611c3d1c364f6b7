/** The AGPS connection state machine as a value: what each event makes of the state, the
    subscriber list, the messages to the framework and the notifications to subscribers. */
module AgpsMachine {
  import opened Common

  datatype State = Released | Pending | Acquired | Releasing

  /** One entry of the subscriber list. */
  datatype Sub = Sub(handle: int, waits: bool, inactive: bool)

  /** Messages to the framework. */
  datatype Wire = RequestConn | ReleaseConn

  /** What happens to a subscriber.  The first three are client callbacks; the others record
      entering the list, turning inactive, leaving the list and being dropped by a restart. */
  datatype Kind = OpenOk | OpenFailed | Closed | Joined | Retired | Left | Dropped
  datatype Note = Note(kind: Kind, handle: int, at: State)

  datatype Machine = Machine(state: State, subs: seq<Sub>, wire: seq<Wire>, notes: seq<Note>)

  const START := Machine(Released, [], [], [])

  datatype Which = All | OnlyInactive | OnlyActive

  predicate Concerns(w: Which, s: Sub) {
    w == All || (w == OnlyInactive && s.inactive) || (w == OnlyActive && !s.inactive)
  }

  // ------------------------------------------------------------ the list

  function Lookup(subs: seq<Sub>, h: int): Option<Sub> {
    if subs == [] then None
    else if subs[0].handle == h then Some(subs[0])
    else Lookup(subs[1..], h)
  }

  predicate DistinctHandles(subs: seq<Sub>) {
    subs == [] || (Lookup(subs[1..], subs[0].handle) == None && DistinctHandles(subs[1..]))
  }

  function Added(subs: seq<Sub>, s: Sub): seq<Sub> {
    if Lookup(subs, s.handle) == None then subs + [s] else subs
  }

  function Without(subs: seq<Sub>, h: int): seq<Sub> {
    if subs == [] then []
    else if subs[0].handle == h then Without(subs[1..], h)
    else [subs[0]] + Without(subs[1..], h)
  }

  function RetiredSubs(subs: seq<Sub>, h: int): seq<Sub> {
    if subs == [] then []
    else [if subs[0].handle == h then subs[0].(inactive := true) else subs[0]] + RetiredSubs(subs[1..], h)
  }

  predicate AnyActive(subs: seq<Sub>) {
    subs != [] && (!subs[0].inactive || AnyActive(subs[1..]))
  }

  predicate AnyInactive(subs: seq<Sub>) {
    subs != [] && (subs[0].inactive || AnyInactive(subs[1..]))
  }

  predicate InactiveWait(subs: seq<Sub>) {
    subs == [] || ((subs[0].inactive ==> subs[0].waits) && InactiveWait(subs[1..]))
  }

  /** What a pass of notifications says about one entry, and about the whole list. */
  function ToldOne(kind: Kind, drop: bool, w: Which, s: Sub, at: State): seq<Note> {
    if !Concerns(w, s) then []
    else if drop then [Note(kind, s.handle, at), Note(Left, s.handle, at)]
    else [Note(kind, s.handle, at)]
  }

  function Told(kind: Kind, drop: bool, w: Which, subs: seq<Sub>, at: State): seq<Note> {
    if subs == [] then [] else ToldOne(kind, drop, w, subs[0], at) + Told(kind, drop, w, subs[1..], at)
  }

  /** What such a pass leaves in the list. */
  function Kept(drop: bool, w: Which, subs: seq<Sub>): seq<Sub> {
    if subs == [] then []
    else if drop && Concerns(w, subs[0]) then Kept(drop, w, subs[1..])
    else [subs[0]] + Kept(drop, w, subs[1..])
  }

  function Drops(subs: seq<Sub>, at: State): seq<Note> {
    if subs == [] then [] else [Note(Dropped, subs[0].handle, at)] + Drops(subs[1..], at)
  }

  lemma Cons<T>(x: T, rest: seq<T>)
    ensures ([x] + rest)[1..] == rest
  {
  }

  // ------------------------------------------------------------ the events

  datatype Event =
    | Subscribe(handle: int, waits: bool)
    | Unsubscribe(handle: int)
    | Granted
    | ReleasedEvent
    | Denied
    | ModemRestart

  function Noted(m: Machine, notes: seq<Note>): Machine {
    m.(notes := m.notes + notes)
  }

  function Join(m: Machine, s: Sub): Machine {
    if Lookup(m.subs, s.handle) == None
    then Noted(m.(subs := m.subs + [s]), [Note(Joined, s.handle, m.state)])
    else m
  }

  function Subscribed(m: Machine, s: Sub): Machine {
    match m.state
    case Released => var j := Join(m, s); j.(wire := j.wire + [RequestConn], state := Pending)
    case Pending => Join(m, s)
    case Acquired => Join(Noted(m, [Note(OpenOk, s.handle, m.state)]), s)
    case Releasing => Join(m, s)
  }

  /** A subscriber that waits for the connection to close turns inactive; any other is told
      at once and leaves. */
  function StepAside(m: Machine, s: Sub): Machine {
    if s.waits then Noted(m.(subs := RetiredSubs(m.subs, s.handle)), [Note(Retired, s.handle, m.state)])
    else Noted(m.(subs := Without(m.subs, s.handle)),
               [Note(Closed, s.handle, m.state), Note(Left, s.handle, m.state)])
  }

  function Unsubscribed(m: Machine, s: Sub): Machine {
    match m.state
    case Released => Noted(m, [Note(Closed, s.handle, m.state)])
    case Releasing =>
      var a := StepAside(m, s);
      if a.subs == [] then a.(state := Released) else a
    case _ =>
      var a := StepAside(m, s);
      if a.subs == [] then a.(state := Released, wire := a.wire + [ReleaseConn])
      else if !AnyActive(a.subs) then a.(state := Releasing, wire := a.wire + [ReleaseConn])
      else a
  }

  function NotifiedAll(m: Machine, kind: Kind, drop: bool, w: Which): Machine {
    Noted(m.(subs := Kept(drop, w, m.subs)), Told(kind, drop, w, m.subs, m.state))
  }

  function AfterGranted(m: Machine): Machine {
    if m.state == Pending then NotifiedAll(m.(state := Acquired), OpenOk, false, OnlyActive) else m
  }

  /** The connection that was being released is gone: those who waited leave, and those who
      came meanwhile need a new one. */
  function Reopened(m: Machine): Machine {
    var a := NotifiedAll(m, Closed, true, OnlyInactive);
    if AnyActive(a.subs) then a.(state := Pending, wire := a.wire + [RequestConn])
    else a.(state := Released)
  }

  function AfterReleased(m: Machine): Machine {
    match m.state
    case Acquired => NotifiedAll(m.(state := Released), Closed, true, All)
    case Releasing => Reopened(m)
    case _ => m
  }

  function AfterDenied(m: Machine): Machine {
    match m.state
    case Pending => NotifiedAll(m.(state := Released), OpenFailed, true, All)
    case Releasing => Reopened(m)
    case _ => m
  }

  function AfterRestart(m: Machine): Machine {
    Noted(m.(subs := []), Drops(m.subs, m.state))
  }

  function Step(m: Machine, e: Event): Machine {
    match e
    case Subscribe(h, waits) => Subscribed(m, Sub(h, waits, false))
    case Unsubscribe(h) =>
      var s := Lookup(m.subs, h);
      if s == None then m else Unsubscribed(m, s.value)
    case Granted => AfterGranted(m)
    case ReleasedEvent => AfterReleased(m)
    case Denied => AfterDenied(m)
    case ModemRestart => AfterRestart(m)
  }

  function Run(events: seq<Event>): Machine {
    if events == [] then START else Step(Run(events[..|events| - 1]), events[|events| - 1])
  }

  // ------------------------------------------------------------ the connection ledger

  function Balance(wire: seq<Wire>): int {
    if wire == [] then 0 else
    Balance(wire[..|wire| - 1]) + if wire[|wire| - 1] == RequestConn then 1 else -1
  }

  /** Whether an event tells the machine that its connection ended by itself. */
  predicate EndsConnection(m: Machine, e: Event) {
    (e == Denied && m.state == Pending) || (e == ReleasedEvent && m.state == Acquired)
  }

  function Ends(events: seq<Event>): nat {
    if events == [] then 0 else
    var init := events[..|events| - 1];
    Ends(init) + if EndsConnection(Run(init), events[|events| - 1]) then 1 else 0
  }

  /** Connections asked for, neither given back nor ended. */
  function Outstanding(events: seq<Event>): int {
    Balance(Run(events).wire) - Ends(events)
  }

  function Held(s: State): int {
    if s == Pending || s == Acquired then 1 else 0
  }

  lemma BalanceSnoc(wire: seq<Wire>, w: Wire)
    ensures Balance(wire + [w]) == Balance(wire) + if w == RequestConn then 1 else -1
  {
    assert (wire + [w])[..|wire|] == wire;
  }

  /** One event sends at most one message, a request only when nothing is held, a release
      only when something is. */
  lemma StepSends(m: Machine, e: Event)
    ensures var m' := Step(m, e);
      || (m'.wire == m.wire && Held(m'.state) == Held(m.state) - (if EndsConnection(m, e) then 1 else 0))
      || (m'.wire == m.wire + [RequestConn] && Held(m.state) == 0 && Held(m'.state) == 1 && !EndsConnection(m, e))
      || (m'.wire == m.wire + [ReleaseConn] && Held(m.state) == 1 && Held(m'.state) == 0 && !EndsConnection(m, e))
  {
  }

  /** The ledger balances after every run, modem restarts included: exactly one connection
      is outstanding in PENDING and ACQUIRED, none in RELEASED and RELEASING. */
  lemma {:induction false} LedgerBalances(events: seq<Event>)
    ensures Outstanding(events) == Held(Run(events).state)
  {
    if events != [] {
      var init := events[..|events| - 1];
      LedgerBalances(init);
      StepSends(Run(init), events[|events| - 1]);
      BalanceSnoc(Run(init).wire, RequestConn);
      BalanceSnoc(Run(init).wire, ReleaseConn);
    }
  }

  /** So a connection is never requested while one is outstanding, nor released when none is. */
  lemma NoDoubleRequest(events: seq<Event>, e: Event)
    ensures var before, after := Run(events).wire, Run(events + [e]).wire;
      || after == before
      || (after == before + [RequestConn] && Outstanding(events) == 0)
      || (after == before + [ReleaseConn] && Outstanding(events) == 1)
  {
    assert (events + [e])[..|events|] == events;
    StepSends(Run(events), e);
    LedgerBalances(events);
  }
}
