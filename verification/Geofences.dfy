/** The two-way geofence index as a state machine: commands put requests to the engine on
    their way, answers come back in any order, clients leave, the engine restarts. */
module Geofences {
  import opened Common

  type Client = nat
  type HwId = nat

  datatype Key = Key(client: Client, id: nat)
  datatype Options = Options(breachMask: nat, responsiveness: nat, dwellTime: nat)
  datatype Info = Info(latitude: real, longitude: real, radius: real)
  datatype Fence = Fence(key: Key, options: Options, info: Info, paused: bool)

  /** hardware id -> fence, and key -> hardware id */
  datatype Index = Index(geofences: map<HwId, Fence>, ids: map<Key, HwId>)

  /** A request whose answer is still to come. */
  datatype Request =
    | Add(key: Key, options: Options, info: Info)
    | ReAdd(fence: Fence)
    | Remove(hwId: HwId)
    | StopRemove(hwId: HwId)
    | Pause(hwId: HwId)
    | Resume(hwId: HwId)
    | Modify(hwId: HwId, newOptions: Options)

  /** `engine` holds the fences the engine has confirmed and whether it has them paused. */
  datatype State = State(index: Index, pending: map<nat, Request>, next: nat, engine: map<HwId, bool>)

  /** `hwId` and `pauseOk` matter only for answers to additions: the id that the engine
      gave, and whether it also paused a fence that had been paused before a restart.
      `order` is the iteration order of the map that the event walks. */
  datatype Event =
    | AddFence(key: Key, options: Options, info: Info)
    | RemoveFence(key: Key)
    | PauseFence(key: Key)
    | ResumeFence(key: Key)
    | ModifyFence(key: Key, newOptions: Options)
    | StopClient(client: Client, keys: seq<Key>)
    | Restart(order: seq<HwId>)
    | Answer(ticket: nat, ok: bool, hwId: HwId, pauseOk: bool)

  // ------------------------------------------------------------ the index

  function Saved(x: Index, key: Key, options: Options, info: Info, h: HwId): Index {
    Index(x.geofences[h := Fence(key, options, info, false)], x.ids[key := h])
  }

  /** A fence whose key has left the id table stays. */
  function ItemRemoved(x: Index, h: HwId): Index {
    if h in x.geofences && x.geofences[h].key in x.ids
    then Index(x.geofences - {h}, x.ids - {x.geofences[h].key})
    else x
  }

  function ItemSet(x: Index, h: HwId, fence: Fence -> Fence): Index {
    if h in x.geofences then x.(geofences := x.geofences[h := fence(x.geofences[h])]) else x
  }

  function Paused(paused: bool): Fence -> Fence {
    (f: Fence) => f.(paused := paused)
  }

  function Modified(options: Options): Fence -> Fence {
    (f: Fence) => f.(options := options)
  }

  // ------------------------------------------------------------ steps

  function Sent(s: State, r: Request): State {
    s.(pending := s.pending[s.next := r], next := s.next + 1)
  }

  /** Requests about a fence are sent only for a known key. */
  function SentFor(s: State, key: Key, request: HwId -> Request): State {
    if key in s.index.ids then Sent(s, request(s.index.ids[key])) else s
  }

  /** Ids of the client vanish at once; the fences only when the engine has removed them. */
  function Stopped(s: State, client: Client, keys: seq<Key>): State
    requires (forall k :: k in keys ==> k in s.index.ids) && Distinct(keys)
    decreases keys
  {
    if keys == [] then s
    else if keys[0].client != client then Stopped(s, client, keys[1..])
    else
      var h := s.index.ids[keys[0]];
      Stopped(Sent(s.(index := s.index.(ids := s.index.ids - {keys[0]})), StopRemove(h)), client, keys[1..])
  }

  /** All fences are put on their way again; with no fence nothing happens here. */
  function Restarted(s: State, order: seq<HwId>): State
    requires forall h :: h in order ==> h in s.index.geofences
  {
    if s.index.geofences == map[] then s.(engine := map[])
    else
      State(Index(map[], map[]), s.pending + ReAdds(s.index.geofences, s.next, order), s.next + |order|, map[])
  }

  function ReAdds(geofences: map<HwId, Fence>, first: nat, order: seq<HwId>): map<nat, Request>
    requires forall h :: h in order ==> h in geofences
  {
    map t | t in Tickets(first, |order|) :: ReAdd(geofences[order[t - first]])
  }

  lemma ReAddsOneMore(pending: map<nat, Request>, geofences: map<HwId, Fence>, first: nat, order: seq<HwId>, i: nat)
    requires i < |order| && forall h :: h in order ==> h in geofences
    ensures pending + ReAdds(geofences, first, order[..i + 1]) ==
            (pending + ReAdds(geofences, first, order[..i]))[first + i := ReAdd(geofences[order[i]])]
  {
    assert forall j :: 0 <= j < i ==> order[..i + 1][j] == order[..i][j];
  }

  function Tickets(first: nat, count: nat): (r: set<nat>)
    ensures forall t :: t in r <==> first <= t < first + count
  {
    if count == 0 then {} else Tickets(first, count - 1) + {first + count - 1}
  }

  function EngineSet(engine: map<HwId, bool>, h: HwId, paused: bool): map<HwId, bool> {
    if h in engine then engine[h := paused] else engine
  }

  function Answered(s: State, r: Request, ok: bool, h: HwId, pauseOk: bool): State {
    if !ok then s
    else match r
      case Add(key, options, info) =>
        s.(index := Saved(s.index, key, options, info, h), engine := s.engine[h := false])
      case ReAdd(f) =>
        s.(index := Saved(s.index, f.key, f.options, f.info, h), engine := s.engine[h := f.paused && pauseOk])
      case Remove(g) => s.(index := ItemRemoved(s.index, g), engine := s.engine - {g})
      case StopRemove(g) => s.(index := s.index.(geofences := s.index.geofences - {g}), engine := s.engine - {g})
      case Pause(g) => s.(index := ItemSet(s.index, g, Paused(true)), engine := EngineSet(s.engine, g, true))
      case Resume(g) => s.(index := ItemSet(s.index, g, Paused(false)), engine := EngineSet(s.engine, g, false))
      case Modify(g, options) => s.(index := ItemSet(s.index, g, Modified(options)))
  }

  function Acknowledged(s: State, ticket: nat, ok: bool, h: HwId, pauseOk: bool): State {
    if ticket in s.pending
    then Answered(s.(pending := s.pending - {ticket}), s.pending[ticket], ok, h, pauseOk)
    else s
  }

  ghost predicate Enumerates<T(!new)>(order: seq<T>, all: set<T>) {
    (forall x :: x in order <==> x in all) && Distinct(order)
  }

  /** Walks follow the map walked; answers answer a request. */
  ghost predicate Possible(s: State, e: Event) {
    match e
    case StopClient(client, keys) => Enumerates(keys, s.index.ids.Keys)
    case Restart(order) => Enumerates(order, s.index.geofences.Keys)
    case Answer(ticket, ok, h, pauseOk) => ticket in s.pending
    case _ => true
  }

  ghost function Step(s: State, e: Event): State
    requires Possible(s, e)
  {
    match e
    case AddFence(key, options, info) => Sent(s, Add(key, options, info))
    case RemoveFence(key) => SentFor(s, key, (h: HwId) => Remove(h))
    case PauseFence(key) => SentFor(s, key, (h: HwId) => Pause(h))
    case ResumeFence(key) => SentFor(s, key, (h: HwId) => Resume(h))
    case ModifyFence(key, options) => SentFor(s, key, (h: HwId) => Modify(h, options))
    case StopClient(client, keys) => Stopped(s, client, keys)
    case Restart(order) => Restarted(s, order)
    case Answer(ticket, ok, h, pauseOk) => Acknowledged(s, ticket, ok, h, pauseOk)
  }

  // ------------------------------------------------------------ consistency

  /** Every key leads to a fence that carries the key. */
  ghost predicate Indexed(x: Index) {
    forall k :: k in x.ids ==> x.ids[k] in x.geofences && x.geofences[x.ids[k]].key == k
  }

  predicate About(r: Request, h: HwId) {
    (r.Remove? || r.StopRemove? || r.Pause? || r.Resume? || r.Modify?) && r.hwId == h
  }

  /** The engine gives a new fence an id it does not use, and none that a request still on
      its way is about. */
  ghost predicate FairEngine(s: State, e: Event)
    requires Possible(s, e)
  {
    e.Answer? && e.ok && (s.pending[e.ticket].Add? || s.pending[e.ticket].ReAdd?) ==>
      e.hwId !in s.engine && forall t :: t in s.pending ==> !About(s.pending[t], e.hwId)
  }

  ghost predicate Consistent(s: State) {
    && Indexed(s.index)
    && (forall k :: k in s.index.ids ==> s.index.ids[k] in s.engine)
    && (forall t :: t in s.pending && s.pending[t].StopRemove? ==> forall k :: k in s.index.ids ==> s.index.ids[k] != s.pending[t].hwId)
    && (forall t :: t in s.pending ==> t < s.next)
  }

  lemma {:induction false} StopKeepsConsistent(s: State, client: Client, keys: seq<Key>)
    requires Consistent(s) && (forall k :: k in keys ==> k in s.index.ids) && Distinct(keys)
    ensures Consistent(Stopped(s, client, keys))
    decreases keys
  {
    if keys == [] {
    } else if keys[0].client != client {
      StopKeepsConsistent(s, client, keys[1..]);
    } else {
      var h := s.index.ids[keys[0]];
      StopKeepsConsistent(Sent(s.(index := s.index.(ids := s.index.ids - {keys[0]})), StopRemove(h)), client, keys[1..]);
    }
  }

  lemma AdditionKeepsConsistent(s: State, r: Request, ok: bool, h: HwId, pauseOk: bool)
    requires Consistent(s) && Adds(r)
    requires h !in s.engine && forall t :: t in s.pending ==> !About(s.pending[t], h)
    ensures Consistent(Answered(s, r, ok, h, pauseOk))
  {
  }

  lemma AnswerKeepsConsistent(s: State, r: Request, ok: bool, h: HwId, pauseOk: bool)
    requires Consistent(s) && !Adds(r)
    requires r.StopRemove? ==> forall k :: k in s.index.ids ==> s.index.ids[k] != r.hwId
    ensures Consistent(Answered(s, r, ok, h, pauseOk))
  {
  }

  lemma StepKeepsConsistent(s: State, e: Event)
    requires Consistent(s) && Possible(s, e) && FairEngine(s, e)
    ensures Consistent(Step(s, e))
  {
    match e
    case StopClient(client, keys) => StopKeepsConsistent(s, client, keys);
    case Answer(ticket, ok, h, pauseOk) =>
      var rest, r := s.(pending := s.pending - {ticket}), s.pending[ticket];
      if !Adds(r) {
        AnswerKeepsConsistent(rest, r, ok, h, pauseOk);
      } else if ok {
        AdditionKeepsConsistent(rest, r, ok, h, pauseOk);
      }
    case _ =>
  }

  /** Saving keeps the index exactly when no other key leads to the id that is given out. */
  lemma SaveKeepsIndexExactly(x: Index, key: Key, options: Options, info: Info, h: HwId)
    requires Indexed(x)
    ensures Indexed(Saved(x, key, options, info, h)) <==> forall k :: k in x.ids && x.ids[k] == h ==> k == key
  {
    var y := Saved(x, key, options, info, h);
    if k :| k in x.ids && x.ids[k] == h && k != key {
      assert k in y.ids && y.geofences[y.ids[k]].key == key;
    }
  }

  const START := State(Index(map[], map[]), map[], 0, map[])

  ghost predicate PossibleRun(events: seq<Event>)
    decreases |events|, 0
  {
    events == [] ||
      (PossibleRun(events[..|events| - 1]) && Possible(Run(events[..|events| - 1]), events[|events| - 1]))
  }

  ghost function Run(events: seq<Event>): State
    requires PossibleRun(events)
    decreases |events|, 1
  {
    if events == [] then START else Step(Run(events[..|events| - 1]), events[|events| - 1])
  }

  ghost predicate FairRun(events: seq<Event>)
    requires PossibleRun(events)
  {
    events == [] ||
      (FairRun(events[..|events| - 1]) && FairEngine(Run(events[..|events| - 1]), events[|events| - 1]))
  }

  /** Whatever is answered, refused, stopped or restarted in between. */
  lemma {:induction false} IndexStaysConsistent(events: seq<Event>)
    requires PossibleRun(events) && FairRun(events)
    ensures Consistent(Run(events))
  {
    if events != [] {
      var before := events[..|events| - 1];
      IndexStaysConsistent(before);
      StepKeepsConsistent(Run(before), events[|events| - 1]);
    }
  }

  // ------------------------------------------------------------ no fence without its key

  predicate Adds(r: Request) {
    r.Add? || r.ReAdd?
  }

  function KeyOf(r: Request): Key
    requires Adds(r)
  {
    if r.Add? then r.key else r.fence.key
  }

  /** A key in use: by a fence or by an addition on its way. */
  ghost predicate InUse(s: State, k: Key) {
    || (exists h :: h in s.index.geofences && s.index.geofences[h].key == k)
    || (exists t :: t in s.pending && Adds(s.pending[t]) && KeyOf(s.pending[t]) == k)
  }

  /** The tables are each other's inverse. */
  ghost predicate Inverse(x: Index) {
    && Indexed(x)
    && forall h :: h in x.geofences ==> x.geofences[h].key in x.ids && x.ids[x.geofences[h].key] == h
  }

  /** No key is used twice. */
  ghost predicate KeysOnce(s: State) {
    && DistinctKeys(s.index.geofences)
    && (forall t, h :: t in s.pending && Adds(s.pending[t]) && h in s.index.geofences ==> KeyOf(s.pending[t]) != s.index.geofences[h].key)
    && (forall t, u :: t in s.pending && u in s.pending && t != u && Adds(s.pending[t]) && Adds(s.pending[u]) ==>
          KeyOf(s.pending[t]) != KeyOf(s.pending[u]))
  }

  ghost predicate DistinctKeys(fences: map<HwId, Fence>) {
    forall g, h :: g in fences && h in fences && g != h ==> fences[g].key != fences[h].key
  }

  /** The fence is found through its key. */
  predicate Found(x: Index, h: HwId)
    requires h in x.geofences
  {
    x.geofences[h].key in x.ids && x.ids[x.geofences[h].key] == h
  }

  /** The tables are inverse to each other but for fences of clients that have left. */
  ghost predicate Paired(s: State, gone: set<Client>) {
    && Consistent(s) && KeysOnce(s)
    && forall h :: h in s.index.geofences ==> s.index.geofences[h].key.client in gone || Found(s.index, h)
  }

  /** New keys are new. */
  ghost predicate FreshKeys(s: State, e: Event) {
    e.AddFence? ==> !InUse(s, e.key)
  }

  lemma AdditionKeepsPaired(s: State, gone: set<Client>, r: Request, ok: bool, h: HwId, pauseOk: bool)
    requires Paired(s, gone) && Adds(r) && !InUse(s, KeyOf(r))
    requires h !in s.engine && forall t :: t in s.pending ==> !About(s.pending[t], h)
    ensures Paired(Answered(s, r, ok, h, pauseOk), gone)
  {
    AdditionKeepsConsistent(s, r, ok, h, pauseOk);
  }

  lemma AnswerKeepsPaired(s: State, gone: set<Client>, r: Request, ok: bool, h: HwId, pauseOk: bool)
    requires Paired(s, gone) && !Adds(r)
    requires r.StopRemove? ==> forall k :: k in s.index.ids ==> s.index.ids[k] != r.hwId
    ensures Paired(Answered(s, r, ok, h, pauseOk), gone)
  {
    AnswerKeepsConsistent(s, r, ok, h, pauseOk);
    AnswerKeepsKeys(s, r, ok, h, pauseOk);
    StillOnce(s, Answered(s, r, ok, h, pauseOk));
  }

  lemma AnswerKeepsKeys(s: State, r: Request, ok: bool, h: HwId, pauseOk: bool)
    requires !Adds(r)
    ensures var s' := Answered(s, r, ok, h, pauseOk);
      && s'.pending == s.pending
      && forall g :: g in s'.index.geofences ==> g in s.index.geofences && s'.index.geofences[g].key == s.index.geofences[g].key
  {
  }

  lemma StillOnce(s: State, s': State)
    requires KeysOnce(s) && s'.pending == s.pending
    requires forall g :: g in s'.index.geofences ==> g in s.index.geofences && s'.index.geofences[g].key == s.index.geofences[g].key
    ensures KeysOnce(s')
  {
  }

  lemma WithoutTicket(s: State, gone: set<Client>, ticket: nat)
    requires Paired(s, gone) && ticket in s.pending
    ensures Paired(s.(pending := s.pending - {ticket}), gone)
    ensures Adds(s.pending[ticket]) ==> !InUse(s.(pending := s.pending - {ticket}), KeyOf(s.pending[ticket]))
  {
  }

  /** A request after a restart was there before or brings back a fence. */
  ghost predicate FromBefore(s: State, order: seq<HwId>, r: State, t: nat)
    requires t in r.pending
  {
    if t < s.next then t in s.pending && r.pending[t] == s.pending[t]
    else t - s.next < |order| && order[t - s.next] in s.index.geofences
         && r.pending[t] == ReAdd(s.index.geofences[order[t - s.next]])
  }

  lemma RestartFromBefore(s: State, order: seq<HwId>, t: nat)
    requires forall h :: h in order ==> h in s.index.geofences
    requires (t in s.pending ==> t < s.next) && t in Restarted(s, order).pending
    ensures FromBefore(s, order, Restarted(s, order), t)
  {
    assert t !in s.pending ==> t in Tickets(s.next, |order|);
  }

  lemma RestartAddsApart(s: State, gone: set<Client>, order: seq<HwId>, t: nat, u: nat)
    requires Paired(s, gone) && Enumerates(order, s.index.geofences.Keys) && s.index.geofences != map[] && t != u
    requires var p := Restarted(s, order).pending; t in p && u in p && Adds(p[t]) && Adds(p[u])
    ensures var p := Restarted(s, order).pending; KeyOf(p[t]) != KeyOf(p[u])
  {
    RestartFromBefore(s, order, t);
    RestartFromBefore(s, order, u);
    assert t - s.next != u - s.next;
  }

  lemma RestartKeepsPaired(s: State, gone: set<Client>, order: seq<HwId>)
    requires Paired(s, gone) && Enumerates(order, s.index.geofences.Keys)
    ensures Paired(Restarted(s, order), gone)
  {
    var r := Restarted(s, order);
    StepKeepsConsistent(s, Restart(order));
    if s.index.geofences != map[] {
      forall t, u | t in r.pending && u in r.pending && t != u && Adds(r.pending[t]) && Adds(r.pending[u])
        ensures KeyOf(r.pending[t]) != KeyOf(r.pending[u])
      {
        RestartAddsApart(s, gone, order, t, u);
      }
    }
  }

  /** A client that leaves takes its ids along; nobody else's fences lose theirs. */
  lemma StopKeepsPaired(s: State, gone: set<Client>, client: Client, keys: seq<Key>)
    requires Paired(s, gone) && Enumerates(keys, s.index.ids.Keys)
    ensures Paired(Stopped(s, client, keys), gone + {client})
  {
    var r := Stopped(s, client, keys);
    StopKeepsConsistent(s, client, keys);
    StopTakesIds(s, client, keys);
    StopKeepsFences(s, client, keys);
    forall t | t in r.pending ensures (t in s.pending && r.pending[t] == s.pending[t]) || r.pending[t].StopRemove? {
      StopOnlyAsks(s, client, keys, t);
    }
  }

  lemma StopOnlyAsks(s: State, client: Client, keys: seq<Key>, t: nat)
    requires Walkable(s, keys) && t in Stopped(s, client, keys).pending
    ensures var r := Stopped(s, client, keys);
      (t in s.pending && r.pending[t] == s.pending[t]) || r.pending[t].StopRemove?
    decreases keys
  {
    if keys != [] {
      WalkOn(s, client, keys);
      StopOnlyAsks(if keys[0].client != client then s else FrontStopped(s, keys), client, keys[1..], t);
    }
  }

  function Gone(gone: set<Client>, e: Event): set<Client> {
    if e.StopClient? then gone + {e.client} else gone
  }

  lemma StepKeepsPaired(s: State, gone: set<Client>, e: Event)
    requires Paired(s, gone) && Possible(s, e) && FairEngine(s, e) && FreshKeys(s, e)
    ensures Paired(Step(s, e), Gone(gone, e))
  {
    match e
    case Answer(ticket, ok, h, pauseOk) =>
      var rest, r := s.(pending := s.pending - {ticket}), s.pending[ticket];
      WithoutTicket(s, gone, ticket);
      if !Adds(r) {
        AnswerKeepsPaired(rest, gone, r, ok, h, pauseOk);
      } else if ok {
        AdditionKeepsPaired(rest, gone, r, ok, h, pauseOk);
      }
    case Restart(order) => RestartKeepsPaired(s, gone, order);
    case StopClient(client, keys) => StopKeepsPaired(s, gone, client, keys);
    case _ => StepKeepsConsistent(s, e);
  }

  ghost predicate FreshRun(events: seq<Event>)
    requires PossibleRun(events)
  {
    events == [] ||
      (FreshRun(events[..|events| - 1]) && FreshKeys(Run(events[..|events| - 1]), events[|events| - 1]))
  }

  /** The clients that have left in the run. */
  function Left(events: seq<Event>): set<Client> {
    if events == [] then {} else Gone(Left(events[..|events| - 1]), events[|events| - 1])
  }

  /** In every run with fresh keys, through failed requests, clients that leave and engine
      restarts at any moment, each key leads to its fence and each fence is found through its
      key, unless its client has left. */
  lemma {:induction false} TablesStayInverse(events: seq<Event>)
    requires PossibleRun(events) && FairRun(events) && FreshRun(events)
    ensures Paired(Run(events), Left(events))
    ensures Left(events) == {} ==> Inverse(Run(events).index)
  {
    if events != [] {
      var before := events[..|events| - 1];
      TablesStayInverse(before);
      StepKeepsPaired(Run(before), Left(before), events[|events| - 1]);
    }
  }

  // ------------------------------------------------------------ a restart that succeeds

  /** What the index and the engine hold after saving the fences one after the other. */
  function Resaved(fences: seq<Fence>, names: seq<HwId>): (r: (Index, map<HwId, bool>))
    requires |names| == |fences|
  {
    if fences == [] then (Index(map[], map[]), map[])
    else
      var n := |fences| - 1;
      var (x, engine) := Resaved(fences[..n], names[..n]);
      (Saved(x, fences[n].key, fences[n].options, fences[n].info, names[n]), engine[names[n] := fences[n].paused])
  }

  /** The engine has the fence as it was; the index has it but for the paused flag. */
  ghost predicate Back(f: Fence, h: HwId, x: Index, engine: map<HwId, bool>) {
    && h in x.geofences && x.geofences[h] == f.(paused := false)
    && h in engine && engine[h] == f.paused
  }

  ghost predicate KeysApart(fences: seq<Fence>) {
    forall i, j :: 0 <= i < j < |fences| ==> fences[i].key != fences[j].key
  }

  lemma {:induction false} ResavedName(fences: seq<Fence>, names: seq<HwId>, h: HwId)
    requires |names| == |fences|
    ensures h in Resaved(fences, names).0.geofences <==> exists j :: 0 <= j < |names| && names[j] == h
  {
    if fences != [] {
      var n := |fences| - 1;
      ResavedName(fences[..n], names[..n], h);
      assert forall j :: 0 <= j < n ==> names[..n][j] == names[j];
    }
  }

  lemma {:induction false} ResavedKey(fences: seq<Fence>, names: seq<HwId>, k: Key) returns (j: nat)
    requires |names| == |fences| && k in Resaved(fences, names).0.ids
    ensures j < |fences| && fences[j].key == k && Resaved(fences, names).0.ids[k] == names[j]
  {
    var n := |fences| - 1;
    if fences[n].key == k {
      j := n;
    } else {
      j := ResavedKey(fences[..n], names[..n], k);
    }
  }

  lemma {:induction false} ResavedBack(fences: seq<Fence>, names: seq<HwId>, j: nat)
    requires |names| == |fences| && Distinct(names) && KeysApart(fences) && j < |fences|
    ensures var (x, engine) := Resaved(fences, names);
      Back(fences[j], names[j], x, engine) && fences[j].key in x.ids && x.ids[fences[j].key] == names[j]
  {
    var n := |fences| - 1;
    if j < n {
      ResavedBack(fences[..n], names[..n], j);
      assert names[j] != names[n] && fences[j].key != fences[n].key;
    }
  }

  /** The fences are back under the names, and nothing else is there. */
  ghost predicate Rebuilt(fences: seq<Fence>, names: seq<HwId>, x: Index, engine: map<HwId, bool>) {
    && |names| == |fences| && Inverse(x)
    && (forall h :: h in x.geofences <==> h in names)
    && (forall j :: 0 <= j < |fences| ==> Back(fences[j], names[j], x, engine))
  }

  lemma ResavedRebuilds(fences: seq<Fence>, names: seq<HwId>)
    requires |names| == |fences| && Distinct(names) && KeysApart(fences)
    ensures Rebuilt(fences, names, Resaved(fences, names).0, Resaved(fences, names).1)
  {
    var (x, engine) := Resaved(fences, names);
    forall h ensures h in x.geofences <==> h in names { ResavedName(fences, names, h); }
    forall j | 0 <= j < |fences|
      ensures Back(fences[j], names[j], x, engine) && fences[j].key in x.ids && x.ids[fences[j].key] == names[j]
    {
      ResavedBack(fences, names, j);
    }
    forall k | k in x.ids ensures x.ids[k] in x.geofences && x.geofences[x.ids[k]].key == k {
      var j := ResavedKey(fences, names, k);
      assert Back(fences[j], names[j], x, engine);
    }
  }

  /** The restarted fences in the order in which their requests are answered. */
  function InTurn(s: State, order: seq<HwId>, turns: seq<nat>): (fences: seq<Fence>)
    requires (forall h :: h in order ==> h in s.index.geofences) && forall j :: 0 <= j < |turns| ==> turns[j] < |order|
  {
    seq(|turns|, j requires 0 <= j < |turns| => s.index.geofences[order[turns[j]]])
  }

  /** A restart whose requests go out in `order`, and the positive answers to them: the j-th
      answer is to the request at place `turns[j]` and gives the fence the id `names[j]`. */
  function Replayed(s: State, order: seq<HwId>, turns: seq<nat>, names: seq<HwId>): State
    requires (forall h :: h in order ==> h in s.index.geofences) && |names| == |turns|
  {
    if turns == [] then Restarted(s, order)
    else
      var n := |turns| - 1;
      Acknowledged(Replayed(s, order, turns[..n], names[..n]), s.next + turns[n], true, names[n], true)
  }

  ghost predicate StillSent(s: State, order: seq<HwId>, turns: seq<nat>, r: State)
    requires forall h :: h in order ==> h in s.index.geofences
  {
    forall i :: 0 <= i < |order| && i !in turns ==> SentAt(s, order, i, r)
  }

  ghost predicate SentAt(s: State, order: seq<HwId>, i: nat, r: State)
    requires i < |order| && order[i] in s.index.geofences
  {
    s.next + i in r.pending && r.pending[s.next + i] == ReAdd(s.index.geofences[order[i]])
  }

  lemma {:induction false} ReplayResaves(s: State, order: seq<HwId>, turns: seq<nat>, names: seq<HwId>)
    requires (forall h :: h in order ==> h in s.index.geofences) && |names| == |turns|
    requires s.index.geofences == map[] ==> s.index.ids == map[]
    requires Distinct(turns) && forall j :: 0 <= j < |turns| ==> turns[j] < |order|
    ensures var r := Replayed(s, order, turns, names);
      (r.index, r.engine) == Resaved(InTurn(s, order, turns), names) && StillSent(s, order, turns, r)
  {
    var fences := InTurn(s, order, turns);
    if turns == [] {
      RequestsOut(s, order);
    } else {
      var n := |turns| - 1;
      ReplayResaves(s, order, turns[..n], names[..n]);
      assert fences[..n] == InTurn(s, order, turns[..n]);
      assert turns[n] !in turns[..n];
      var r := Replayed(s, order, turns[..n], names[..n]);
      StillSentNext(s, order, turns, r, Acknowledged(r, s.next + turns[n], true, names[n], true));
    }
  }

  lemma RequestsOut(s: State, order: seq<HwId>)
    requires forall h :: h in order ==> h in s.index.geofences
    ensures StillSent(s, order, [], Restarted(s, order))
  {
    var r := Restarted(s, order);
    forall i | 0 <= i < |order| ensures SentAt(s, order, i, r) {
      assert order[i] in order && s.next + i in Tickets(s.next, |order|);
    }
  }

  lemma StillSentNext(s: State, order: seq<HwId>, turns: seq<nat>, r: State, rest: State)
    requires (forall h :: h in order ==> h in s.index.geofences) && turns != []
    requires StillSent(s, order, turns[..|turns| - 1], r)
    requires rest.pending == r.pending - {s.next + turns[|turns| - 1]}
    ensures StillSent(s, order, turns, rest)
  {
    var n := |turns| - 1;
    forall i | 0 <= i < |order| && i !in turns ensures SentAt(s, order, i, rest) {
      assert i !in turns[..n] && i != turns[n];
      assert SentAt(s, order, i, r);
    }
  }

  /** All requests of a restart are answered positively, under pairwise different new ids. */
  ghost predicate FullReplay(s: State, order: seq<HwId>, turns: seq<nat>, names: seq<HwId>) {
    && Consistent(s) && Enumerates(order, s.index.geofences.Keys) && DistinctKeys(s.index.geofences)
    && |names| == |turns| == |order| && Distinct(names) && Distinct(turns)
    && forall j :: 0 <= j < |turns| ==> turns[j] < |order|
  }

  lemma FullReplayRebuilds(s: State, order: seq<HwId>, turns: seq<nat>, names: seq<HwId>)
    requires FullReplay(s, order, turns, names)
    ensures var r := Replayed(s, order, turns, names); Rebuilt(InTurn(s, order, turns), names, r.index, r.engine)
  {
    var fences := InTurn(s, order, turns);
    assert s.index.geofences == map[] ==> s.index.ids.Keys == {};
    forall i, j | 0 <= i < j < |fences| ensures fences[i].key != fences[j].key {
      assert turns[i] != turns[j] && order[turns[i]] != order[turns[j]];
    }
    ReplayResaves(s, order, turns, names);
    ResavedRebuilds(fences, names);
  }

  /** A fully successful restart: each fence is back exactly, under its new hardware id, and
      the tables are inverse even if they were not before. */
  lemma FullRestart(s: State, order: seq<HwId>, turns: seq<nat>, names: seq<HwId>)
    requires FullReplay(s, order, turns, names)
    ensures var s' := Replayed(s, order, turns, names);
      && Inverse(s'.index)
      && |s'.index.geofences| == |s.index.geofences|
      && (forall j :: 0 <= j < |order| ==>
            names[j] in s'.index.geofences && s'.index.geofences[names[j]] == s.index.geofences[order[turns[j]]].(paused := false))
  {
    var s', fences := Replayed(s, order, turns, names), InTurn(s, order, turns);
    FullReplayRebuilds(s, order, turns, names);
    assert forall j :: 0 <= j < |order| ==> Back(fences[j], names[j], s'.index, s'.engine);
    DistinctCount(names, s'.index.geofences.Keys);
    DistinctCount(order, s.index.geofences.Keys);
  }

  /** And then the recorded paused flags are right exactly when no fence was paused. */
  lemma RestartForgetsPauseExactly(s: State, order: seq<HwId>, turns: seq<nat>, names: seq<HwId>)
    requires FullReplay(s, order, turns, names)
    ensures Agree(Replayed(s, order, turns, names)) <==> forall h :: h in s.index.geofences ==> !s.index.geofences[h].paused
  {
    var s', fences := Replayed(s, order, turns, names), InTurn(s, order, turns);
    FullReplayRebuilds(s, order, turns, names);
    if Agree(s') {
      forall h | h in s.index.geofences ensures !s.index.geofences[h].paused {
        var i :| 0 <= i < |order| && order[i] == h;
        Pigeonhole(turns, i);
        var j :| 0 <= j < |turns| && turns[j] == i;
        assert Back(fences[j], names[j], s'.index, s'.engine);
      }
    } else {
      var h :| h in s'.index.geofences && h in s'.engine && s'.index.geofences[h].paused != s'.engine[h];
      var j :| 0 <= j < |names| && names[j] == h;
      assert Back(fences[j], names[j], s'.index, s'.engine) && order[turns[j]] in order;
    }
  }

  lemma {:induction false} DistinctCount<T(!new)>(s: seq<T>, all: set<T>)
    requires Distinct(s) && forall x :: x in all <==> x in s
    ensures |s| == |all|
  {
    if s == [] {
      assert all == {};
    } else {
      var n := |s| - 1;
      assert s == s[..n] + [s[n]];
      DistinctCount(s[..n], all - {s[n]});
    }
  }

  lemma Pigeonhole(turns: seq<nat>, i: nat)
    requires Distinct(turns) && (forall j :: 0 <= j < |turns| ==> turns[j] < |turns|) && i < |turns|
    ensures i in turns
  {
    var seen, all := (set t | t in turns), Tickets(0, |turns|);
    DistinctCount(turns, seen);
    TicketCount(0, |turns|);
    assert seen <= all;
    EqualByCount(seen, all);
  }

  lemma {:induction false} TicketCount(first: nat, count: nat)
    ensures |Tickets(first, count)| == count
  {
    if count > 0 { TicketCount(first, count - 1); }
  }

  lemma EqualByCount<T>(a: set<T>, b: set<T>)
    requires a <= b && |a| == |b|
    ensures a == b
  {
    assert b == a + (b - a);
  }

  // ------------------------------------------------------------ the paused flag

  /** Recorded and confirmed paused flags agree. */
  ghost predicate Agree(s: State) {
    forall h :: h in s.index.geofences && h in s.engine ==> s.index.geofences[h].paused == s.engine[h]
  }

  /** The engine confirms a fence that a restart brought back paused. */
  predicate LosesPause(s: State, e: Event) {
    e.Answer? && e.ticket in s.pending && e.ok && e.pauseOk && s.pending[e.ticket].ReAdd? && s.pending[e.ticket].fence.paused
  }

  lemma {:induction false} StopKeepsFences(s: State, client: Client, keys: seq<Key>)
    requires (forall k :: k in keys ==> k in s.index.ids) && Distinct(keys)
    ensures Stopped(s, client, keys).index.geofences == s.index.geofences && Stopped(s, client, keys).engine == s.engine
    decreases keys
  {
    if keys == [] {
    } else if keys[0].client != client {
      StopKeepsFences(s, client, keys[1..]);
    } else {
      var h := s.index.ids[keys[0]];
      StopKeepsFences(Sent(s.(index := s.index.(ids := s.index.ids - {keys[0]})), StopRemove(h)), client, keys[1..]);
    }
  }

  lemma AnswerKeepsAgreement(s: State, r: Request, ok: bool, h: HwId, pauseOk: bool)
    requires Agree(s)
    ensures Agree(Answered(s, r, ok, h, pauseOk)) <==> !(ok && pauseOk && r.ReAdd? && r.fence.paused)
  {
    var s' := Answered(s, r, ok, h, pauseOk);
    if ok && Adds(r) {
      assert h in s'.index.geofences && h in s'.engine;
    }
  }

  /** Agreement is lost by exactly those answers. */
  lemma AgreementLostExactly(s: State, e: Event)
    requires Agree(s) && Possible(s, e)
    ensures Agree(Step(s, e)) <==> !LosesPause(s, e)
  {
    match e
    case StopClient(client, keys) => StopKeepsFences(s, client, keys);
    case Answer(ticket, ok, h, pauseOk) =>
      AnswerKeepsAgreement(s.(pending := s.pending - {ticket}), s.pending[ticket], ok, h, pauseOk);
    case _ =>
  }

  ghost predicate KeepsPauses(events: seq<Event>)
    requires PossibleRun(events)
  {
    events == [] ||
      (KeepsPauses(events[..|events| - 1]) && !LosesPause(Run(events[..|events| - 1]), events[|events| - 1]))
  }

  /** So in every run without one, pausing and resuming keep index and engine together. */
  lemma {:induction false} PausesStayRight(events: seq<Event>)
    requires PossibleRun(events) && KeepsPauses(events)
    ensures Agree(Run(events))
  {
    if events != [] {
      PausesStayRight(events[..|events| - 1]);
      AgreementLostExactly(Run(events[..|events| - 1]), events[|events| - 1]);
    }
  }

  // ------------------------------------------------------------ a client that leaves

  /** The request at `t` is to remove the fence of one of the client's keys. */
  ghost predicate AsksFor(s: State, r: State, client: Client, keys: seq<Key>, t: nat, k: Key) {
    && k in keys && k.client == client && k in s.index.ids
    && s.next <= t < r.next && t in r.pending && r.pending[t] == StopRemove(s.index.ids[k])
  }

  /** The state in which the walk goes on after the client's key at its front. */
  function FrontStopped(s: State, keys: seq<Key>): State
    requires keys != [] && keys[0] in s.index.ids
  {
    Sent(s.(index := s.index.(ids := s.index.ids - {keys[0]})), StopRemove(s.index.ids[keys[0]]))
  }

  ghost predicate Walkable(s: State, keys: seq<Key>) {
    && (forall k :: k in keys ==> k in s.index.ids) && Distinct(keys)
    && forall t :: t in s.pending ==> t < s.next
  }

  lemma WalkOn(s: State, client: Client, keys: seq<Key>)
    requires Walkable(s, keys) && keys != []
    ensures Walkable(s, keys[1..]) && Walkable(FrontStopped(s, keys), keys[1..])
    ensures keys[0] !in keys[1..] && forall k :: k in keys <==> k == keys[0] || k in keys[1..]
  {
    assert keys == [keys[0]] + keys[1..];
  }

  /** Stopping takes exactly the client's ids out and keeps the requests that were there. */
  lemma {:induction false} StopTakesIds(s: State, client: Client, keys: seq<Key>)
    requires Walkable(s, keys)
    ensures var r := Stopped(s, client, keys);
      && s.next <= r.next
      && (forall k :: k in r.index.ids <==> k in s.index.ids && !(k in keys && k.client == client))
      && (forall k :: k in r.index.ids ==> r.index.ids[k] == s.index.ids[k])
      && (forall t :: t in s.pending ==> t in r.pending && r.pending[t] == s.pending[t])
    decreases keys
  {
    if keys != [] {
      WalkOn(s, client, keys);
      StopTakesIds(if keys[0].client != client then s else FrontStopped(s, keys), client, keys[1..]);
    }
  }

  /** Each request that stopping sends is to remove a fence of the client. */
  lemma {:induction false} StopAskedFor(s: State, client: Client, keys: seq<Key>, t: nat) returns (k: Key)
    requires Walkable(s, keys) && s.next <= t < Stopped(s, client, keys).next
    ensures AsksFor(s, Stopped(s, client, keys), client, keys, t, k)
    decreases keys
  {
    WalkOn(s, client, keys);
    if keys[0].client != client {
      k := StopAskedFor(s, client, keys[1..], t);
    } else if t == s.next {
      StopTakesIds(FrontStopped(s, keys), client, keys[1..]);
      k := keys[0];
    } else {
      k := StopAskedFor(FrontStopped(s, keys), client, keys[1..], t);
    }
  }

  /** And there is one for each of the client's keys. */
  lemma {:induction false} StopAsks(s: State, client: Client, keys: seq<Key>, k: Key) returns (t: nat)
    requires Walkable(s, keys) && k in keys && k.client == client
    ensures AsksFor(s, Stopped(s, client, keys), client, keys, t, k)
    decreases keys
  {
    WalkOn(s, client, keys);
    if keys[0].client != client {
      t := StopAsks(s, client, keys[1..], k);
    } else if k == keys[0] {
      StopTakesIds(FrontStopped(s, keys), client, keys[1..]);
      t := s.next;
    } else {
      t := StopAsks(FrontStopped(s, keys), client, keys[1..], k);
    }
  }

  /** The positive answers to some requests, one after the other. */
  function AllAnswered(s: State, tickets: seq<nat>): State {
    if tickets == [] then s
    else Acknowledged(AllAnswered(s, tickets[..|tickets| - 1]), tickets[|tickets| - 1], true, 0, false)
  }

  lemma {:induction false} RemovalsAnswered(s: State, tickets: seq<nat>)
    requires Distinct(tickets) && forall t :: t in tickets ==> t in s.pending && s.pending[t].StopRemove?
    ensures var r := AllAnswered(s, tickets);
      && r.index.ids == s.index.ids
      && (forall t :: t in s.pending && t !in tickets ==> t in r.pending && r.pending[t] == s.pending[t])
      && (forall h :: h in r.index.geofences <==> h in s.index.geofences && forall t :: t in tickets ==> s.pending[t] != StopRemove(h))
      && (forall h :: h in r.index.geofences ==> r.index.geofences[h] == s.index.geofences[h])
  {
    if tickets != [] {
      var n := |tickets| - 1;
      assert tickets == tickets[..n] + [tickets[n]] && tickets[n] !in tickets[..n];
      RemovalsAnswered(s, tickets[..n]);
    }
  }

  /** A client that leaves, once the engine has confirmed all removals in any order, has left
      no trace in either table, and every other client's fences are as they were. */
  lemma StopLeavesNoTrace(s: State, client: Client, keys: seq<Key>, tickets: seq<nat>)
    requires Consistent(s) && Inverse(s.index) && Enumerates(keys, s.index.ids.Keys)
    requires var r := Stopped(s, client, keys); Distinct(tickets) && forall t :: t in tickets <==> s.next <= t < r.next
    ensures var x := AllAnswered(Stopped(s, client, keys), tickets).index;
      && (forall k :: k in x.ids <==> k in s.index.ids && k.client != client)
      && (forall k :: k in x.ids ==> x.ids[k] == s.index.ids[k])
      && (forall h :: h in x.geofences <==> h in s.index.geofences && s.index.geofences[h].key.client != client)
      && (forall h :: h in x.geofences ==> x.geofences[h] == s.index.geofences[h])
  {
    var r := Stopped(s, client, keys);
    StopTakesIds(s, client, keys);
    StopKeepsFences(s, client, keys);
    forall t | t in tickets ensures t in r.pending && r.pending[t].StopRemove? {
      var k := StopAskedFor(s, client, keys, t);
    }
    RemovalsAnswered(r, tickets);
    forall h | h in s.index.geofences
      ensures (forall t :: t in tickets ==> r.pending[t] != StopRemove(h)) <==> s.index.geofences[h].key.client != client
    {
      RemovedIfOwn(s, client, keys, tickets, h);
    }
  }

  lemma RemovedIfOwn(s: State, client: Client, keys: seq<Key>, tickets: seq<nat>, h: HwId)
    requires Walkable(s, keys) && Inverse(s.index) && (forall k :: k in s.index.ids ==> k in keys) && h in s.index.geofences
    requires var r := Stopped(s, client, keys);
      forall t :: t in tickets <==> s.next <= t < r.next
    ensures var r := Stopped(s, client, keys);
      (exists t :: t in tickets && t in r.pending && r.pending[t] == StopRemove(h)) <==> s.index.geofences[h].key.client == client
  {
    var r, k := Stopped(s, client, keys), s.index.geofences[h].key;
    if k.client == client {
      var t := StopAsks(s, client, keys, k);
      assert t in tickets;
    }
    if t :| t in tickets && t in r.pending && r.pending[t] == StopRemove(h) {
      var j := StopAskedFor(s, client, keys, t);
      assert s.index.geofences[h].key == j;
    }
  }

  // ------------------------------------------------------------ and stays away

  ghost predicate NoIds(s: State, c: Client) {
    forall k :: k in s.index.ids ==> k.client != c
  }

  ghost predicate NoFences(s: State, c: Client) {
    forall h :: h in s.index.geofences ==> s.index.geofences[h].key.client != c
  }

  /** The engine confirms an addition of the client. */
  predicate BringsBack(s: State, e: Event, c: Client) {
    e.Answer? && e.ok && e.ticket in s.pending && Adds(s.pending[e.ticket]) && KeyOf(s.pending[e.ticket]).client == c
  }

  lemma AnswerBrings(s: State, r: Request, ok: bool, h: HwId, pauseOk: bool, c: Client)
    requires NoIds(s, c)
    ensures var s' := Answered(s, r, ok, h, pauseOk);
      && (NoIds(s', c) <==> !(ok && Adds(r) && KeyOf(r).client == c))
      && (NoFences(s, c) ==> (NoFences(s', c) <==> NoIds(s', c)))
  {
    var s' := Answered(s, r, ok, h, pauseOk);
    if ok && Adds(r) {
      assert KeyOf(r) in s'.index.ids && h in s'.index.geofences;
    }
  }

  /** Once no id of a client is left, that stays so, and so does its having no fence, until
      exactly an addition of the client is confirmed. */
  lemma ReturnsExactly(s: State, e: Event, c: Client)
    requires Consistent(s) && Possible(s, e) && NoIds(s, c)
    ensures NoIds(Step(s, e), c) <==> !BringsBack(s, e, c)
    ensures NoFences(s, c) ==> (NoFences(Step(s, e), c) <==> !BringsBack(s, e, c))
  {
    match e
    case StopClient(client, keys) =>
      StopTakesIds(s, client, keys);
      StopKeepsFences(s, client, keys);
    case Answer(ticket, ok, h, pauseOk) =>
      AnswerBrings(s.(pending := s.pending - {ticket}), s.pending[ticket], ok, h, pauseOk, c);
    case _ =>
  }

  /** A request to remove the fence is on its way. */
  ghost predicate Asked(s: State, h: HwId) {
    exists t :: t in s.pending && s.pending[t] == StopRemove(h)
  }

  /** No id of the client is left, and for each of its fences the removal is on its way. */
  ghost predicate Leaving(s: State, c: Client) {
    && NoIds(s, c)
    && forall h :: h in s.index.geofences && s.index.geofences[h].key.client == c ==> Asked(s, h)
  }

  /** The engine refuses the only removal that is on its way for a fence of the client. */
  ghost predicate RefusesRemoval(s: State, e: Event, c: Client) {
    && e.Answer? && !e.ok && e.ticket in s.pending && s.pending[e.ticket].StopRemove?
    && var h := s.pending[e.ticket].hwId;
      && h in s.index.geofences && s.index.geofences[h].key.client == c
      && forall t :: t in s.pending && s.pending[t] == StopRemove(h) ==> t == e.ticket
  }

  lemma StillAsked(s: State, s': State, h: HwId)
    requires Asked(s, h) && forall t :: t in s.pending ==> t in s'.pending && s'.pending[t] == s.pending[t]
    ensures Asked(s', h)
  {
    var t :| t in s.pending && s.pending[t] == StopRemove(h);
    assert s'.pending[t] == StopRemove(h);
  }

  /** A fence of the client is still there after an answer that brings nothing back only if it
      was there before, and the answer did not confirm its removal. */
  lemma AnsweredFence(s: State, r: Request, ok: bool, h: HwId, pauseOk: bool, c: Client, g: HwId)
    requires !(ok && Adds(r) && KeyOf(r).client == c)
    requires var x := Answered(s, r, ok, h, pauseOk).index; g in x.geofences && x.geofences[g].key.client == c
    ensures g in s.index.geofences && s.index.geofences[g].key.client == c && !(ok && r == StopRemove(g))
  {
  }

  lemma AnswerLeaves(s: State, ticket: nat, ok: bool, h: HwId, pauseOk: bool, c: Client)
    requires ticket in s.pending && Leaving(s, c)
    ensures var e := Answer(ticket, ok, h, pauseOk);
      Leaving(Acknowledged(s, ticket, ok, h, pauseOk), c) <==> !BringsBack(s, e, c) && !RefusesRemoval(s, e, c)
  {
    var e, s', rest, r := Answer(ticket, ok, h, pauseOk), Acknowledged(s, ticket, ok, h, pauseOk), s.(pending := s.pending - {ticket}), s.pending[ticket];
    AnswerBrings(rest, r, ok, h, pauseOk, c);
    if !BringsBack(s, e, c) && !RefusesRemoval(s, e, c) {
      forall g | g in s'.index.geofences && s'.index.geofences[g].key.client == c ensures Asked(s', g) {
        AnsweredFence(rest, r, ok, h, pauseOk, c, g);
        var t :| t in s.pending && s.pending[t] == StopRemove(g) && t != ticket;
        assert s'.pending[t] == StopRemove(g);
      }
    }
  }

  /** A client stays on its way out until exactly an addition of it is confirmed or a removal
      refused. */
  lemma LeavingExactly(s: State, e: Event, c: Client)
    requires Consistent(s) && Possible(s, e) && Leaving(s, c)
    ensures Leaving(Step(s, e), c) <==> !BringsBack(s, e, c) && !RefusesRemoval(s, e, c)
  {
    var s' := Step(s, e);
    match e
    case Answer(ticket, ok, h, pauseOk) => AnswerLeaves(s, ticket, ok, h, pauseOk, c);
    case Restart(order) =>
    case StopClient(client, keys) =>
      StopTakesIds(s, client, keys);
      StopKeepsFences(s, client, keys);
      forall h | h in s.index.geofences && s.index.geofences[h].key.client == c ensures Asked(s', h) {
        StillAsked(s, s', h);
      }
    case _ =>
      forall h | h in s.index.geofences && s.index.geofences[h].key.client == c ensures Asked(s', h) {
        StillAsked(s, s', h);
      }
  }

  lemma StopStartsLeaving(s: State, gone: set<Client>, c: Client, keys: seq<Key>)
    requires Paired(s, gone) && c !in gone && Enumerates(keys, s.index.ids.Keys)
    ensures Leaving(Stopped(s, c, keys), c)
  {
    var r := Stopped(s, c, keys);
    StopTakesIds(s, c, keys);
    StopKeepsFences(s, c, keys);
    forall h | h in r.index.geofences && r.index.geofences[h].key.client == c ensures Asked(r, h) {
      var t := StopAsks(s, c, keys, s.index.geofences[h].key);
    }
  }

  /** After its first `n` events the client was never brought back and no removal refused. */
  ghost predicate Undisturbed(events: seq<Event>, n: nat, c: Client)
    requires PossibleRun(events)
  {
    |events| <= n ||
      var before, e := events[..|events| - 1], events[|events| - 1];
      Undisturbed(before, n, c) && !BringsBack(Run(before), e, c) && !RefusesRemoval(Run(before), e, c)
  }

  /** After each event from the `n`-th on the client is on its way out. */
  ghost predicate LeavingSince(events: seq<Event>, n: nat, c: Client)
    requires PossibleRun(events)
  {
    |events| < n || (Leaving(Run(events), c) && (|events| == n || LeavingSince(events[..|events| - 1], n, c)))
  }

  /** In whatever run goes on after the stop of a client: its fences are there only as long as
      their removal is on its way, and none of its keys is, exactly as long as no addition of
      the client is confirmed and no removal refused; and then neither table holds anything of
      the client once no removal is on its way. */
  lemma {:induction false} LeavesNoTraceExactly(events: seq<Event>, n: nat, c: Client, keys: seq<Key>)
    requires PossibleRun(events) && FairRun(events) && FreshRun(events)
    requires 0 < n <= |events| && events[n - 1] == StopClient(c, keys) && c !in Left(events[..n - 1])
    ensures LeavingSince(events, n, c) <==> Undisturbed(events, n, c)
    ensures Undisturbed(events, n, c) && (forall t :: t in Run(events).pending ==> !Run(events).pending[t].StopRemove?) ==>
      NoIds(Run(events), c) && NoFences(Run(events), c)
  {
    var before, e := events[..|events| - 1], events[|events| - 1];
    if |events| == n {
      TablesStayInverse(before);
      StopStartsLeaving(Run(before), Left(before), c, keys);
    } else {
      assert before[..n - 1] == events[..n - 1];
      LeavesNoTraceExactly(before, n, c, keys);
      IndexStaysConsistent(before);
      if Undisturbed(before, n, c) {
        LeavingExactly(Run(before), e, c);
      }
    }
  }

  // ------------------------------------------------------------ two clients that come back

  lemma RunSnoc(events: seq<Event>, e: Event)
    requires PossibleRun(events) && Possible(Run(events), e)
    ensures PossibleRun(events + [e]) && Run(events + [e]) == Step(Run(events), e)
    ensures FairRun(events + [e]) <==> FairRun(events) && FairEngine(Run(events), e)
    ensures FreshRun(events + [e]) <==> FreshRun(events) && FreshKeys(Run(events), e)
  {
    assert (events + [e])[..|events|] == events;
  }

  const KEY := Key(7, 1)
  const OPTIONS := Options(1, 2, 3)
  const INFO := Info(1.0, 2.0, 3.0)
  const FENCE := Fence(KEY, OPTIONS, INFO, false)

  lemma FenceAsked()
    ensures PossibleRun([AddFence(KEY, OPTIONS, INFO)])
    ensures var events := [AddFence(KEY, OPTIONS, INFO)];
      && FairRun(events) && FreshRun(events)
      && Run(events) == State(Index(map[], map[]), map[0 := Add(KEY, OPTIONS, INFO)], 1, map[])
  {
    RunSnoc([], AddFence(KEY, OPTIONS, INFO));
    assert [] + [AddFence(KEY, OPTIONS, INFO)] == [AddFence(KEY, OPTIONS, INFO)];
  }

  /** An addition that was on its way when the client left saves its fence again. */
  lemma LateAdditionReturns()
    ensures var events := [AddFence(KEY, OPTIONS, INFO)] + [StopClient(7, [])] + [Answer(0, true, 5, false)];
      && PossibleRun(events) && FairRun(events) && FreshRun(events)
      && Run(events).pending == map[] && Run(events).index == Index(map[5 := FENCE], map[KEY := 5])
  {
    var early := [AddFence(KEY, OPTIONS, INFO)];
    FenceAsked();
    RunSnoc(early, StopClient(7, []));
    RunSnoc(early + [StopClient(7, [])], Answer(0, true, 5, false));
  }

  lemma FenceAdded()
    ensures var events := [AddFence(KEY, OPTIONS, INFO)] + [Answer(0, true, 5, false)];
      && PossibleRun(events) && FairRun(events) && FreshRun(events)
      && Run(events) == State(Index(map[5 := FENCE], map[KEY := 5]), map[], 1, map[5 := false])
  {
    FenceAsked();
    RunSnoc([AddFence(KEY, OPTIONS, INFO)], Answer(0, true, 5, false));
  }

  const LEFT := State(Index(map[5 := FENCE], map[]), map[1 := StopRemove(5)], 2, map[5 := false])

  lemma FenceStopped()
    ensures var events := [AddFence(KEY, OPTIONS, INFO)] + [Answer(0, true, 5, false)] + [StopClient(7, [KEY])];
      PossibleRun(events) && FairRun(events) && FreshRun(events) && Run(events) == LEFT
  {
    var early := [AddFence(KEY, OPTIONS, INFO)] + [Answer(0, true, 5, false)];
    FenceAdded();
    RunSnoc(early, StopClient(7, [KEY]));
    assert [KEY][1..] == [] && FrontStopped(Run(early), [KEY]) == LEFT;
    assert Stopped(Run(early), 7, [KEY]) == Stopped(LEFT, 7, []) == LEFT;
  }

  const BOTH_SENT := State(Index(map[], map[]), map[1 := StopRemove(5), 2 := ReAdd(FENCE)], 3, map[])

  lemma LeftRestarts()
    ensures Enumerates([5], LEFT.index.geofences.Keys) && Restarted(LEFT, [5]) == BOTH_SENT
  {
    var geofences := map[5 := FENCE];
    assert LEFT.index.geofences == geofences;
    var r := ReAdds(geofences, 2, [5]);
    assert r.Keys == Tickets(2, 1) == {2};
    assert r[2] == ReAdd(FENCE);
  }

  lemma RestartedWhileLeaving()
    ensures var events := [AddFence(KEY, OPTIONS, INFO)] + [Answer(0, true, 5, false)] + [StopClient(7, [KEY])] + [Restart([5])];
      && PossibleRun(events) && FairRun(events) && FreshRun(events)
      && Run(events) == BOTH_SENT
  {
    var early := [AddFence(KEY, OPTIONS, INFO)] + [Answer(0, true, 5, false)] + [StopClient(7, [KEY])];
    FenceStopped();
    LeftRestarts();
    RunSnoc(early, Restart([5]));
  }

  /** And after an engine restart between a client's leaving and the removals' confirmation
      the departed client's fence is added again, for good. */
  lemma RestartReturns()
    ensures var events := [AddFence(KEY, OPTIONS, INFO)] + [Answer(0, true, 5, false)] + [StopClient(7, [KEY])]
        + [Restart([5])] + [Answer(1, true, 0, false)] + [Answer(2, true, 6, false)];
      && PossibleRun(events) && FairRun(events) && FreshRun(events)
      && Run(events).pending == map[] && Run(events).index == Index(map[6 := FENCE], map[KEY := 6])
  {
    var early := [AddFence(KEY, OPTIONS, INFO)] + [Answer(0, true, 5, false)] + [StopClient(7, [KEY])] + [Restart([5])];
    RestartedWhileLeaving();
    RunSnoc(early, Answer(1, true, 0, false));
    RunSnoc(early + [Answer(1, true, 0, false)], Answer(2, true, 6, false));
  }
}
