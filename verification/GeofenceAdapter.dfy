/** The geofence adapter as an object that changes its two tables in place, tied step by
    step to the state machine, and its breach reports. */
module GeofenceAdapter {
  import opened Common
  import opened Geofences

  /** What one client is told about a breach: its own ids of the fences concerned. */
  datatype Notification = Notification(client: Client, ids: seq<nat>)

  /** The ids of the client among the breached fences, in the order reported. */
  function Concerned(geofences: map<HwId, Fence>, hwIds: seq<HwId>, client: Client): seq<nat> {
    if hwIds == [] then []
    else
      var n := |hwIds| - 1;
      Concerned(geofences, hwIds[..n], client) +
        if hwIds[n] in geofences && geofences[hwIds[n]].key.client == client then [geofences[hwIds[n]].key.id] else []
  }

  /** One notification per client that has a callback and is concerned. */
  function Reports(geofences: map<HwId, Fence>, hwIds: seq<HwId>, clients: seq<Client>, listening: set<Client>): seq<Notification> {
    if clients == [] then []
    else
      var n := |clients| - 1;
      var ids := Concerned(geofences, hwIds, clients[n]);
      Reports(geofences, hwIds, clients[..n], listening) +
        if ids != [] && clients[n] in listening then [Notification(clients[n], ids)] else []
  }

  function Delivered(reports: seq<Notification>): nat {
    if reports == [] then 0 else Delivered(reports[..|reports| - 1]) + |reports[|reports| - 1].ids|
  }

  lemma DeliveredOneMore(reports: seq<Notification>, n: Notification)
    ensures Delivered(reports + [n]) == Delivered(reports) + |n.ids|
  {
    assert (reports + [n])[..|reports|] == reports;
  }

  /** How many breached fences are known and belong to one of the clients, if it listens. */
  function Due(geofences: map<HwId, Fence>, hwIds: seq<HwId>, clients: set<Client>): nat {
    if hwIds == [] then 0
    else
      var n := |hwIds| - 1;
      Due(geofences, hwIds[..n], clients) +
        if hwIds[n] in geofences && geofences[hwIds[n]].key.client in clients then 1 else 0
  }

  lemma {:induction false} DueGrows(geofences: map<HwId, Fence>, hwIds: seq<HwId>, clients: set<Client>, c: Client)
    requires c !in clients
    ensures Due(geofences, hwIds, clients + {c}) == Due(geofences, hwIds, clients) + |Concerned(geofences, hwIds, c)|
  {
    if hwIds != [] {
      DueGrows(geofences, hwIds[..|hwIds| - 1], clients, c);
    }
  }

  function Served(clients: seq<Client>, listening: set<Client>): set<Client> {
    set c | c in clients && c in listening
  }

  /** Nothing is lost and nothing is told twice: the ids delivered are as many as there are
      reported fences of clients that listen. */
  lemma {:induction false} EachBreachReportedOnce(geofences: map<HwId, Fence>, hwIds: seq<HwId>, clients: seq<Client>, listening: set<Client>)
    requires Distinct(clients)
    ensures Delivered(Reports(geofences, hwIds, clients, listening)) ==
            Due(geofences, hwIds, Served(clients, listening))
  {
    if clients == [] {
      NoneDue(geofences, hwIds);
      assert Served(clients, listening) == {};
    } else {
      var n := |clients| - 1;
      var early, c := clients[..n], clients[n];
      var reports := Reports(geofences, hwIds, early, listening);
      EachBreachReportedOnce(geofences, hwIds, early, listening);
      ServedOneMore(clients, listening);
      if c in listening {
        DueGrows(geofences, hwIds, Served(early, listening), c);
        DeliveredOneMore(reports, Notification(c, Concerned(geofences, hwIds, c)));
      }
      assert reports + [] == reports;
    }
  }

  lemma ServedOneMore(clients: seq<Client>, listening: set<Client>)
    requires Distinct(clients) && clients != []
    ensures var n := |clients| - 1;
      && clients[n] !in Served(clients[..n], listening)
      && Served(clients, listening) ==
         if clients[n] in listening then Served(clients[..n], listening) + {clients[n]} else Served(clients[..n], listening)
  {
    var n := |clients| - 1;
    assert clients == clients[..n] + [clients[n]];
  }

  lemma {:induction false} NoneDue(geofences: map<HwId, Fence>, hwIds: seq<HwId>)
    ensures Due(geofences, hwIds, {}) == 0
  {
    if hwIds != [] {
      NoneDue(geofences, hwIds[..|hwIds| - 1]);
    }
  }

  /** A client is told exactly of its own fences. */
  lemma {:induction false} ConcernedIsOwn(geofences: map<HwId, Fence>, hwIds: seq<HwId>, client: Client, id: nat)
    ensures id in Concerned(geofences, hwIds, client) <==>
            exists h :: h in hwIds && h in geofences && geofences[h].key == Key(client, id)
  {
    if hwIds != [] {
      var n := |hwIds| - 1;
      ConcernedIsOwn(geofences, hwIds[..n], client, id);
      assert hwIds == hwIds[..n] + [hwIds[n]];
    }
  }

  /** Each client that listens and is concerned gets exactly one report, with its ids; nobody else
      gets any. */
  lemma {:induction false} ReportsExactly(geofences: map<HwId, Fence>, hwIds: seq<HwId>, clients: seq<Client>, listening: set<Client>)
    requires Distinct(clients)
    ensures var reports := Reports(geofences, hwIds, clients, listening);
      && (forall i, j :: 0 <= i < j < |reports| ==> reports[i].client != reports[j].client)
      && (forall r :: r in reports ==> r.client in clients && r.client in listening && r.ids == Concerned(geofences, hwIds, r.client) != [])
      && (forall c :: c in clients && c in listening && Concerned(geofences, hwIds, c) != [] ==>
            Notification(c, Concerned(geofences, hwIds, c)) in reports)
  {
    if clients != [] {
      var n := |clients| - 1;
      var early, c := Reports(geofences, hwIds, clients[..n], listening), clients[n];
      ReportsExactly(geofences, hwIds, clients[..n], listening);
      assert clients == clients[..n] + [c] && c !in clients[..n];
      forall i | 0 <= i < |early| ensures early[i].client != c {
        assert early[i] in early;
      }
    }
  }

  /** A client's ids come in the order of the breached fences, one for each of its own. */
  lemma {:induction false} ConcernedInOrder(geofences: map<HwId, Fence>, a: seq<HwId>, b: seq<HwId>, client: Client)
    ensures Concerned(geofences, a + b, client) == Concerned(geofences, a, client) + Concerned(geofences, b, client)
    ensures forall h :: h in geofences && geofences[h].key.client == client ==> Concerned(geofences, [h], client) == [geofences[h].key.id]
    decreases |b|
  {
    if b == [] {
      assert a + b == a;
    } else {
      var n := |b| - 1;
      assert (a + b)[..|a + b| - 1] == a + b[..n];
      ConcernedInOrder(geofences, a, b[..n], client);
    }
    assert forall h: HwId :: [h][..0] == [];
  }

  class GeofenceAdapter {
    var geofences: map<HwId, Fence>
    var geofenceIds: map<Key, HwId>
    /** Requests whose answers are still to come, and what the engine has confirmed. */
    ghost var pending: map<nat, Request>
    ghost var next: nat
    ghost var engine: map<HwId, bool>

    ghost function Snapshot(): State
      reads this
    {
      State(Index(geofences, geofenceIds), pending, next, engine)
    }

    constructor ()
      ensures Snapshot() == START
    {
      geofences, geofenceIds, pending, next, engine := map[], map[], map[], 0, map[];
    }

    ghost method Send(r: Request)
      modifies `pending, `next
      ensures Snapshot() == Sent(old(Snapshot()), r)
    {
      pending, next := pending[next := r], next + 1;
    }

    method AddGeofence(key: Key, options: Options, info: Info)
      modifies this
      ensures Snapshot() == Step(old(Snapshot()), AddFence(key, options, info))
    {
      Send(Add(key, options, info));
    }

    /** Whether a request went to the engine or the key was unknown. */
    method RemoveGeofence(key: Key) returns (known: bool)
      modifies this
      ensures Snapshot() == Step(old(Snapshot()), RemoveFence(key)) && (known <==> key in geofenceIds)
    {
      known := key in geofenceIds;
      if known {
        Send(Remove(geofenceIds[key]));
      }
    }

    method PauseGeofence(key: Key) returns (known: bool)
      modifies this
      ensures Snapshot() == Step(old(Snapshot()), PauseFence(key)) && (known <==> key in geofenceIds)
    {
      known := key in geofenceIds;
      if known {
        Send(Pause(geofenceIds[key]));
      }
    }

    method ResumeGeofence(key: Key) returns (known: bool)
      modifies this
      ensures Snapshot() == Step(old(Snapshot()), ResumeFence(key)) && (known <==> key in geofenceIds)
    {
      known := key in geofenceIds;
      if known {
        Send(Resume(geofenceIds[key]));
      }
    }

    method ModifyGeofence(key: Key, options: Options) returns (known: bool)
      modifies this
      ensures Snapshot() == Step(old(Snapshot()), ModifyFence(key, options)) && (known <==> key in geofenceIds)
    {
      known := key in geofenceIds;
      if known {
        Send(Modify(geofenceIds[key], options));
      }
    }

    method SaveGeofenceItem(key: Key, options: Options, info: Info, hwId: HwId)
      modifies `geofences, `geofenceIds
      ensures Index(geofences, geofenceIds) == Saved(old(Index(geofences, geofenceIds)), key, options, info, hwId)
    {
      geofences := geofences[hwId := Fence(key, options, info, false)];
      geofenceIds := geofenceIds[key := hwId];
    }

    method RemoveGeofenceItem(hwId: HwId)
      modifies `geofences, `geofenceIds
      ensures Index(geofences, geofenceIds) == ItemRemoved(old(Index(geofences, geofenceIds)), hwId)
    {
      if hwId in geofences {
        var key := geofences[hwId].key;
        if key in geofenceIds {
          geofenceIds := geofenceIds - {key};
          geofences := geofences - {hwId};
        }
      }
    }

    method SetPaused(hwId: HwId, paused: bool)
      modifies `geofences
      ensures Index(geofences, geofenceIds) == ItemSet(old(Index(geofences, geofenceIds)), hwId, Paused(paused))
    {
      if hwId in geofences {
        geofences := geofences[hwId := geofences[hwId].(paused := paused)];
      }
    }

    method ModifyGeofenceItem(hwId: HwId, options: Options)
      modifies `geofences
      ensures Index(geofences, geofenceIds) == ItemSet(old(Index(geofences, geofenceIds)), hwId, Modified(options))
    {
      if hwId in geofences {
        geofences := geofences[hwId := geofences[hwId].(options := options)];
      }
    }

    /** The answer to one request. */
    method OnResponse(ghost ticket: nat, request: Request, ok: bool, hwId: HwId, ghost pauseOk: bool)
      requires ticket in pending && pending[ticket] == request
      modifies this
      ensures Snapshot() == Step(old(Snapshot()), Answer(ticket, ok, hwId, pauseOk))
    {
      pending := pending - {ticket};
      if ok {
        match request
        case Add(key, options, info) =>
          SaveGeofenceItem(key, options, info, hwId);
          engine := engine[hwId := false];
        case ReAdd(f) =>
          engine := engine[hwId := f.paused && pauseOk];
          SaveGeofenceItem(f.key, f.options, f.info, hwId);
        case Remove(h) =>
          RemoveGeofenceItem(h);
          engine := engine - {h};
        case StopRemove(h) =>
          geofences := geofences - {h};
          engine := engine - {h};
        case Pause(h) =>
          SetPaused(h, true);
          engine := EngineSet(engine, h, true);
        case Resume(h) =>
          SetPaused(h, false);
          engine := EngineSet(engine, h, false);
        case Modify(h, options) =>
          ModifyGeofenceItem(h, options);
      }
    }

    /** `keys` is the iteration order of the id table. */
    method StopClientSessions(client: Client, keys: seq<Key>)
      requires Enumerates(keys, geofenceIds.Keys)
      modifies this
      ensures Snapshot() == Step(old(Snapshot()), StopClient(client, keys))
    {
      ghost var before := Snapshot();
      for i := 0 to |keys|
        invariant forall j :: i <= j < |keys| ==> keys[j] in geofenceIds
        invariant Stopped(Snapshot(), client, keys[i..]) == Stopped(before, client, keys)
      {
        assert keys[i..][1..] == keys[i + 1..];
        var hwId := geofenceIds[keys[i]];
        if keys[i].client == client {
          geofenceIds := geofenceIds - {keys[i]};
          Send(StopRemove(hwId));
        }
      }
    }

    /** `order` is the iteration order of the fence table. */
    method RestartGeofences(order: seq<HwId>)
      requires Enumerates(order, geofences.Keys)
      modifies this
      ensures Snapshot() == Step(old(Snapshot()), Restart(order))
    {
      engine := map[];
      if geofences == map[] {
        return;
      }
      var oldGeofences := geofences;
      geofences, geofenceIds := map[], map[];
      ghost var before := pending;
      ghost var first := next;
      for i := 0 to |order|
        invariant geofences == map[] && geofenceIds == map[] && engine == map[]
        invariant next == first + i && pending == before + ReAdds(oldGeofences, first, order[..i])
      {
        ReAddsOneMore(before, oldGeofences, first, order, i);
        Send(ReAdd(oldGeofences[order[i]]));
      }
      assert order[..|order|] == order;
    }

    /** The client's ids among the breached fences, gathered in an array of their number. */
    method ClientIds(hwIds: seq<HwId>, client: Client) returns (clientIds: array<nat>, count: nat)
      ensures fresh(clientIds) && count <= clientIds.Length && clientIds[..count] == Concerned(geofences, hwIds, client)
    {
      clientIds, count := new nat[|hwIds|], 0;
      for i := 0 to |hwIds|
        invariant count <= i && clientIds[..count] == Concerned(geofences, hwIds[..i], client)
      {
        assert hwIds[..i + 1][..i] == hwIds[..i];
        if hwIds[i] in geofences && geofences[hwIds[i]].key.client == client {
          clientIds[count] := geofences[hwIds[i]].key.id;
          count := count + 1;
        }
      }
      assert hwIds[..|hwIds|] == hwIds;
    }

    /** `clients` is the iteration order of the client table, `listening` the clients with a callback. */
    method GeofenceBreach(hwIds: seq<HwId>, clients: seq<Client>, listening: set<Client>) returns (reports: seq<Notification>)
      ensures reports == Reports(geofences, hwIds, clients, listening)
    {
      reports := [];
      for i := 0 to |clients|
        invariant reports == Reports(geofences, hwIds, clients[..i], listening)
      {
        assert clients[..i + 1][..i] == clients[..i];
        var clientIds, count := ClientIds(hwIds, clients[i]);
        if count > 0 && clients[i] in listening {
          reports := reports + [Notification(clients[i], clientIds[..count])];
        }
      }
      assert clients[..|clients|] == clients;
    }
  }
}
