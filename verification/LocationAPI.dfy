/** The global client data behind the location API as an object, with its interface pointers
    and bit masks, tied step by step to the destroy handshake. */
module LocationAPI {
  import opened DestroyHandshake

  type LocationAdapterTypeMask = bv16

  const ALL_ADAPTERS: LocationAdapterTypeMask := 0x7

  function TypeBit(a: Adapter): LocationAdapterTypeMask {
    match a
    case GNSS => 0x1
    case BATCHING => 0x2
    case GEOFENCE => 0x4
  }

  function AdaptersOf(m: LocationAdapterTypeMask): (r: set<Adapter>)
    ensures forall a :: a in r <==> m & TypeBit(a) != 0
  {
    var r := (if m & 0x1 != 0 then {GNSS} else {}) + (if m & 0x2 != 0 then {BATCHING} else {}) + (if m & 0x4 != 0 then {GEOFENCE} else {});
    assert forall a :: TypeBit(a) == match a case GNSS => 0x1 case BATCHING => 0x2 case GEOFENCE => 0x4;
    r
  }

  lemma SameAdapters(x: set<Adapter>, y: set<Adapter>)
    requires (GNSS in x <==> GNSS in y) && (BATCHING in x <==> BATCHING in y) && (GEOFENCE in x <==> GEOFENCE in y)
    ensures x == y
  {
    forall a ensures a in x <==> a in y {
      match a
      case GNSS =>
      case BATCHING =>
      case GEOFENCE =>
    }
  }

  lemma BitsApart(m: LocationAdapterTypeMask)
    ensures (m & !0x1) & 0x1 == 0 && (m & !0x1) & 0x2 == m & 0x2 && (m & !0x1) & 0x4 == m & 0x4
    ensures (m & !0x2) & 0x1 == m & 0x1 && (m & !0x2) & 0x2 == 0 && (m & !0x2) & 0x4 == m & 0x4
    ensures (m & !0x4) & 0x1 == m & 0x1 && (m & !0x4) & 0x2 == m & 0x2 && (m & !0x4) & 0x4 == 0
  {
  }

  lemma BitCleared(m: LocationAdapterTypeMask, a: Adapter, b: Adapter)
    ensures (m & !TypeBit(a)) & TypeBit(b) == if a == b then 0 else m & TypeBit(b)
  {
    BitsApart(m);
  }

  predicate OnlyAdapters(m: LocationAdapterTypeMask) {
    m & ALL_ADAPTERS == m
  }

  /** Clearing a bit takes exactly that adapter out, and the mask is zero when none is left. */
  lemma ClearedBit(m: LocationAdapterTypeMask, a: Adapter)
    requires OnlyAdapters(m)
    ensures var n := m & !TypeBit(a);
      OnlyAdapters(n) && AdaptersOf(n) == AdaptersOf(m) - {a} && (n == 0 <==> AdaptersOf(n) == {})
  {
    var n := m & !TypeBit(a);
    assert OnlyAdapters(n) by { match a { case GNSS => case BATCHING => case GEOFENCE => } }
    forall b ensures b in AdaptersOf(n) <==> b in AdaptersOf(m) && b != a {
      BitCleared(m, a, b);
    }
    EmptyMask(n);
  }

  lemma EmptyMask(m: LocationAdapterTypeMask)
    requires OnlyAdapters(m)
    ensures m == 0 <==> AdaptersOf(m) == {}
  {
    if AdaptersOf(m) == {} {
      assert GNSS !in AdaptersOf(m) && BATCHING !in AdaptersOf(m) && GEOFENCE !in AdaptersOf(m);
      assert m & 0x1 == 0 && m & 0x2 == 0 && m & 0x4 == 0;
    }
  }

  function MaskOf(adapters: set<Adapter>): (m: LocationAdapterTypeMask)
    ensures OnlyAdapters(m) && AdaptersOf(m) == adapters
  {
    var m := (if GNSS in adapters then 0x1 else 0) | (if BATCHING in adapters then 0x2 else 0) | (if GEOFENCE in adapters then 0x4 else 0);
    SameAdapters(AdaptersOf(m), adapters);
    m
  }

  class LocationAPIData {
    var clientData: set<Client>
    var destroyClientData: map<Client, LocationAdapterTypeMask>
    /** The interface pointers that are set, and the load-failed flags that are. */
    var interfaces: set<Adapter>
    var loadFailed: set<Adapter>
    /** Messages on their way to the adapters, callbacks about to run, and the history. */
    ghost var pending: map<nat, (Client, Adapter)>
    ghost var next: nat
    ghost var due: multiset<Client>
    ghost var called: multiset<Client>
    ghost var deleted: set<Client>
    ghost var known: set<Client>

    ghost predicate Valid()
      reads this`destroyClientData
    {
      forall c :: c in destroyClientData ==> OnlyAdapters(destroyClientData[c])
    }

    ghost function Waiting(): map<Client, set<Adapter>>
      reads this`destroyClientData
    {
      map c | c in destroyClientData :: AdaptersOf(destroyClientData[c])
    }

    ghost function Snapshot(): State
      reads this
    {
      State(interfaces, loadFailed, clientData, Waiting(), pending, next, due, called, deleted, known)
    }

    constructor ()
      ensures Valid() && Snapshot() == START
    {
      clientData, destroyClientData, interfaces, loadFailed := {}, map[], {}, {};
      pending, next, due, called, deleted, known := map[], 0, multiset{}, multiset{}, {}, {};
    }

    /** Loads one interface if it is wanted and was not tried before. */
    method LoadInterface(a: Adapter, wants: set<Adapter>, loads: set<Adapter>)
      modifies `interfaces, `loadFailed
      ensures interfaces == old(interfaces) + ({a} * wants - old(interfaces) - old(loadFailed)) * loads
      ensures loadFailed == old(loadFailed) + (({a} * wants - old(interfaces) - old(loadFailed)) - loads)
    {
      if a in wants && a !in interfaces && a !in loadFailed {
        if a in loads {
          interfaces := interfaces + {a};
        } else {
          loadFailed := loadFailed + {a};
        }
      }
    }

    /** Loads what the callbacks want and what was not tried before. */
    method LoadInterfaces(wants: set<Adapter>, loads: set<Adapter>)
      modifies `interfaces, `loadFailed
      ensures Snapshot() == Loaded(old(Snapshot()), wants, loads)
    {
      LoadInterface(GNSS, wants, loads);
      LoadInterface(BATCHING, wants, loads);
      LoadInterface(GEOFENCE, wants, loads);
      SameAdapters(interfaces, Loaded(old(Snapshot()), wants, loads).loaded);
      SameAdapters(loadFailed, Loaded(old(Snapshot()), wants, loads).failed);
    }

    method CreateInstance(c: Client, wants: set<Adapter>, loads: set<Adapter>)
      requires Valid()
      modifies this
      ensures Valid() && Snapshot() == Step(old(Snapshot()), Create(c, wants, loads))
    {
      LoadInterfaces(wants, loads);
      clientData, known := clientData + {c}, known + {c};
    }

    method UpdateCallbacks(c: Client, wants: set<Adapter>, loads: set<Adapter>)
      requires Valid()
      modifies this
      ensures Valid() && Snapshot() == Step(old(Snapshot()), Update(c, wants, loads))
    {
      LoadInterfaces(wants, loads);
      clientData := clientData + {c};
    }

    /** The removal message to one adapter. */
    ghost method RemoveClient(c: Client, a: Adapter)
      requires a in Snapshot().loaded
      modifies `pending, `next
      ensures Snapshot() == Queue(old(Snapshot()), c, a)
    {
      pending, next := pending[next := (c, a)], next + 1;
    }

    method RemoveFromInterfaces(c: Client)
      modifies `pending, `next
      ensures Snapshot() == Queued(old(Snapshot()), c, ADAPTERS)
    {
      ghost var s := Snapshot();
      assert ADAPTERS[..2] == [GNSS, BATCHING] && ADAPTERS[..2][..1] == [GNSS] && [GNSS][..0] == [];
      if GNSS in interfaces { RemoveClient(c, GNSS); }
      assert Snapshot() == Queued(s, c, [GNSS]);
      if BATCHING in interfaces { RemoveClient(c, BATCHING); }
      assert Snapshot() == Queued(s, c, [GNSS, BATCHING]);
      if GEOFENCE in interfaces { RemoveClient(c, GEOFENCE); }
    }

    /** Whether the callback runs at once. */
    method Destroy(c: Client, hasCallback: bool) returns (invokeDestroyCb: bool)
      requires Valid()
      modifies this
      ensures Valid() && Snapshot() == Step(old(Snapshot()), Event.Destroy(c, hasCallback))
      ensures invokeDestroyCb <==> due != old(due)
    {
      invokeDestroyCb := false;
      if c in clientData {
        var needToWait := GNSS in interfaces || BATCHING in interfaces || GEOFENCE in interfaces;
        assert needToWait <==> interfaces != {} by { if !needToWait { SameAdapters(interfaces, {}); } }
        if hasCallback && needToWait {
          destroyClientData := destroyClientData[c := MaskOf(interfaces)];
        }
        assert Waiting() == if hasCallback && needToWait then old(Waiting())[c := Snapshot().loaded] else old(Waiting());
        QueuedAlike(old(Snapshot()), Snapshot(), c, ADAPTERS);
        RemoveFromInterfaces(c);
        clientData := clientData - {c};
        if hasCallback && !needToWait {
          invokeDestroyCb := true;
          due := due[c := due[c] + 1];
        }
      }
    }

    /** Takes one adapter off a client's mask; the entry goes with the last. */
    method ClearAdapter(c: Client, adapterType: Adapter) returns (last: bool)
      requires Valid() && c in destroyClientData
      modifies `destroyClientData
      ensures Valid() && (last <==> old(Waiting())[c] - {adapterType} == {})
      ensures Waiting() == if last then old(Waiting()) - {c} else old(Waiting())[c := old(Waiting())[c] - {adapterType}]
    {
      var waitAdapterMask := destroyClientData[c] & !TypeBit(adapterType);
      ClearedBit(destroyClientData[c], adapterType);
      last := waitAdapterMask == 0;
      destroyClientData := if last then destroyClientData - {c} else destroyClientData[c := waitAdapterMask];
    }

    /** One adapter has removed the client; whether the callback is to run now. */
    method OnRemoveClientCompleteCb(ghost ticket: nat, c: Client, adapterType: Adapter) returns (invokeCallback: bool)
      requires Valid() && ticket in pending && pending[ticket] == (c, adapterType)
      modifies this
      ensures Valid() && Snapshot() == Step(old(Snapshot()), Complete(ticket))
      ensures invokeCallback <==> due != old(due)
    {
      pending := pending - {ticket};
      invokeCallback := false;
      if c in destroyClientData {
        invokeCallback := ClearAdapter(c, adapterType);
        if invokeCallback {
          due := due[c := due[c] + 1];
        }
      }
    }

    /** Outside the lock: the callback runs and the object is deleted. */
    ghost method InvokeDestroyCb(c: Client)
      requires Valid() && c in due
      modifies this
      ensures Valid() && Snapshot() == Step(old(Snapshot()), Finish(c))
    {
      due, called, deleted := due[c := due[c] - 1], called[c := called[c] + 1], deleted + {c};
    }
  }
}
