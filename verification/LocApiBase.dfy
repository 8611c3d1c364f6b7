/** The fixed array of adapters, changed in place and kept free of holes. */
module LocApiBase {
  import opened Common
  import opened AdapterList

  /** The events whose bits are set in a mask. */
  type EventMask = set<nat>

  class LocAdapter {
    var mEvtMask: EventMask
    constructor (mask: EventMask)
      ensures mEvtMask == mask
    {
      mEvtMask := mask;
    }
  }

  /** What a walk that stops at the first hole meets. */
  function Registered(slots: seq<LocAdapter?>): (r: seq<LocAdapter>)
    ensures |r| <= |slots| && (forall i :: 0 <= i < |r| ==> r[i] == slots[i])
    ensures |r| < |slots| ==> slots[|r|] == null
  {
    if slots == [] || slots[0] == null then [] else [slots[0]] + Registered(slots[1..])
  }

  lemma RegisteredUpTo(slots: seq<LocAdapter?>, n: nat)
    requires n <= |slots| && (forall i :: 0 <= i < n ==> slots[i] != null) && (n < |slots| ==> slots[n] == null)
    ensures |Registered(slots)| == n
  {
    if n > 0 {
      RegisteredUpTo(slots[1..], n - 1);
    }
  }

  /** No hole, no adapter twice. */
  ghost predicate Compact(slots: seq<LocAdapter?>) {
    && Distinct(Registered(slots))
    && forall i :: |Registered(slots)| <= i < |slots| ==> slots[i] == null
  }

  lemma AppendedSlot(slots: seq<LocAdapter?>, a: LocAdapter, i: nat)
    requires Compact(slots) && |slots| == MAX_ADAPTERS && i < |slots| && i == |Registered(slots)| && a !in Registered(slots)
    ensures Compact(slots[i := a]) && Registered(slots[i := a]) == Added(Registered(slots), a)
  {
    var after := slots[i := a];
    RegisteredUpTo(after, i + 1);
    assert Registered(after) == Registered(slots) + [a];
  }

  lemma ClosedGap(slots: seq<LocAdapter?>, j: nat, n: nat)
    requires Compact(slots) && n == |Registered(slots)| && j < n
    ensures var after := slots[j := slots[n - 1]][n - 1 := null];
      Compact(after) && Registered(after) == Dropped(Registered(slots), Registered(slots)[j])
  {
    var r, after := Registered(slots), slots[j := slots[n - 1]][n - 1 := null];
    assert Place(r, r[j]) == j;
    var d := Dropped(r, r[j]);
    DroppedIsExact(r, r[j]);
    forall i | 0 <= i < n - 1 ensures after[i] == d[i] && after[i] != null {
      assert r[i] == slots[i] && r[n - 1] == slots[n - 1];
    }
    RegisteredUpTo(after, n - 1);
    assert Registered(after) == d;
  }

  class LocApiBase {
    const mLocAdapters: array<LocAdapter?>
    const mExcludedMask: EventMask
    /** Messages posted to the engine's own task. */
    var sent: seq<Message<LocAdapter>>

    ghost predicate Valid()
      reads this, mLocAdapters
    {
      mLocAdapters.Length == MAX_ADAPTERS && Compact(mLocAdapters[..])
    }

    ghost function Contents(): State<LocAdapter>
      reads this, mLocAdapters
    {
      State(Registered(mLocAdapters[..]), sent)
    }

    constructor (excludedMask: EventMask)
      ensures Valid() && fresh(mLocAdapters) && Contents() == State([], []) && mExcludedMask == excludedMask
    {
      mLocAdapters := new LocAdapter?[MAX_ADAPTERS](i => null);
      mExcludedMask, sent := excludedMask, [];
    }

    /** Nothing happens for no adapter, for one that is there, and when the array is full. */
    method AddAdapter(adapter: LocAdapter?)
      requires Valid()
      modifies this`sent, mLocAdapters
      ensures Valid()
      ensures Contents() == if adapter == null then old(Contents()) else Step(old(Contents()), Add(adapter))
    {
      ghost var slots, r := mLocAdapters[..], Registered(mLocAdapters[..]);
      var i := 0;
      while i < MAX_ADAPTERS && mLocAdapters[i] != adapter
        invariant 0 <= i <= |r| && mLocAdapters[..] == slots && sent == old(sent)
        invariant forall k :: 0 <= k < i ==> r[k] != adapter
      {
        if mLocAdapters[i] == null {
          AppendedSlot(slots, adapter, i);
          mLocAdapters[i] := adapter;
          sent := sent + [Open(adapter)];
          assert mLocAdapters[..] == slots[i := adapter];
          return;
        }
        i := i + 1;
      }
      assert i < |r| ==> r[i] in r;
    }

    /** The last adapter moves into the gap. */
    method RemoveAdapter(adapter: LocAdapter?)
      requires Valid()
      modifies this`sent, mLocAdapters
      ensures Valid()
      ensures Contents() == if adapter == null then old(Contents()) else Step(old(Contents()), Remove(adapter))
    {
      ghost var slots, r := mLocAdapters[..], Registered(mLocAdapters[..]);
      var i := 0;
      while i < MAX_ADAPTERS && mLocAdapters[i] != null
        invariant 0 <= i <= |r| && mLocAdapters[..] == slots && sent == old(sent)
        invariant forall k :: 0 <= k < i ==> r[k] != adapter
      {
        if mLocAdapters[i] == adapter {
          CloseGap(i, |r|);
          return;
        }
        i := i + 1;
      }
    }

    method CloseGap(j: nat, ghost n: nat)
      requires Valid() && n == |Registered(mLocAdapters[..])| && j < n
      modifies this`sent, mLocAdapters
      ensures Valid() && Contents() == Step(old(Contents()), Remove(old(Registered(mLocAdapters[..])[j])))
    {
      ghost var slots := mLocAdapters[..];
      var last := MoveLast(j, n);
      ClosedGap(slots, j, n);
      sent := sent + if last == 0 then [Close] else [Reopen];
    }

    /** Takes out the adapter at `j` and moves the last one there. */
    method MoveLast(j: nat, ghost n: nat) returns (last: nat)
      requires j < n <= MAX_ADAPTERS == mLocAdapters.Length && (n < MAX_ADAPTERS ==> mLocAdapters[n] == null)
      requires forall k :: 0 <= k < n ==> mLocAdapters[k] != null
      modifies mLocAdapters
      ensures last == n - 1 && mLocAdapters[..] == old(mLocAdapters[..])[j := old(mLocAdapters[n - 1])][n - 1 := null]
    {
      mLocAdapters[j] := null;
      last := LastFrom(j, n);
      mLocAdapters[j] := mLocAdapters[last];
      mLocAdapters[last] := null;
    }

    /** The last place after `j` up to which there is no hole. */
    method LastFrom(j: nat, ghost n: nat) returns (i: nat)
      requires j < n <= MAX_ADAPTERS == mLocAdapters.Length && (n < MAX_ADAPTERS ==> mLocAdapters[n] == null)
      requires forall k :: j < k < n ==> mLocAdapters[k] != null
      ensures i == n - 1
    {
      i := j + 1;
      while i < MAX_ADAPTERS && mLocAdapters[i] != null
        invariant j < i <= n
      {
        i := i + 1;
      }
      i := i - 1;
    }

    /** Delivery to all: each registered adapter once, in order, and no other. */
    method Deliver() returns (visited: seq<LocAdapter>)
      requires Valid()
      ensures visited == Registered(mLocAdapters[..]) && Distinct(visited)
    {
      visited := [];
      ghost var r := Registered(mLocAdapters[..]);
      var i := 0;
      while i < MAX_ADAPTERS && mLocAdapters[i] != null
        invariant 0 <= i <= |r| && visited == r[..i]
      {
        visited := visited + [mLocAdapters[i]];
        i := i + 1;
      }
    }

    /** Delivery to the first that handles: nobody after it is asked. */
    method DeliverToFirst(handles: LocAdapter -> bool) returns (visited: seq<LocAdapter>)
      requires mLocAdapters.Length == MAX_ADAPTERS
      ensures visited <= Registered(mLocAdapters[..])
      ensures forall i :: 0 <= i < |visited| - 1 ==> !handles(visited[i])
      ensures visited == Registered(mLocAdapters[..]) || (visited != [] && handles(visited[|visited| - 1]))
    {
      visited := [];
      ghost var r := Registered(mLocAdapters[..]);
      var i, handled := 0, false;
      while i < MAX_ADAPTERS && mLocAdapters[i] != null && !handled
        invariant 0 <= i <= |r| && visited == r[..i]
        invariant forall k :: 0 <= k < i - 1 ==> !handles(r[k])
        invariant handled <==> i > 0 && handles(r[i - 1])
      {
        assert r[i] == mLocAdapters[i];
        visited := visited + [mLocAdapters[i]];
        handled := handles(mLocAdapters[i]);
        i := i + 1;
      }
    }

    /** The events that some registered adapter wants and that are not excluded. */
    method GetEvtMask() returns (mask: EventMask)
      requires Valid()
      ensures forall e :: e in mask <==>
        e !in mExcludedMask && exists i :: 0 <= i < |Registered(mLocAdapters[..])| && e in Registered(mLocAdapters[..])[i].mEvtMask
    {
      ghost var r := Registered(mLocAdapters[..]);
      mask := {};
      var i := 0;
      while i < MAX_ADAPTERS && mLocAdapters[i] != null
        invariant 0 <= i <= |r|
        invariant forall e :: e in mask <==> exists k :: 0 <= k < i && e in r[k].mEvtMask
      {
        assert mLocAdapters[i] == r[i];
        mask := mask + mLocAdapters[i].mEvtMask;
        i := i + 1;
      }
      mask := mask - mExcludedMask;
    }
  }
}
