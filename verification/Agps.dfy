/** The AGPS state machine and its manager as objects.  `wire` and `notes` record the calls
    into the framework and to the subscribers in the order in which they are made. */
module Agps {
  import opened Common
  import opened AgpsMachine
  import opened AgpsLifeCycle

  class AgpsSubscriber {
    const mConnHandle: int
    const mWaitForCloseComplete: bool
    var mIsInactive: bool

    constructor (connHandle: int, waitForCloseComplete: bool, isInactive: bool)
      ensures mConnHandle == connHandle && mWaitForCloseComplete == waitForCloseComplete && mIsInactive == isInactive
    {
      mConnHandle, mWaitForCloseComplete, mIsInactive := connHandle, waitForCloseComplete, isInactive;
    }

    ghost function Value(): Sub
      reads this
    {
      Sub(mConnHandle, mWaitForCloseComplete, mIsInactive)
    }

    method Clone() returns (copy: AgpsSubscriber)
      ensures fresh(copy) && copy.Value() == Value()
    {
      copy := new AgpsSubscriber(mConnHandle, mWaitForCloseComplete, mIsInactive);
    }
  }

  ghost function Values(list: seq<AgpsSubscriber>): (r: seq<Sub>)
    reads list
    ensures |r| == |list|
    ensures forall i :: 0 <= i < |list| ==> r[i] == list[i].Value()
  {
    if list == [] then [] else [list[0].Value()] + Values(list[1..])
  }

  lemma {:induction false} HandlesDiffer(list: seq<AgpsSubscriber>, i: nat, j: nat)
    requires DistinctHandles(Values(list)) && i < j < |list|
    ensures list[i].mConnHandle != list[j].mConnHandle
    decreases list
  {
    if i == 0 {
      NotFound(list[1..], list[0].mConnHandle, j - 1);
    } else {
      HandlesDiffer(list[1..], i - 1, j - 1);
    }
  }

  lemma {:induction false} NotFound(list: seq<AgpsSubscriber>, h: int, j: nat)
    requires Lookup(Values(list), h) == None && j < |list|
    ensures list[j].mConnHandle != h
    decreases list
  {
    if j > 0 { NotFound(list[1..], h, j - 1); }
  }

  lemma {:induction false} RetiredAt(subs: seq<Sub>, h: int, i: nat)
    requires i < |subs|
    ensures |RetiredSubs(subs, h)| == |subs|
    ensures RetiredSubs(subs, h)[i] == if subs[i].handle == h then subs[i].(inactive := true) else subs[i]
    decreases subs
  {
    if i > 0 { RetiredAt(subs[1..], h, i - 1); } else if |subs| > 1 { RetiredAt(subs[1..], h, 0); }
  }

  /** The objects of the list, in order, have these values. */
  ghost predicate Shows(list: seq<AgpsSubscriber>, vals: seq<Sub>)
    reads list
  {
    |list| == |vals| && forall i :: 0 <= i < |list| ==> list[i].Value() == vals[i]
  }

  function Erased<T>(s: seq<T>, i: nat): (r: seq<T>)
    requires i < |s|
    ensures |r| == |s| - 1 && r[..i] == s[..i] && r[i..] == s[i + 1..]
  {
    s[..i] + s[i + 1..]
  }

  /** A notification pass that stands before element `i`: what it has kept and said so far,
      with what the rest of the list will add, is what the whole pass keeps and says. */
  ghost predicate Passing(vals: seq<Sub>, i: nat, told: seq<Note>, kind: Kind, drop: bool, w: Which, at: State,
                          keptAll: seq<Sub>, toldAll: seq<Note>)
  {
    && i <= |vals|
    && vals[..i] + Kept(drop, w, vals[i..]) == keptAll
    && told + Told(kind, drop, w, vals[i..], at) == toldAll
  }

  lemma PassStarts(vals: seq<Sub>, told: seq<Note>, kind: Kind, drop: bool, w: Which, at: State)
    ensures Passing(vals, 0, told, kind, drop, w, at, Kept(drop, w, vals), told + Told(kind, drop, w, vals, at))
  {
    assert vals[0..] == vals;
  }

  lemma PassEnds(vals: seq<Sub>, told: seq<Note>, kind: Kind, drop: bool, w: Which, at: State, keptAll: seq<Sub>, toldAll: seq<Note>)
    requires Passing(vals, |vals|, told, kind, drop, w, at, keptAll, toldAll)
    ensures vals == keptAll && told == toldAll
  {
    assert vals[|vals|..] == [] && vals[..|vals|] == vals;
  }

  lemma ShowsErased(list: seq<AgpsSubscriber>, vals: seq<Sub>, i: nat)
    requires Shows(list, vals) && i < |list|
    ensures Shows(Erased(list, i), Erased(vals, i)) && forall s :: s in Erased(list, i) ==> s in list
  {
  }

  lemma ShowsIs(list: seq<AgpsSubscriber>, vals: seq<Sub>)
    requires Shows(list, vals)
    ensures Values(list) == vals
  {
  }

  lemma PassStep(vals: seq<Sub>, i: nat, told: seq<Note>, kind: Kind, drop: bool, w: Which, at: State,
                 keptAll: seq<Sub>, toldAll: seq<Note>)
    requires i < |vals| && Passing(vals, i, told, kind, drop, w, at, keptAll, toldAll)
    ensures var told' := told + ToldOne(kind, drop, w, vals[i], at);
      if drop && Concerns(w, vals[i]) then Passing(Erased(vals, i), i, told', kind, drop, w, at, keptAll, toldAll)
      else Passing(vals, i + 1, told', kind, drop, w, at, keptAll, toldAll)
  {
    assert vals[i..][1..] == vals[i + 1..];
    assert vals[..i + 1] == vals[..i] + [vals[i]];
  }

  lemma EraseStep(vals: seq<Sub>, i: nat, h: int)
    requires i < |vals|
    ensures vals[..i] + Without(vals[i..], h)
         == (if vals[i].handle == h then vals[..i] else vals[..i + 1]) + Without(vals[i + 1..], h)
  {
    assert vals[i..][1..] == vals[i + 1..];
    assert vals[..i + 1] == vals[..i] + [vals[i]];
  }

  lemma DropStep(notes: seq<Note>, subs: seq<Sub>, at: State)
    requires subs != []
    ensures notes + Drops(subs, at) == (notes + [Note(Dropped, subs[0].handle, at)]) + Drops(subs[1..], at)
  {
  }

  datatype AgpsEvent = SUBSCRIBE | UNSUBSCRIBE | GRANTED | RELEASED | DENIED

  function EventOf(event: AgpsEvent, current: AgpsSubscriber?): Event
    requires event == SUBSCRIBE || event == UNSUBSCRIBE ==> current != null
  {
    match event
    case SUBSCRIBE => Subscribe(current.mConnHandle, current.mWaitForCloseComplete)
    case UNSUBSCRIBE => Unsubscribe(current.mConnHandle)
    case GRANTED => Granted
    case RELEASED => ReleasedEvent
    case DENIED => Denied
  }

  class AgpsStateMachine {
    var mState: State
    var mSubscriberList: seq<AgpsSubscriber>
    ghost var wire: seq<Wire>
    ghost var notes: seq<Note>

    ghost function Repr(): set<object>
      reads this
    {
      {this} + set s: object | s in mSubscriberList
    }

    /** The abstract machine this object stands for. */
    ghost function Machine(): Machine
      reads this, mSubscriberList
    {
      AgpsMachine.Machine(mState, Values(mSubscriberList), wire, notes)
    }

    ghost predicate Valid()
      reads this, mSubscriberList
    {
      ListInvariant(Machine())
    }

    constructor ()
      ensures Valid() && Machine() == START && fresh(Repr())
    {
      mState, mSubscriberList := Released, [];
      wire, notes := [], [];
    }

    method GetSubscriber(connHandle: int) returns (found: AgpsSubscriber?)
      ensures found == null <==> Lookup(Values(mSubscriberList), connHandle) == None
      ensures found != null ==>
        found in mSubscriberList && Lookup(Values(mSubscriberList), connHandle) == Some(found.Value())
    {
      var i := 0;
      while i < |mSubscriberList|
        invariant 0 <= i <= |mSubscriberList|
        invariant Lookup(Values(mSubscriberList), connHandle) == Lookup(Values(mSubscriberList[i..]), connHandle)
      {
        if mSubscriberList[i].mConnHandle == connHandle {
          return mSubscriberList[i];
        }
        assert mSubscriberList[i..][1..] == mSubscriberList[i + 1..];
        i := i + 1;
      }
      return null;
    }

    method AnyActiveSubscribers() returns (any: bool)
      ensures any <==> AnyActive(Values(mSubscriberList))
    {
      var i := 0;
      while i < |mSubscriberList|
        invariant 0 <= i <= |mSubscriberList|
        invariant AnyActive(Values(mSubscriberList)) <==> AnyActive(Values(mSubscriberList[i..]))
      {
        if !mSubscriberList[i].mIsInactive {
          return true;
        }
        assert mSubscriberList[i..][1..] == mSubscriberList[i + 1..];
        i := i + 1;
      }
      return false;
    }

    method AddSubscriber(subscriber: AgpsSubscriber)
      modifies this`mSubscriberList, this`notes
      ensures Machine() == Join(old(Machine()), old(subscriber.Value()))
      ensures fresh(Repr() - old(Repr()))
    {
      var present := GetSubscriber(subscriber.mConnHandle);
      if present == null {
        var cloned := subscriber.Clone();
        ghost var vals := Values(mSubscriberList);
        notes := notes + [Note(Joined, cloned.mConnHandle, mState)];
        mSubscriberList := mSubscriberList + [cloned];
        assert Values(mSubscriberList) == vals + [cloned.Value()];
      }
    }

    /** Erases every entry with the handle; the list is walked with an iterator that stays
        put when its element is erased. */
    method DeleteSubscriber(connHandle: int)
      modifies this`mSubscriberList
      ensures Values(mSubscriberList) == Without(old(Values(mSubscriberList)), connHandle)
      ensures Repr() <= old(Repr())
    {
      var i := 0;
      ghost var vals := Values(mSubscriberList);
      while i < |mSubscriberList|
        invariant 0 <= i <= |mSubscriberList|
        invariant forall s :: s in mSubscriberList ==> s in old(mSubscriberList)
        invariant Shows(mSubscriberList, vals)
        invariant vals[..i] + Without(vals[i..], connHandle) == Without(old(Values(mSubscriberList)), connHandle)
        decreases |mSubscriberList| - i
      {
        EraseStep(vals, i, connHandle);
        if mSubscriberList[i].mConnHandle == connHandle {
          mSubscriberList, vals := Erased(mSubscriberList, i), Erased(vals, i);
        } else {
          i := i + 1;
        }
      }
    }

    method NotifyAllSubscribers(kind: Kind, deleteSubscriberPostNotify: bool, which: Which)
      modifies this`mSubscriberList, this`notes
      ensures Machine() == NotifiedAll(old(Machine()), kind, deleteSubscriberPostNotify, which)
      ensures Repr() <= old(Repr())
    {
      var i := 0;
      ghost var vals := Values(mSubscriberList);
      ghost var keptAll := Kept(deleteSubscriberPostNotify, which, vals);
      ghost var toldAll := notes + Told(kind, deleteSubscriberPostNotify, which, vals, mState);
      PassStarts(vals, notes, kind, deleteSubscriberPostNotify, which, mState);
      while i < |mSubscriberList|
        invariant 0 <= i <= |mSubscriberList|
        invariant forall s :: s in mSubscriberList ==> s in old(mSubscriberList)
        invariant Shows(mSubscriberList, vals)
        invariant Passing(vals, i, notes, kind, deleteSubscriberPostNotify, which, mState, keptAll, toldAll)
        decreases |mSubscriberList| - i
      {
        i, vals := NotifyAt(i, kind, deleteSubscriberPostNotify, which, vals, keptAll, toldAll);
      }
      ShowsIs(mSubscriberList, vals);
      PassEnds(vals, notes, kind, deleteSubscriberPostNotify, which, mState, keptAll, toldAll);
    }

    /** One turn of the loop: notify if concerned, then erase under the iterator or move it. */
    method NotifyAt(i: nat, kind: Kind, deleteSubscriberPostNotify: bool, which: Which,
                    ghost vals: seq<Sub>, ghost keptAll: seq<Sub>, ghost toldAll: seq<Note>)
      returns (next: nat, ghost vals': seq<Sub>)
      requires i < |mSubscriberList| && Shows(mSubscriberList, vals)
      requires Passing(vals, i, notes, kind, deleteSubscriberPostNotify, which, mState, keptAll, toldAll)
      modifies this`mSubscriberList, this`notes
      ensures next <= |mSubscriberList| && |mSubscriberList| - next < old(|mSubscriberList|) - i
      ensures forall s :: s in mSubscriberList ==> s in old(mSubscriberList)
      ensures Shows(mSubscriberList, vals')
      ensures Passing(vals', next, notes, kind, deleteSubscriberPostNotify, which, mState, keptAll, toldAll)
    {
      PassStep(vals, i, notes, kind, deleteSubscriberPostNotify, which, mState, keptAll, toldAll);
      var subscriber := mSubscriberList[i];
      next, vals' := i + 1, vals;
      if Matches(which, subscriber) {
        if deleteSubscriberPostNotify {
          ShowsErased(mSubscriberList, vals, i);
          notes := notes + [Note(kind, subscriber.mConnHandle, mState), Note(Left, subscriber.mConnHandle, mState)];
          mSubscriberList, next, vals' := Erased(mSubscriberList, i), i, Erased(vals, i);
        } else {
          notes := notes + [Note(kind, subscriber.mConnHandle, mState)];
        }
      }
    }

    function Matches(which: Which, subscriber: AgpsSubscriber): bool
      reads subscriber
    {
      which == All || (which == OnlyInactive && subscriber.mIsInactive)
      || (which == OnlyActive && !subscriber.mIsInactive)
    }

    method RequestOrReleaseDataConn(request: bool)
      modifies this`wire
      ensures wire == old(wire) + [if request then RequestConn else ReleaseConn]
    {
      wire := wire + [if request then RequestConn else ReleaseConn];
    }

    method ProcessSubscribe(current: AgpsSubscriber)
      modifies this`mState, this`mSubscriberList, this`wire, this`notes
      ensures Machine() == Subscribed(old(Machine()), old(current.Value()))
      ensures fresh(Repr() - old(Repr()))
    {
      match mState {
        case Released =>
          AddSubscriber(current);
          RequestOrReleaseDataConn(true);
          mState := Pending;
        case Pending => AddSubscriber(current);
        case Acquired =>
          notes := notes + [Note(OpenOk, current.mConnHandle, mState)];
          AddSubscriber(current);
        case Releasing => AddSubscriber(current);
      }
    }

    /** Marks a waiting subscriber inactive in place, or tells it and erases it. */
    method StepAsideNow(current: AgpsSubscriber)
      requires Valid() && current in mSubscriberList
      modifies this`mSubscriberList, this`notes, current
      ensures Machine() == StepAside(old(Machine()), old(current.Value()))
      ensures Repr() <= old(Repr())
    {
      if current.mWaitForCloseComplete {
        MarkInactive(current);
        notes := notes + [Note(Retired, current.mConnHandle, mState)];
      } else {
        notes := notes + [Note(Closed, current.mConnHandle, mState), Note(Left, current.mConnHandle, mState)];
        DeleteSubscriber(current.mConnHandle);
      }
    }

    /** Changes the one listed subscriber in place. */
    method MarkInactive(current: AgpsSubscriber)
      requires Valid() && current in mSubscriberList
      modifies current`mIsInactive
      ensures Values(mSubscriberList) == RetiredSubs(old(Values(mSubscriberList)), current.mConnHandle)
    {
      ghost var was := Values(mSubscriberList);
      forall i, j | 0 <= i < j < |mSubscriberList| ensures mSubscriberList[i].mConnHandle != mSubscriberList[j].mConnHandle {
        HandlesDiffer(mSubscriberList, i, j);
      }
      current.mIsInactive := true;
      forall i | 0 <= i < |was| ensures |RetiredSubs(was, current.mConnHandle)| == |was|
        && Values(mSubscriberList)[i] == RetiredSubs(was, current.mConnHandle)[i] {
        RetiredAt(was, current.mConnHandle, i);
      }
      RetiredAt(was, current.mConnHandle, 0);
    }

    method ProcessUnsubscribe(current: AgpsSubscriber)
      requires Valid() && (mState != Released ==> current in mSubscriberList)
      modifies this, current
      ensures Machine() == Unsubscribed(old(Machine()), old(current.Value()))
      ensures Repr() <= old(Repr())
    {
      match mState {
        case Released => notes := notes + [Note(Closed, current.mConnHandle, mState)];
        case Pending => LeaveOrRelease(current);
        case Acquired => LeaveOrRelease(current);
        case Releasing =>
          StepAsideNow(current);
          if mSubscriberList == [] {
            mState := Released;
          }
      }
    }

    method LeaveOrRelease(current: AgpsSubscriber)
      requires Valid() && current in mSubscriberList && (mState == Pending || mState == Acquired)
      modifies this, current
      ensures Machine() == Unsubscribed(old(Machine()), old(current.Value()))
      ensures Repr() <= old(Repr())
    {
      StepAsideNow(current);
      var active := AnyActiveSubscribers();
      if mSubscriberList == [] {
        mState := Released;
        RequestOrReleaseDataConn(false);
      } else if !active {
        mState := Releasing;
        RequestOrReleaseDataConn(false);
      }
    }

    method ProcessGranted()
      modifies this`mState, this`mSubscriberList, this`notes
      ensures Machine() == AfterGranted(old(Machine()))
      ensures Repr() <= old(Repr())
    {
      if mState == Pending {
        mState := Acquired;
        NotifyAllSubscribers(OpenOk, false, OnlyActive);
      }
    }

    method Reopen()
      requires mState == Releasing
      modifies this`mState, this`mSubscriberList, this`wire, this`notes
      ensures Machine() == Reopened(old(Machine()))
      ensures Repr() <= old(Repr())
    {
      NotifyAllSubscribers(Closed, true, OnlyInactive);
      var active := AnyActiveSubscribers();
      if active {
        mState := Pending;
        RequestOrReleaseDataConn(true);
      } else {
        mState := Released;
      }
    }

    method ProcessReleased()
      modifies this`mState, this`mSubscriberList, this`wire, this`notes
      ensures Machine() == AfterReleased(old(Machine()))
      ensures Repr() <= old(Repr())
    {
      match mState {
        case Released =>
        case Acquired =>
          mState := Released;
          NotifyAllSubscribers(Closed, true, All);
        case Releasing => Reopen();
        case Pending =>
      }
    }

    method ProcessDenied()
      modifies this`mState, this`mSubscriberList, this`wire, this`notes
      ensures Machine() == AfterDenied(old(Machine()))
      ensures Repr() <= old(Repr())
    {
      match mState {
        case Released =>
        case Acquired =>
        case Releasing => Reopen();
        case Pending =>
          mState := Released;
          NotifyAllSubscribers(OpenFailed, true, All);
      }
    }

    /** The event switch.  `current` is the subscriber whose request is being processed:
        an outside one for SUBSCRIBE, the listed one for UNSUBSCRIBE. */
    method ProcessAgpsEvent(event: AgpsEvent, current: AgpsSubscriber?)
      requires Valid()
      requires event == SUBSCRIBE ==> current != null && !current.mIsInactive
      requires event == UNSUBSCRIBE ==> current != null && current in mSubscriberList && Listed(current)
      modifies Repr()
      ensures Valid() && fresh(Repr() - old(Repr()))
      ensures Machine() == Step(old(Machine()), EventOf(event, current))
    {
      StepKeepsList(Machine(), EventOf(event, current));
      match event {
        case SUBSCRIBE => ProcessSubscribe(current);
        case UNSUBSCRIBE => ProcessUnsubscribe(current);
        case GRANTED => ProcessGranted();
        case RELEASED => ProcessReleased();
        case DENIED => ProcessDenied();
      }
    }

    /** The first entry with this subscriber's handle is this subscriber. */
    ghost predicate Listed(subscriber: AgpsSubscriber)
      reads this, mSubscriberList, subscriber
    {
      Lookup(Values(mSubscriberList), subscriber.mConnHandle) == Some(subscriber.Value())
    }

    /** A modem restart empties the list and touches nothing else. */
    method DropAllSubscribers()
      modifies this`mSubscriberList, this`notes
      ensures Machine() == AfterRestart(old(Machine()))
      ensures Repr() <= old(Repr())
    {
      while mSubscriberList != []
        invariant forall s :: s in mSubscriberList ==> s in old(mSubscriberList)
        invariant notes + Drops(Values(mSubscriberList), mState) == old(notes) + Drops(old(Values(mSubscriberList)), mState)
        decreases |mSubscriberList|
      {
        DropStep(notes, Values(mSubscriberList), mState);
        notes := notes + [Note(Dropped, mSubscriberList[0].mConnHandle, mState)];
        mSubscriberList := mSubscriberList[1..];
      }
    }
  }

  datatype AgpsType = Invalid | Supl | SuplEs | WwanAny | OtherType

  /** Two machines, one for SUPL traffic and one for everything else; either may be missing. */
  class AgpsManager {
    const useEmergencyPdn: bool
    var mAgnssNif: AgpsStateMachine?
    var mInternetNif: AgpsStateMachine?
    ghost var refused: seq<int>

    ghost function ReprOf(sm: AgpsStateMachine?): set<object>
      reads sm
    {
      if sm == null then {} else sm.Repr()
    }

    ghost predicate ValidOf(sm: AgpsStateMachine?)
      reads sm, ReprOf(sm)
    {
      sm != null ==> sm.Valid()
    }

    ghost predicate Valid()
      reads this, mAgnssNif, mInternetNif, ReprOf(mAgnssNif), ReprOf(mInternetNif)
    {
      && ValidOf(mAgnssNif) && ValidOf(mInternetNif)
      && ReprOf(mAgnssNif) !! ReprOf(mInternetNif)
      && this !in ReprOf(mAgnssNif) && this !in ReprOf(mInternetNif)
    }

    function MachineFor(agpsType: AgpsType): (sm: AgpsStateMachine?)
      reads this
      ensures agpsType.Invalid? || agpsType.Supl? || agpsType.SuplEs? ==> sm == mAgnssNif
      ensures agpsType.WwanAny? || agpsType.OtherType? ==> sm == mInternetNif
    {
      if agpsType == WwanAny || agpsType == OtherType then mInternetNif else mAgnssNif
    }

    /** Only the chosen machine, if any, made the step; the other one is as it was. */
    twostate predicate Stepped(chosen: AgpsStateMachine?, e: Event)
      reads this, mAgnssNif, mInternetNif, ReprOf(mAgnssNif), ReprOf(mInternetNif)
    {
      && mAgnssNif == old(mAgnssNif) && mInternetNif == old(mInternetNif)
      && (mAgnssNif != null ==>
            mAgnssNif.Machine() == if chosen == mAgnssNif then Step(old(mAgnssNif.Machine()), e) else old(mAgnssNif.Machine()))
      && (mInternetNif != null ==>
            mInternetNif.Machine() == if chosen == mInternetNif then Step(old(mInternetNif.Machine()), e) else old(mInternetNif.Machine()))
    }

    /** Hands an event to one of the two machines. */
    method Dispatch(sm: AgpsStateMachine, event: AgpsEvent, current: AgpsSubscriber?)
      requires Valid() && (sm == mAgnssNif || sm == mInternetNif)
      requires event == SUBSCRIBE ==> current != null && !current.mIsInactive
      requires event == UNSUBSCRIBE ==> current != null && current in sm.mSubscriberList && sm.Listed(current)
      modifies sm.Repr()
      ensures Valid() && fresh(sm.Repr() - old(sm.Repr()))
      ensures Stepped(sm, EventOf(event, current))
    {
      sm.ProcessAgpsEvent(event, current);
    }

    /** A request is carried by a subscriber of its own. */
    method Subscribe(sm: AgpsStateMachine, connHandle: int, waitForCloseComplete: bool)
      requires Valid() && (sm == mAgnssNif || sm == mInternetNif)
      modifies sm.Repr()
      ensures Valid() && Stepped(sm, Event.Subscribe(connHandle, waitForCloseComplete))
    {
      var subscriber := new AgpsSubscriber(connHandle, waitForCloseComplete, false);
      Dispatch(sm, SUBSCRIBE, subscriber);
    }

    method RequestATL(connHandle: int, agpsType: AgpsType, waitForCloseComplete: bool)
      requires Valid()
      modifies this`refused, ReprOf(mAgnssNif), ReprOf(mInternetNif)
      ensures Valid()
      ensures var t := if !useEmergencyPdn && agpsType == SuplEs then Supl else agpsType;
        && Stepped(old(MachineFor(t)), Event.Subscribe(connHandle, waitForCloseComplete))
        && refused == if old(MachineFor(t)) == null then old(refused) + [connHandle] else old(refused)
    {
      var sm := MachineFor(if !useEmergencyPdn && agpsType == SuplEs then Supl else agpsType);
      if sm == null {
        refused := refused + [connHandle];
      } else {
        Subscribe(sm, connHandle, waitForCloseComplete);
      }
    }

    ghost predicate Serves(sm: AgpsStateMachine?, connHandle: int)
      reads sm, ReprOf(sm)
    {
      sm != null && Lookup(Values(sm.mSubscriberList), connHandle).Some?
    }

    /** Searches both machines; a handle that neither serves changes nothing. */
    method ReleaseATL(connHandle: int)
      requires Valid()
      modifies ReprOf(mAgnssNif), ReprOf(mInternetNif)
      ensures Valid()
      ensures Stepped(if old(Serves(mAgnssNif, connHandle)) then old(mAgnssNif) else old(mInternetNif),
                      Unsubscribe(connHandle))
    {
      var found := false;
      if mAgnssNif != null {
        found := ReleaseFrom(mAgnssNif, connHandle);
      }
      if !found && mInternetNif != null {
        found := ReleaseFrom(mInternetNif, connHandle);
      }
    }

    method ReleaseFrom(sm: AgpsStateMachine, connHandle: int) returns (found: bool)
      requires Valid() && (sm == mAgnssNif || sm == mInternetNif)
      modifies sm.Repr()
      ensures Valid() && (found <==> old(Serves(sm, connHandle)))
      ensures Stepped(if found then sm else null, Unsubscribe(connHandle))
    {
      var subscriber := sm.GetSubscriber(connHandle);
      found := subscriber != null;
      if found {
        LookupHandle(Values(sm.mSubscriberList), connHandle);
        Dispatch(sm, UNSUBSCRIBE, subscriber);
      }
    }

    /** Fails, as the two after it, exactly when no machine was created for the type: the source
        then calls through a null pointer. */
    method ReportAtlOpenSuccess(agpsType: AgpsType) returns (failed: bool)
      requires Valid()
      modifies ReprOf(mAgnssNif), ReprOf(mInternetNif)
      ensures Valid() && Stepped(old(MachineFor(agpsType)), Granted)
      ensures failed <==> old(MachineFor(agpsType)) == null
    {
      var sm := MachineFor(agpsType);
      failed := sm == null;
      if !failed {
        Dispatch(sm, GRANTED, null);
      }
    }

    method ReportAtlOpenFailed(agpsType: AgpsType) returns (failed: bool)
      requires Valid()
      modifies ReprOf(mAgnssNif), ReprOf(mInternetNif)
      ensures Valid() && Stepped(old(MachineFor(agpsType)), Denied)
      ensures failed <==> old(MachineFor(agpsType)) == null
    {
      var sm := MachineFor(agpsType);
      failed := sm == null;
      if !failed {
        Dispatch(sm, DENIED, null);
      }
    }

    method ReportAtlClosed(agpsType: AgpsType) returns (failed: bool)
      requires Valid()
      modifies ReprOf(mAgnssNif), ReprOf(mInternetNif)
      ensures Valid() && Stepped(old(MachineFor(agpsType)), ReleasedEvent)
      ensures failed <==> old(MachineFor(agpsType)) == null
    {
      var sm := MachineFor(agpsType);
      failed := sm == null;
      if !failed {
        Dispatch(sm, RELEASED, null);
      }
    }

    method HandleModemSSR()
      requires Valid()
      modifies ReprOf(mAgnssNif), ReprOf(mInternetNif)
      ensures Valid() && mAgnssNif == old(mAgnssNif) && mInternetNif == old(mInternetNif)
      ensures mAgnssNif != null ==> mAgnssNif.Machine() == Step(old(mAgnssNif.Machine()), ModemRestart)
      ensures mInternetNif != null ==> mInternetNif.Machine() == Step(old(mInternetNif.Machine()), ModemRestart)
    {
      if mAgnssNif != null {
        StepKeepsList(mAgnssNif.Machine(), ModemRestart);
        mAgnssNif.DropAllSubscribers();
      }
      if mInternetNif != null {
        StepKeepsList(mInternetNif.Machine(), ModemRestart);
        mInternetNif.DropAllSubscribers();
      }
    }
  }
}
