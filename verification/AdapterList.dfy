/** The registered adapters as a list, the messages that registering and unregistering
    cause, and the combined event mask. */
module AdapterList {
  import opened Common

  const MAX_ADAPTERS := 10

  datatype Message<T> = Open(added: T) | Reopen | Close

  /** Registering appends, unless the adapter is there or the array is full. */
  function Added<T(==)>(s: seq<T>, a: T): seq<T> {
    if a in s || |s| >= MAX_ADAPTERS then s else s + [a]
  }

  function Place<T(==)>(s: seq<T>, a: T): (i: nat)
    requires a in s
    ensures i < |s| && s[i] == a && forall j :: 0 <= j < i ==> s[j] != a
  {
    if s[0] == a then 0 else 1 + Place(s[1..], a)
  }

  /** Unregistering moves the last adapter into the gap. */
  function Dropped<T(==)>(s: seq<T>, a: T): seq<T> {
    if a in s then s[Place(s, a) := s[|s| - 1]][..|s| - 1] else s
  }

  function AddMessages<T(==)>(s: seq<T>, a: T): seq<Message<T>> {
    if a in s || |s| >= MAX_ADAPTERS then [] else [Open(a)]
  }

  function DropMessages<T(==)>(s: seq<T>, a: T): seq<Message<T>> {
    if a !in s then [] else if |s| == 1 then [Close] else [Reopen]
  }

  /** The gap is closed with exactly the given adapter gone. */
  lemma DroppedIsExact<T>(s: seq<T>, a: T)
    requires Distinct(s)
    ensures Distinct(Dropped(s, a))
    ensures forall x :: x in s ==> (x in Dropped(s, a) <==> x != a)
    ensures forall x :: x in Dropped(s, a) ==> x in s && x != a
  {
    if a in s {
      var i, n := Place(s, a), |s| - 1;
      var r := Dropped(s, a);
      assert forall j :: 0 <= j < n ==> r[j] == if j == i then s[n] else s[j];
      forall x | x in s && x != a ensures x in r {
        var j :| 0 <= j < |s| && s[j] == x;
        assert j != i;
        assert if j == n then r[i] == x else r[j] == x;
      }
    }
  }

  datatype Event<T> = Add(adapter: T) | Remove(adapter: T)

  datatype State<T> = State(adapters: seq<T>, sent: seq<Message<T>>)

  function Step<T(==)>(s: State<T>, e: Event<T>): State<T> {
    match e
    case Add(a) => State(Added(s.adapters, a), s.sent + AddMessages(s.adapters, a))
    case Remove(a) => State(Dropped(s.adapters, a), s.sent + DropMessages(s.adapters, a))
  }

  function Run<T(==)>(events: seq<Event<T>>): State<T> {
    if events == [] then State([], []) else Step(Run(events[..|events| - 1]), events[|events| - 1])
  }

  /** What registering and unregistering mean: a bounded set. */
  function Meaning<T(==)>(events: seq<Event<T>>): set<T> {
    if events == [] then {}
    else
      var before := Meaning(events[..|events| - 1]);
      match events[|events| - 1]
      case Add(a) => if |before| < MAX_ADAPTERS then before + {a} else before
      case Remove(a) => before - {a}
  }

  ghost predicate Lists<T>(s: seq<T>, all: set<T>) {
    Distinct(s) && (forall x :: x in s ==> x in all) && (forall x :: x in all ==> x in s) && |s| == |all|
  }

  /** The engine is open exactly while an adapter is registered. */
  predicate OpenWhileUsed<T>(s: State<T>) {
    (s.sent != [] && !s.sent[|s.sent| - 1].Close?) <==> |s.adapters| > 0
  }

  lemma AddKeeps<T>(s: State<T>, a: T, all: set<T>)
    requires Lists(s.adapters, all) && OpenWhileUsed(s)
    ensures var s' := Step(s, Add(a));
      Lists(s'.adapters, if |all| < MAX_ADAPTERS then all + {a} else all) && OpenWhileUsed(s')
  {
  }

  lemma RemoveKeeps<T>(s: State<T>, a: T, all: set<T>)
    requires Lists(s.adapters, all) && OpenWhileUsed(s)
    ensures var s' := Step(s, Remove(a)); Lists(s'.adapters, all - {a}) && OpenWhileUsed(s')
  {
    DroppedIsExact(s.adapters, a);
    assert a !in all ==> all - {a} == all;
  }

  /** Under any mix of both, the list is the set without duplicates, never longer than the
      array, and the last message is a close exactly when the list is empty. */
  lemma {:induction false} RunRefinesSet<T>(events: seq<Event<T>>)
    ensures Lists(Run(events).adapters, Meaning(events)) && OpenWhileUsed(Run(events))
    ensures |Run(events).adapters| <= MAX_ADAPTERS
  {
    if events != [] {
      var before := events[..|events| - 1];
      RunRefinesSet(before);
      match events[|events| - 1]
      case Add(a) => AddKeeps(Run(before), a, Meaning(before));
      case Remove(a) => RemoveKeeps(Run(before), a, Meaning(before));
    }
  }

  function Closes<T>(sent: seq<Message<T>>): nat {
    if sent == [] then 0 else Closes(sent[..|sent| - 1]) + if sent[|sent| - 1].Close? then 1 else 0
  }

  /** How often the last registered adapter has left. */
  function Emptied<T(==)>(events: seq<Event<T>>): nat {
    if events == [] then 0
    else
      var before := events[..|events| - 1];
      Emptied(before) + if Run(before).adapters != [] && Run(events).adapters == [] then 1 else 0
  }

  lemma ClosesOneMore<T>(s: State<T>, e: Event<T>)
    ensures Closes(Step(s, e).sent) == Closes(s.sent) + if s.adapters != [] && Step(s, e).adapters == [] then 1 else 0
  {
    var more := match e case Add(a) => AddMessages(s.adapters, a) case Remove(a) => DropMessages(s.adapters, a);
    if more == [] {
      assert s.sent + more == s.sent;
    } else {
      assert (s.sent + more)[..|s.sent|] == s.sent;
    }
  }

  /** One close for each time the list becomes empty, and none besides. */
  lemma {:induction false} ClosedWhenEmptied<T>(events: seq<Event<T>>)
    ensures Closes(Run(events).sent) == Emptied(events)
  {
    if events != [] {
      ClosedWhenEmptied(events[..|events| - 1]);
      ClosesOneMore(Run(events[..|events| - 1]), events[|events| - 1]);
    }
  }

  /** The messages due, read off the set alone: an open for each adapter that joins, naming it;
      a close when the last one leaves, and a reopen when another one does. */
  function DueMessages<T(==)>(events: seq<Event<T>>): seq<Message<T>> {
    if events == [] then []
    else
      var before := events[..|events| - 1];
      var all := Meaning(before);
      DueMessages(before) +
        match events[|events| - 1]
        case Add(a) => if a !in all && |all| < MAX_ADAPTERS then [Open(a)] else []
        case Remove(a) => if a !in all then [] else if all == {a} then [Close] else [Reopen]
  }

  lemma OneElement<T>(s: seq<T>, all: set<T>, a: T)
    requires Lists(s, all) && a in all
    ensures |s| == 1 <==> all == {a}
  {
    if |s| == 1 {
      forall x | x in all ensures x == a {
        assert x in s && a in s;
      }
    }
  }

  /** In every run exactly those are sent. */
  lemma {:induction false} SentExactly<T>(events: seq<Event<T>>)
    ensures Run(events).sent == DueMessages(events)
  {
    if events != [] {
      var before := events[..|events| - 1];
      SentExactly(before);
      RunRefinesSet(before);
      var a := events[|events| - 1].adapter;
      if a in Meaning(before) { OneElement(Run(before).adapters, Meaning(before), a); }
    }
  }
}
