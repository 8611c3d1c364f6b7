/** The value a rank-ordered heap holds in its linked nodes, and what push, pop and
    remove make of it.  Each node keeps its cached subtree size, so that a wrong
    cache is a different value; nothing here assumes that caches are right. */
module LocHeapTree {
  import opened Common

  datatype Tree<T> = Nil | Node(size: int, left: Tree<T>, data: T, right: Tree<T>)

  /** `out(x, y)` reads "x ranks strictly higher than y"; equal ranks are allowed. */
  ghost predicate StrictWeakOrder<T(!new)>(out: (T, T) -> bool) {
    && (forall x, y :: out(x, y) ==> !out(y, x))
    && (forall x, y, z :: out(x, z) ==> out(x, y) || out(y, z))
  }

  ghost function Elements<T>(t: Tree<T>): multiset<T> {
    match t
    case Nil => multiset{}
    case Node(_, l, d, r) => multiset{d} + Elements(l) + Elements(r)
  }

  function Count<T>(t: Tree<T>): nat {
    match t
    case Nil => 0
    case Node(_, l, _, r) => 1 + Count(l) + Count(r)
  }

  /** No child outranks its parent. */
  predicate Ordered<T>(out: (T, T) -> bool, t: Tree<T>) {
    t.Node? ==>
      && Ordered(out, t.left) && Ordered(out, t.right)
      && (t.left.Node? ==> !out(t.left.data, t.data))
      && (t.right.Node? ==> !out(t.right.data, t.data))
  }

  function CachedSize<T>(t: Tree<T>): int {
    if t.Nil? then 0 else t.size
  }

  /** Every cached size is one more than the cached sizes of the children. */
  predicate Sized<T>(t: Tree<T>) {
    t.Node? ==>
      && Sized(t.left) && Sized(t.right)
      && t.size == 1 + CachedSize(t.left) + CachedSize(t.right)
  }

  ghost predicate Sound<T>(out: (T, T) -> bool, t: Tree<T>) {
    Ordered(out, t) && Sized(t)
  }

  function Singleton<T>(x: T): Tree<T> {
    Node(1, Nil, x, Nil)
  }

  function Pushed<T>(out: (T, T) -> bool, t: Tree<T>, x: T): (r: Tree<T>)
    ensures r.Node?
    decreases Count(t), 1
  {
    if t.Nil? then Singleton(x)
    else if out(x, t.data) then Dropped(out, t.(data := x), t.data)
    else Dropped(out, t, x)
  }

  /** `x`, which goes no higher than the top, finds its place in the smaller subtree. */
  function Dropped<T>(out: (T, T) -> bool, t: Tree<T>, x: T): (r: Tree<T>)
    requires t.Node?
    ensures r.Node? && r.data == t.data
    decreases Count(t), 0
  {
    if t.left.Nil? then Node(t.size + 1, Singleton(x), t.data, t.right)
    else if t.right.Nil? then Node(t.size + 1, t.left, t.data, Singleton(x))
    else if t.left.size <= t.right.size then Node(t.size + 1, Pushed(out, t.left, x), t.data, t.right)
    else Node(t.size + 1, t.left, t.data, Pushed(out, t.right, x))
  }

  /** Whether a pop takes its replacement from the left child. */
  predicate TakesLeft<T>(out: (T, T) -> bool, t: Tree<T>)
    requires t.Node? && (t.left.Node? || t.right.Node?)
  {
    t.left.Node? && (t.right.Nil? || out(t.left.data, t.right.data))
  }

  function Popped<T>(out: (T, T) -> bool, t: Tree<T>): Tree<T>
    requires t.Node?
  {
    if t.left.Nil? && t.right.Nil? then Nil
    else if TakesLeft(out, t) then Node(t.size - 1, Popped(out, t.left), t.left.data, t.right)
    else Node(t.size - 1, t.left, t.right.data, Popped(out, t.right))
  }

  /** Search by identity, skipping every subtree whose top `x` outranks; the flag says
      whether an occurrence was taken out. */
  function Removed<T(==)>(out: (T, T) -> bool, t: Tree<T>, x: T): (Tree<T>, bool) {
    if t.Nil? then (t, false)
    else if x == t.data then (Popped(out, t), true)
    else if out(x, t.data) then (t, false)
    else
      var (l, inLeft) := Removed(out, t.left, x);
      if inLeft then (Node(t.size - 1, l, t.data, t.right), true) else
      var (r, inRight) := Removed(out, t.right, x);
      if inRight then (Node(t.size - 1, t.left, t.data, r), true) else (t, false)
  }

  /** A cached size that satisfies the local equation everywhere is the true node count. */
  lemma {:induction false} CachedSizeIsCount<T>(t: Tree<T>)
    requires Sized(t)
    ensures CachedSize(t) == Count(t) == |Elements(t)|
  {
    if t.Node? {
      CachedSizeIsCount(t.left);
      CachedSizeIsCount(t.right);
    }
  }

  /** The local parent/child check reaches the whole subtree: nothing outranks the top. */
  lemma {:induction false} NothingOutranksTop<T(!new)>(out: (T, T) -> bool, t: Tree<T>)
    requires StrictWeakOrder(out) && Ordered(out, t) && t.Node?
    ensures forall e :: e in Elements(t) ==> !out(e, t.data)
  {
    if t.left.Node? { NothingOutranksTop(out, t.left); }
    if t.right.Node? { NothingOutranksTop(out, t.right); }
    forall e | e in Elements(t) ensures !out(e, t.data) {
      if e in Elements(t.left) {
        assert !out(e, t.left.data) && !out(t.left.data, t.data);
      } else if e in Elements(t.right) {
        assert !out(e, t.right.data) && !out(t.right.data, t.data);
      }
    }
  }

  /** How often `e` occurs in the tree: the multiset `Elements`, one element at a time. */
  ghost function Occurs<T>(t: Tree<T>, e: T): nat {
    if t.Nil? then 0 else One(t.data, e) + Occurs(t.left, e) + Occurs(t.right, e)
  }

  ghost function One<T>(x: T, e: T): nat {
    if x == e then 1 else 0
  }

  lemma {:induction false} OccursIsMultiplicity<T>(t: Tree<T>, e: T)
    ensures Occurs(t, e) == Elements(t)[e]
  {
    if t.Node? {
      OccursIsMultiplicity(t.left, e);
      OccursIsMultiplicity(t.right, e);
    }
  }

  /** Two trees whose occurrences differ by one `x` differ by one `x` as multisets. */
  lemma {:induction false} DifferByOne<T(!new)>(t: Tree<T>, r: Tree<T>, x: T)
    requires forall e :: Occurs(t, e) == Occurs(r, e) + One(x, e)
    ensures Elements(t) == Elements(r) + multiset{x}
    ensures Elements(r) == Elements(t) - multiset{x}
    ensures x in Elements(t)
  {
    var a, b := Elements(t), Elements(r);
    forall e: T ensures a[e] == b[e] + One(x, e) {
      OccursIsMultiplicity(t, e);
      OccursIsMultiplicity(r, e);
    }
    AddOne(a, b, x);
  }

  lemma AddOne<T(!new)>(a: multiset<T>, b: multiset<T>, x: T)
    requires forall e :: a[e] == b[e] + One(x, e)
    ensures a == b + multiset{x} && b == a - multiset{x} && x in a
  {
    assert a[x] == b[x] + One(x, x);
    assert a == b + multiset{x};
  }

  lemma {:induction false} PushOccurs<T>(out: (T, T) -> bool, t: Tree<T>, x: T, e: T)
    ensures Occurs(Pushed(out, t, x), e) == Occurs(t, e) + One(x, e)
  {
    if t.Node? && t.left.Node? && t.right.Node? {
      var down := if out(x, t.data) then t.data else x;
      if t.left.size <= t.right.size { PushOccurs(out, t.left, down, e); } else { PushOccurs(out, t.right, down, e); }
    }
  }

  lemma {:induction false} PushSized<T>(out: (T, T) -> bool, t: Tree<T>, x: T)
    requires Sized(t)
    ensures Sized(Pushed(out, t, x)) && Pushed(out, t, x).size == CachedSize(t) + 1
  {
    if t.Node? && t.left.Node? && t.right.Node? {
      var down := if out(x, t.data) then t.data else x;
      if t.left.size <= t.right.size { PushSized(out, t.left, down); } else { PushSized(out, t.right, down); }
    }
  }

  lemma {:induction false} PushOrders<T(!new)>(out: (T, T) -> bool, t: Tree<T>, x: T)
    requires StrictWeakOrder(out) && Ordered(out, t)
    ensures Ordered(out, Pushed(out, t, x))
    ensures Pushed(out, t, x).data == if t.Node? && !out(x, t.data) then t.data else x
  {
    if t.Node? {
      var keep := if out(x, t.data) then x else t.data;
      var down := if out(x, t.data) then t.data else x;
      assert !out(down, keep);
      assert t.left.Node? ==> !out(t.left.data, keep);
      assert t.right.Node? ==> !out(t.right.data, keep);
      if t.left.Node? && t.right.Node? {
        if t.left.size <= t.right.size { PushOrders(out, t.left, down); } else { PushOrders(out, t.right, down); }
      }
    }
  }

  lemma {:induction false} PopOccurs<T>(out: (T, T) -> bool, t: Tree<T>, e: T)
    requires t.Node?
    ensures Occurs(t, e) == Occurs(Popped(out, t), e) + One(t.data, e)
  {
    if t.left.Nil? && t.right.Nil? {
    } else if TakesLeft(out, t) {
      PopOccurs(out, t.left, e);
    } else {
      PopOccurs(out, t.right, e);
    }
  }

  lemma {:induction false} PopSized<T>(out: (T, T) -> bool, t: Tree<T>)
    requires t.Node? && Sized(t)
    ensures Sized(Popped(out, t)) && CachedSize(Popped(out, t)) == t.size - 1
  {
    if t.left.Nil? && t.right.Nil? {
    } else if TakesLeft(out, t) {
      PopSized(out, t.left);
    } else {
      PopSized(out, t.right);
    }
  }

  lemma {:induction false} PopOrders<T(!new)>(out: (T, T) -> bool, t: Tree<T>)
    requires StrictWeakOrder(out) && Ordered(out, t) && t.Node?
    ensures Ordered(out, Popped(out, t))
    ensures Popped(out, t).Node? ==> !out(Popped(out, t).data, t.data)
  {
    if t.left.Nil? && t.right.Nil? {
    } else if TakesLeft(out, t) {
      PopOrders(out, t.left);
    } else {
      PopOrders(out, t.right);
    }
  }

  lemma {:induction false} RemoveOccurs<T>(out: (T, T) -> bool, t: Tree<T>, x: T, e: T)
    ensures var (r, found) := Removed(out, t, x);
      if found then Occurs(t, e) == Occurs(r, e) + One(x, e) else r == t
  {
    if t.Node? {
      if x == t.data {
        PopOccurs(out, t, e);
      } else if !out(x, t.data) {
        RemoveOccurs(out, t.left, x, e);
        RemoveOccurs(out, t.right, x, e);
      }
    }
  }

  lemma {:induction false} RemoveSized<T>(out: (T, T) -> bool, t: Tree<T>, x: T)
    requires Sized(t)
    ensures var (r, found) := Removed(out, t, x);
      Sized(r) && CachedSize(r) == CachedSize(t) - if found then 1 else 0
  {
    if t.Node? {
      if x == t.data {
        PopSized(out, t);
      } else if !out(x, t.data) {
        RemoveSized(out, t.left, x);
        RemoveSized(out, t.right, x);
      }
    }
  }

  /** A subtree's new top was already in that subtree, so it cannot outrank the parent. */
  lemma {:induction false} RemoveOrders<T(!new)>(out: (T, T) -> bool, t: Tree<T>, x: T)
    requires StrictWeakOrder(out) && Ordered(out, t)
    ensures var (r, _) := Removed(out, t, x);
      && Ordered(out, r)
      && (r.Node? && t.Node? ==> !out(r.data, t.data))
  {
    if t.Node? {
      if x == t.data {
        PopOrders(out, t);
      } else if !out(x, t.data) {
        RemoveOrders(out, t.left, x);
        RemoveOrders(out, t.right, x);
      }
    }
  }

  /** Although every subtree whose top the argument outranks is skipped, nothing is missed. */
  lemma {:induction false} RemoveFinds<T(!new)>(out: (T, T) -> bool, t: Tree<T>, x: T)
    requires StrictWeakOrder(out) && Ordered(out, t)
    ensures Removed(out, t, x).1 <==> x in Elements(t)
  {
    if t.Node? {
      NothingOutranksTop(out, t);
      if x != t.data && !out(x, t.data) {
        RemoveFinds(out, t.left, x);
        RemoveFinds(out, t.right, x);
      }
    }
  }

  /** Pruned removal is complete and sound: it succeeds exactly when the argument is in
      the heap, takes out exactly one occurrence, and keeps order and sizes. */
  lemma {:induction false} RemoveSound<T(!new)>(out: (T, T) -> bool, t: Tree<T>, x: T)
    requires StrictWeakOrder(out) && Sound(out, t)
    ensures var (r, found) := Removed(out, t, x);
      && (found <==> x in Elements(t))
      && Sound(out, r)
      && Elements(r) == Elements(t) - multiset{x}
      && CachedSize(r) == CachedSize(t) - (if found then 1 else 0)
      && (!found ==> r == t)
  {
    var (r, found) := Removed(out, t, x);
    RemoveFinds(out, t, x);
    RemoveOrders(out, t, x);
    RemoveSized(out, t, x);
    forall e: T ensures if found then Occurs(t, e) == Occurs(r, e) + One(x, e) else r == t {
      RemoveOccurs(out, t, x, e);
    }
    if found { DifferByOne(t, r, x); } else { RemoveOccurs(out, t, x, x); }
  }

  lemma {:induction false} PushSound<T(!new)>(out: (T, T) -> bool, t: Tree<T>, x: T)
    requires StrictWeakOrder(out) && Sound(out, t)
    ensures Sound(out, Pushed(out, t, x))
    ensures Elements(Pushed(out, t, x)) == Elements(t) + multiset{x}
  {
    PushOrders(out, t, x);
    PushSized(out, t, x);
    forall e: T { PushOccurs(out, t, x, e); }
    DifferByOne(Pushed(out, t, x), t, x);
  }

  /** Pop takes out exactly the top, and nothing in the heap outranks that. */
  lemma {:induction false} PopSound<T(!new)>(out: (T, T) -> bool, t: Tree<T>)
    requires StrictWeakOrder(out) && Sound(out, t) && t.Node?
    ensures Sound(out, Popped(out, t))
    ensures t.data in Elements(t) && Elements(Popped(out, t)) == Elements(t) - multiset{t.data}
    ensures forall e :: e in Elements(t) ==> !out(e, t.data)
  {
    PopOrders(out, t);
    PopSized(out, t);
    forall e: T { PopOccurs(out, t, e); }
    DifferByOne(t, Popped(out, t), t.data);
    NothingOutranksTop(out, t);
  }

  // ---------------------------------------------------------------- runs

  datatype Op<T> = Push(x: T) | Pop | Remove(x: T)

  /** One operation: the new heap and what is handed back. */
  function Apply<T(==)>(out: (T, T) -> bool, t: Tree<T>, op: Op<T>): (Tree<T>, Option<T>) {
    match op
    case Push(x) => (Pushed(out, t, x), None)
    case Pop => if t.Nil? then (t, None) else (Popped(out, t), Some(t.data))
    case Remove(x) =>
      var (r, found) := Removed(out, t, x);
      (r, if found then Some(x) else None)
  }

  /** The heap after a run of operations on an initially empty one. */
  function After<T(==)>(out: (T, T) -> bool, ops: seq<Op<T>>): Tree<T> {
    if ops == [] then Nil else Apply(out, After(out, ops[..|ops| - 1]), ops[|ops| - 1]).0
  }

  /** One step of a priority queue that is nothing but a multiset. */
  ghost predicate QueueStep<T(!new)>(out: (T, T) -> bool, before: multiset<T>, op: Op<T>,
                                     after: multiset<T>, answer: Option<T>)
  {
    match op
    case Push(x) => after == before + multiset{x} && answer == None
    case Pop =>
      if before == multiset{} then after == before && answer == None
      else
        && answer.Some? && answer.value in before
        && after == before - multiset{answer.value}
        && forall e :: e in before ==> !out(e, answer.value)
    case Remove(x) =>
      && after == before - multiset{x}
      && answer == if x in before then Some(x) else None
  }

  lemma {:induction false} StepRefinesQueue<T(!new)>(out: (T, T) -> bool, t: Tree<T>, op: Op<T>)
    requires StrictWeakOrder(out) && Sound(out, t)
    ensures var (t', answer) := Apply(out, t, op);
      Sound(out, t') && QueueStep(out, Elements(t), op, Elements(t'), answer)
  {
    match op {
      case Push(x) => PushSound(out, t, x);
      case Pop => if t.Node? { PopSound(out, t); }
      case Remove(x) => RemoveSound(out, t, x);
    }
  }

  /** Every prefix of every run keeps order and sizes, the cached size is the number of
      elements, and every step is a step of the multiset queue. */
  lemma {:induction false} RunRefinesQueue<T(!new)>(out: (T, T) -> bool, ops: seq<Op<T>>)
    requires StrictWeakOrder(out)
    ensures Sound(out, After(out, ops))
    ensures CachedSize(After(out, ops)) == |Elements(After(out, ops))|
    ensures ops != [] ==>
      var t := After(out, ops[..|ops| - 1]);
      var op := ops[|ops| - 1];
      QueueStep(out, Elements(t), op, Elements(After(out, ops)), Apply(out, t, op).1)
  {
    if ops != [] {
      RunRefinesQueue(out, ops[..|ops| - 1]);
      StepRefinesQueue(out, After(out, ops[..|ops| - 1]), ops[|ops| - 1]);
    }
    CachedSizeIsCount(After(out, ops));
  }

  /** Popping until the heap is empty. */
  function Drained<T>(out: (T, T) -> bool, t: Tree<T>): seq<T>
    decreases Count(t)
  {
    if t.Nil? then [] else
    PopShrinks(out, t);
    [t.data] + Drained(out, Popped(out, t))
  }

  lemma {:induction false} PopShrinks<T>(out: (T, T) -> bool, t: Tree<T>)
    requires t.Node?
    ensures Count(Popped(out, t)) == Count(t) - 1
  {
    if t.left.Nil? && t.right.Nil? {
    } else if TakesLeft(out, t) {
      PopShrinks(out, t.left);
    } else {
      PopShrinks(out, t.right);
    }
  }

  /** No element outranks an earlier one. */
  ghost predicate RankSorted<T>(out: (T, T) -> bool, s: seq<T>) {
    forall i, j :: 0 <= i < j < |s| ==> !out(s[j], s[i])
  }

  lemma PrependSorted<T>(out: (T, T) -> bool, x: T, rest: seq<T>)
    requires RankSorted(out, rest) && forall e :: e in rest ==> !out(e, x)
    ensures RankSorted(out, [x] + rest)
  {
  }

  /** Draining sorts: the result is a rank-sorted permutation of the contents. */
  lemma {:induction false} DrainSorts<T(!new)>(out: (T, T) -> bool, t: Tree<T>)
    requires StrictWeakOrder(out) && Sound(out, t)
    ensures multiset(Drained(out, t)) == Elements(t)
    ensures RankSorted(out, Drained(out, t))
    decreases Count(t)
  {
    if t.Node? {
      PopShrinks(out, t);
      PopSound(out, t);
      DrainSorts(out, Popped(out, t));
      var rest := Drained(out, Popped(out, t));
      forall e | e in rest ensures !out(e, t.data) {
        assert e in multiset(rest);
      }
      PrependSorted(out, t.data, rest);
    }
  }

  // ---------------------------------------------------------------- balance

  function Height<T>(t: Tree<T>): nat {
    if t.Nil? then 0 else
    1 + if Height(t.left) < Height(t.right) then Height(t.right) else Height(t.left)
  }

  function Pow2(n: nat): nat {
    if n == 0 then 1 else 2 * Pow2(n - 1)
  }

  /** At every node the left subtree has as many nodes as the right one, or one more. */
  predicate Braun<T>(t: Tree<T>) {
    t.Node? ==>
      && Braun(t.left) && Braun(t.right)
      && Count(t.right) <= Count(t.left) <= Count(t.right) + 1
  }

  lemma {:induction false} PushKeepsBraun<T>(out: (T, T) -> bool, t: Tree<T>, x: T)
    requires Sized(t) && Braun(t)
    ensures Braun(Pushed(out, t, x))
    ensures Count(Pushed(out, t, x)) == Count(t) + 1
  {
    if t.Node? && t.left.Node? && t.right.Node? {
      CachedSizeIsCount(t.left);
      CachedSizeIsCount(t.right);
      var down := if out(x, t.data) then t.data else x;
      if t.left.size <= t.right.size { PushKeepsBraun(out, t.left, down); } else { PushKeepsBraun(out, t.right, down); }
    }
  }

  lemma {:induction false} BraunHeight<T>(t: Tree<T>)
    requires Braun(t) && t.Node?
    ensures Pow2(Height(t) - 1) <= Count(t) < Pow2(Height(t))
  {
    var l, r := Height(t.left), Height(t.right);
    assert Height(t) - 1 == if l < r then r else l;
    if t.left.Node? { BraunHeight(t.left); }
    if t.right.Node? { BraunHeight(t.right); }
    PowMonotone(l, Height(t) - 1);
    PowMonotone(r, Height(t) - 1);
    assert Pow2(Height(t)) == 2 * Pow2(Height(t) - 1);
  }

  lemma {:induction false} PowMonotone(m: nat, n: nat)
    requires m <= n
    ensures 1 <= Pow2(m) <= Pow2(n)
    decreases n
  {
    if m < n { PowMonotone(m, n - 1); } else if n > 0 { PowMonotone(n - 1, n - 1); }
  }

  /** A heap that was only ever pushed to is a Braun tree, so after n pushes it is exactly
      floor(log2 n) + 1 levels high: that is how deep the next push recurses. */
  lemma {:induction false} PushOnlyIsBalanced<T>(out: (T, T) -> bool, ops: seq<Op<T>>)
    requires forall i :: 0 <= i < |ops| ==> ops[i].Push?
    ensures var t := After(out, ops);
      && Braun(t) && Sized(t) && Count(t) == |ops|
      && (ops != [] ==> Pow2(Height(t) - 1) <= |ops| < Pow2(Height(t)))
  {
    if ops != [] {
      var init := ops[..|ops| - 1];
      var t, x := After(out, init), ops[|ops| - 1].x;
      assert After(out, ops) == Pushed(out, t, x);
      PushOnlyIsBalanced(out, init);
      PushKeepsBraun(out, t, x);
      PushSized(out, t, x);
      BraunHeight(Pushed(out, t, x));
    }
  }
}
