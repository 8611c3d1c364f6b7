/** The linked heap: nodes never move, only the data in them is swapped, and a link is
    cleared when the node below it is taken out.  A C++ `LocHeapNode*&` parameter is a
    link the callee may clear; here the callee returns the link's new value. */
module LocHeap {
  import opened Common
  import opened LocHeapTree

  class LocHeapNode<T(==, !new)> {
    var mSize: int
    var mLeft: LocHeapNode?<T>
    var mRight: LocHeapNode?<T>
    var mData: T
    ghost var repr: set<LocHeapNode<T>>
    ghost var tree: Tree<T>

    /** The nodes below form a tree whose value is `tree`; nothing is said about sizes or ranks. */
    ghost predicate Valid()
      reads this, repr
      ensures Valid() ==> this in repr && tree.Node?
    {
      && this in repr
      && (mLeft != null ==> mLeft in repr && mLeft.repr <= repr && this !in mLeft.repr && mLeft.Valid())
      && (mRight != null ==> mRight in repr && mRight.repr <= repr && this !in mRight.repr && mRight.Valid())
      && (mLeft != null && mRight != null ==> mLeft.repr !! mRight.repr)
      && tree == Node(mSize, if mLeft == null then Nil else mLeft.tree, mData,
                      if mRight == null then Nil else mRight.tree)
    }

    constructor (data: T)
      ensures Valid() && repr == {this} && tree == Singleton(data) && mData == data
    {
      mSize, mLeft, mRight, mData := 1, null, null, data;
      repr, tree := {this}, Singleton(data);
    }

    /** Exchanges the data of two nodes of disjoint trees; nothing is relinked. */
    method Swap(node: LocHeapNode<T>)
      requires Valid() && node.Valid() && repr !! node.repr
      modifies this`mData, this`tree, node`mData, node`tree
      ensures Valid() && tree == old(tree).(data := old(node.mData)) && mData == old(node.mData)
      ensures node.Valid() && node.tree == old(node.tree).(data := old(mData)) && node.mData == old(mData)
    {
      mData, node.mData := node.mData, mData;
      tree, node.tree := tree.(data := mData), node.tree.(data := node.mData);
    }

    /** Exchanges data with a child. */
    method SwapDown(sub: LocHeapNode<T>)
      requires Valid() && (sub == mLeft || sub == mRight)
      modifies this`mData, this`tree, sub`mData, sub`tree
      ensures Valid() && mData == old(sub.mData)
      ensures sub.tree == old(sub.tree).(data := old(mData)) && sub.mData == old(mData)
      ensures mLeft != null && mLeft != sub ==> mLeft.tree == old(mLeft.tree)
      ensures mRight != null && mRight != sub ==> mRight.tree == old(mRight.tree)
    {
      mData, sub.mData := sub.mData, mData;
      sub.tree := sub.tree.(data := sub.mData);
      assert sub.Valid();
      tree := Node(mSize, if mLeft == null then Nil else mLeft.tree, mData,
                   if mRight == null then Nil else mRight.tree);
    }

    /** Sinks a detached node below this one, swapping data on the way down. */
    method Push(node: LocHeapNode<T>, out: (T, T) -> bool)
      requires Valid() && Detached(node)
      modifies repr, node
      ensures Valid() && repr == old(repr) + {node}
      ensures tree == Pushed(out, old(tree), old(node.mData))
      decreases repr, 1
    {
      if out(node.mData, mData) {
        Swap(node);
      }
      Drop(node, out);
    }

    /** A fresh container node, outside this tree. */
    ghost predicate Detached(node: LocHeapNode<T>)
      reads this, node, node.repr
    {
      node.Valid() && node.repr == {node} && node !in repr && node.tree == Singleton(node.mData)
    }

    method Drop(node: LocHeapNode<T>, out: (T, T) -> bool)
      requires Valid() && Detached(node)
      modifies repr, node
      ensures Valid() && repr == old(repr) + {node}
      ensures tree == Dropped(out, old(tree), old(node.mData))
      decreases repr, 0
    {
      if mLeft == null {
        mLeft := node;
      } else if mRight == null {
        mRight := node;
      } else {
        var smaller := if mLeft.mSize <= mRight.mSize then mLeft else mRight;
        smaller.Push(node, out);
      }
      mSize := mSize + 1;
      repr := repr + {node};
      Rebuild(null);
    }

    /** Swaps the top's data down to a leaf and unlinks that leaf. */
    static method Pop(top: LocHeapNode<T>, out: (T, T) -> bool)
      returns (link: LocHeapNode?<T>, popped: LocHeapNode<T>)
      requires top.Valid()
      modifies top.repr
      ensures popped in old(top.repr) && popped.mData == old(top.mData)
      ensures Linked(link, top, old(top.repr) - {popped}, Popped(out, old(top.tree)))
      decreases top.repr, 2
    {
      top.mSize := top.mSize - 1;
      if top.mLeft == null && top.mRight == null {
        link, popped := null, top;
      } else {
        top.Rebuild(null);
        var goLeft := top.mRight == null || (top.mLeft != null && out(top.mLeft.mData, top.mRight.mData));
        popped := top.PopInto(goLeft, out);
        link := top;
      }
    }

    /** Pulls the data of a child up and goes on popping below that child. */
    method PopInto(goLeft: bool, out: (T, T) -> bool) returns (popped: LocHeapNode<T>)
      requires Valid() && if goLeft then mLeft != null else mRight != null
      modifies repr
      ensures Valid() && popped in old(repr) && repr == old(repr) - {popped} && popped.mData == old(mData)
      ensures var t := old(tree);
        tree == if goLeft then Node(t.size, Popped(out, t.left), t.left.data, t.right)
                else Node(t.size, t.left, t.right.data, Popped(out, t.right))
      decreases repr, 1
    {
      var sub := if goLeft then mLeft else mRight;
      PopIgnoresTopData(out, sub.tree, mData);
      SwapDown(sub);
      popped := PopBelow(goLeft, out);
    }

    /** Pops one subtree and relinks what is left of it. */
    method PopBelow(goLeft: bool, out: (T, T) -> bool) returns (popped: LocHeapNode<T>)
      requires Valid() && if goLeft then mLeft != null else mRight != null
      modifies repr
      ensures Valid() && popped in old(repr) && repr == old(repr) - {popped}
      ensures popped.mData == old(if goLeft then mLeft.mData else mRight.mData)
      ensures var t := old(tree);
        tree == if goLeft then t.(left := Popped(out, t.left)) else t.(right := Popped(out, t.right))
      decreases repr, 0
    {
      var rest;
      rest, popped := Pop(if goLeft then mLeft else mRight, out);
      if goLeft { mLeft := rest; } else { mRight := rest; }
      Rebuild(popped);
    }

    /** Takes out the node that holds `data` itself, if a search that skips subtrees
        outranked by `data` finds one. */
    static method Remove(top: LocHeapNode<T>, data: T, out: (T, T) -> bool)
      returns (link: LocHeapNode?<T>, removed: LocHeapNode?<T>)
      requires top.Valid()
      modifies top.repr
      ensures removed != null <==> Removed(out, old(top.tree), data).1
      ensures removed != null ==> removed in old(top.repr) && removed.mData == data
      ensures Linked(link, top, old(top.repr) - {removed}, Removed(out, old(top.tree), data).0)
      decreases top.repr, 3
    {
      link, removed := top, null;
      if data == top.mData {
        link, removed := Pop(top, out);
      } else if !out(data, top.mData) {
        removed := top.RemoveBelow(data, out);
      }
    }

    /** Searches the left subtree, then the right one. */
    method RemoveBelow(data: T, out: (T, T) -> bool) returns (removed: LocHeapNode?<T>)
      requires Valid() && data != mData && !out(data, mData)
      modifies repr
      ensures removed != null <==> Removed(out, old(tree), data).1
      ensures removed != null ==> removed in old(repr) && removed.mData == data
      ensures Valid() && repr == old(repr) - {removed} && tree == Removed(out, old(tree), data).0
      decreases repr, 1
    {
      RemovedBelow(out, tree, data);
      removed := null;
      if mLeft != null {
        removed := RemoveInto(true, data, out);
      }
      if removed == null && mRight != null {
        removed := RemoveInto(false, data, out);
      }
      if removed != null {
        Shrink();
      }
    }

    /** One node less is counted here. */
    method Shrink()
      requires Valid()
      modifies this`mSize, this`tree
      ensures Valid() && tree == old(tree).(size := old(tree).size - 1)
    {
      mSize := mSize - 1;
      tree := tree.(size := mSize);
    }

    /** Searches one subtree and relinks what is left of it. */
    method RemoveInto(goLeft: bool, data: T, out: (T, T) -> bool) returns (removed: LocHeapNode?<T>)
      requires Valid() && if goLeft then mLeft != null else mRight != null
      modifies repr
      ensures removed != null <==> Removed(out, if goLeft then old(tree).left else old(tree).right, data).1
      ensures removed != null ==> removed in old(repr) && removed != this && removed.mData == data
      ensures Valid() && repr == old(repr) - {removed}
      ensures removed == null ==> tree == old(tree)
      ensures var t := old(tree);
        tree == if goLeft then t.(left := Removed(out, t.left, data).0)
                else t.(right := Removed(out, t.right, data).0)
      decreases repr, 0
    {
      var sub := if goLeft then mLeft else mRight;
      var link;
      link, removed := Remove(sub, data, out);
      if goLeft { mLeft := link; } else { mRight := link; }
      Rebuild(removed);
    }

    /** Brings the two history fields up to date after a child lost node `gone`. */
    ghost method Rebuild(gone: LocHeapNode?<T>)
      requires mLeft != null ==> mLeft.Valid() && mLeft.repr <= repr - {this, gone}
      requires mRight != null ==> mRight.Valid() && mRight.repr <= repr - {this, gone}
      requires mLeft != null && mRight != null ==> mLeft.repr !! mRight.repr
      requires this in repr && gone != this
      modifies this`repr, this`tree
      ensures Valid() && repr == old(repr) - {gone}
      ensures tree == Node(mSize, if mLeft == null then Nil else mLeft.tree, mData,
                           if mRight == null then Nil else mRight.tree)
    {
      repr := repr - {gone};
      tree := Node(mSize, if mLeft == null then Nil else mLeft.tree, mData,
                   if mRight == null then Nil else mRight.tree);
    }

    /** The integrity check: true exactly when all sizes are right and no child outranks its parent. */
    method CheckNodes(out: (T, T) -> bool) returns (ok: bool)
      requires Valid()
      ensures ok <==> Sized(tree) && Ordered(out, tree)
      decreases repr
    {
      var totalSize := mSize;
      if mLeft != null {
        if out(mLeft.mData, mData) { return false; }
        var sub := mLeft.CheckNodes(out);
        if !sub { return false; }
        totalSize := totalSize - mLeft.mSize;
      }
      if mRight != null {
        if out(mRight.mData, mData) { return false; }
        var sub := mRight.CheckNodes(out);
        if !sub { return false; }
        totalSize := totalSize - mRight.mSize;
      }
      return totalSize == 1;
    }
  }

  /** A link that is either cleared or still points to `top`, whose subtree now is `nodes`. */
  ghost predicate Linked<T(!new)>(link: LocHeapNode?<T>, top: LocHeapNode<T>,
                                      nodes: set<LocHeapNode<T>>, tree: Tree<T>)
    reads link, if link == null then {} else link.repr
  {
    if tree.Nil? then link == null
    else link == top && link.Valid() && link.repr == nodes && link.tree == tree
  }

  /** What the search does below a node that neither holds the argument nor is outranked by it. */
  lemma RemovedBelow<T>(out: (T, T) -> bool, t: Tree<T>, x: T)
    requires t.Node? && x != t.data && !out(x, t.data)
    ensures var ((l, inLeft), (r, inRight)) := (Removed(out, t.left, x), Removed(out, t.right, x));
      Removed(out, t, x) == if inLeft then (Node(t.size - 1, l, t.data, t.right), true)
                            else if inRight then (Node(t.size - 1, t.left, t.data, r), true)
                            else (t, false)
  {
  }

  lemma PopIgnoresTopData<T>(out: (T, T) -> bool, t: Tree<T>, d: T)
    requires t.Node?
    ensures Popped(out, t.(data := d)) == Popped(out, t)
  {
  }

  class LocHeap<T(==, !new)> {
    var mTree: LocHeapNode?<T>
    const outRanks: (T, T) -> bool

    ghost function Repr(): set<object>
      reads this, mTree
    {
      {this} + if mTree == null then {} else mTree.repr
    }

    ghost function Tree(): Tree<T>
      reads this, mTree
    {
      if mTree == null then Nil else mTree.tree
    }

    /** What the heap holds, each element as often as it was pushed. */
    ghost function Contents(): multiset<T>
      reads this, mTree
    {
      Elements(Tree())
    }

    ghost predicate Valid()
      reads this, mTree, Repr()
    {
      && StrictWeakOrder(outRanks)
      && (mTree != null ==> mTree.Valid())
      && Sound(outRanks, Tree())
    }

    constructor (out: (T, T) -> bool)
      requires StrictWeakOrder(out)
      ensures Valid() && Contents() == multiset{} && Tree() == Nil && outRanks == out
      ensures fresh(Repr())
    {
      mTree, outRanks := null, out;
    }

    method Push(x: T)
      requires Valid()
      modifies Repr()
      ensures Valid() && fresh(Repr() - old(Repr()))
      ensures Contents() == old(Contents()) + multiset{x}
      ensures Tree() == Apply(outRanks, old(Tree()), Op.Push(x)).0
    {
      StepRefinesQueue(outRanks, Tree(), Op.Push(x));
      var heapNode := new LocHeapNode(x);
      if mTree == null {
        mTree := heapNode;
      } else {
        mTree.Push(heapNode, outRanks);
      }
    }

    method Peek() returns (top: Option<T>)
      requires Valid()
      ensures top == None <==> Contents() == multiset{}
      ensures top.Some? ==> top.value in Contents() && forall e :: e in Contents() ==> !outRanks(e, top.value)
    {
      top := None;
      if mTree != null {
        PopSound(outRanks, mTree.tree);
        top := Some(mTree.mData);
      }
    }

    method Pop() returns (best: Option<T>)
      requires Valid()
      modifies Repr()
      ensures Valid() && Repr() <= old(Repr())
      ensures QueueStep(outRanks, old(Contents()), Op.Pop, Contents(), best)
      ensures (Tree(), best) == Apply(outRanks, old(Tree()), Op.Pop)
    {
      StepRefinesQueue(outRanks, Tree(), Op.Pop);
      best := None;
      if mTree != null {
        var link, heapNode := LocHeapNode.Pop(mTree, outRanks);
        mTree := link;
        best := Some(heapNode.mData);
      }
    }

    method Remove(x: T) returns (found: Option<T>)
      requires Valid()
      modifies Repr()
      ensures Valid() && Repr() <= old(Repr())
      ensures QueueStep(outRanks, old(Contents()), Op.Remove(x), Contents(), found)
      ensures (Tree(), found) == Apply(outRanks, old(Tree()), Op.Remove(x))
    {
      StepRefinesQueue(outRanks, Tree(), Op.Remove(x));
      found := None;
      if mTree != null {
        var link, heapNode := LocHeapNode.Remove(mTree, x, outRanks);
        mTree := link;
        if heapNode != null {
          found := Some(heapNode.mData);
        }
      }
    }
  }
}
