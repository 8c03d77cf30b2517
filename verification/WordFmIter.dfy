/**
 The iteration over a WordFM: what is on the iterator stack, what is still to come, and how
 deep the stack gets.
*/
module WordFmIter {
  import opened Common
  import opened AvlTree
  import opened AvlMap
  import opened AvlReach

  const STACK_MAX := 32

  /** One entry of the iterator stack: a subtree and what is left to do there (1, 2 or 3). */
  datatype Frame<R, K, V> = Frame(t: Tree<R, K, V>, num: int)

  /** The bindings that a frame still has to deliver. */
  ghost function Load<R, K, V>(f: Frame<R, K, V>): seq<(K, V)>
    requires f.t.Node?
  {
    if f.num == 1 then Entries(f.t)
    else if f.num == 2 then [(f.t.key, f.t.val)] + Entries(f.t.right)
    else Entries(f.t.right)
  }

  ghost predicate Frames<R, K, V>(fs: seq<Frame<R, K, V>>) {
    forall f :: f in fs ==> f.t.Node? && 1 <= f.num <= 3
  }

  /** Everything still to come, the top of the stack first. */
  ghost function Pending<R, K, V>(fs: seq<Frame<R, K, V>>): seq<(K, V)>
    requires Frames(fs)
  {
    if fs == [] then [] else Load(fs[|fs| - 1]) + Pending(fs[..|fs| - 1])
  }

  /** The pops that a frame still needs: three at each node. */
  ghost function Turns<R, K, V>(f: Frame<R, K, V>): nat
    requires f.t.Node? && 1 <= f.num <= 3
  {
    var right := |Entries(f.t.right)|;
    right + right + right + (4 - f.num) + if f.num > 1 then 0 else
      var left := |Entries(f.t.left)|; left + left + left
  }

  ghost function Work<R, K, V>(fs: seq<Frame<R, K, V>>): nat
    requires Frames(fs)
  {
    if fs == [] then 0
    else Work(fs[..|fs| - 1]) + Turns(fs[|fs| - 1])
  }

  /** The depth bound: below the frame at position i there is no more to come than fits on top of i frames. */
  ghost predicate Stacked<R, K, V>(fs: seq<Frame<R, K, V>>, d: nat) {
    forall i :: 0 <= i < |fs| ==> i + LeftDepth(fs[i].t) <= d
  }

  /** How deep the stack gets: a node stays on the stack while its left side is visited, but not while its right
      side is. */
  function LeftDepth<R, K, V>(t: Tree<R, K, V>): nat {
    if t.Leaf? then 0 else if 1 + LeftDepth(t.left) < LeftDepth(t.right) then LeftDepth(t.right) else 1 + LeftDepth(t.left)
  }

  lemma {:induction false} LeftDepthBound<R, K, V>(t: Tree<R, K, V>)
    ensures LeftDepth(t) <= Height(t)
  {
    if t.Node? {
      LeftDepthBound(t.left);
      LeftDepthBound(t.right);
    }
  }

  lemma PendingPush<R, K, V>(fs: seq<Frame<R, K, V>>, f: Frame<R, K, V>)
    requires Frames(fs) && f.t.Node? && 1 <= f.num <= 3
    ensures Frames(fs + [f]) && Pending(fs + [f]) == Load(f) + Pending(fs)
    ensures Work(fs + [f]) == Work(fs) + Turns(f)
  {
    assert (fs + [f])[..|fs|] == fs;
  }

  /** The stack after entering a node from above, ... */
  ghost function Entered<R, K, V>(fs: seq<Frame<R, K, V>>, t: Tree<R, K, V>): seq<Frame<R, K, V>>
    requires t.Node?
  {
    if t.left.Node? then fs + [Frame(t, 2)] + [Frame(t.left, 1)] else fs + [Frame(t, 2)]
  }

  /** ... and after leaving it for its right side. */
  ghost function Left<R, K, V>(fs: seq<Frame<R, K, V>>, t: Tree<R, K, V>): seq<Frame<R, K, V>>
    requires t.Node?
  {
    if t.right.Node? then fs + [Frame(t.right, 1)] else fs
  }

  lemma TurnsOfTree<R, K, V>(t: Tree<R, K, V>)
    requires t.Node?
    ensures Turns(Frame(t, 1)) == |Entries(t)| + |Entries(t)| + |Entries(t)|
  {
  }

  lemma EnteredPending<R, K, V>(fs: seq<Frame<R, K, V>>, t: Tree<R, K, V>)
    requires Frames(fs) && t.Node?
    ensures Frames(Entered(fs, t)) && Pending(Entered(fs, t)) == Pending(fs + [Frame(t, 1)])
    ensures Work(Entered(fs, t)) < Work(fs + [Frame(t, 1)])
  {
    var l, x, r, p := Entries(t.left), [(t.key, t.val)], Entries(t.right), Pending(fs);
    PendingPush(fs, Frame(t, 1));
    PendingPush(fs, Frame(t, 2));
    if t.left.Node? {
      PendingPush(fs + [Frame(t, 2)], Frame(t.left, 1));
      TurnsOfTree(t.left);
    }
    Regroup4(l, x, r, p);
  }

  lemma Regroup4<T>(l: seq<T>, x: seq<T>, r: seq<T>, p: seq<T>)
    ensures (l + x + r) + p == l + ((x + r) + p)
  {
  }

  /** Visiting a node delivers its own binding. */
  lemma VisitedPending<R, K, V>(fs: seq<Frame<R, K, V>>, t: Tree<R, K, V>)
    requires Frames(fs) && t.Node?
    ensures Frames(fs + [Frame(t, 3)]) && Frames(fs + [Frame(t, 2)])
    ensures Pending(fs + [Frame(t, 2)]) == [(t.key, t.val)] + Pending(fs + [Frame(t, 3)])
    ensures Work(fs + [Frame(t, 3)]) < Work(fs + [Frame(t, 2)])
  {
    hide Pending, Work, Entries;
    PendingPush(fs, Frame(t, 2));
    PendingPush(fs, Frame(t, 3));
    var x, r, p := [(t.key, t.val)], Entries(t.right), Pending(fs);
    assert (x + r) + p == x + (r + p);
  }

  lemma LeftPending<R, K, V>(fs: seq<Frame<R, K, V>>, t: Tree<R, K, V>)
    requires Frames(fs) && t.Node?
    ensures Frames(Left(fs, t)) && Pending(Left(fs, t)) == Pending(fs + [Frame(t, 3)])
    ensures Work(Left(fs, t)) < Work(fs + [Frame(t, 3)])
  {
    PendingPush(fs, Frame(t, 3));
    if t.right.Node? {
      PendingPush(fs, Frame(t.right, 1));
      TurnsOfTree(t.right);
    }
  }

  /** The stack after one turn of the iterator loop: the popped frame `f` is replaced by what is
      left to do at its node. */
  ghost function Turned<R, K, V>(fs: seq<Frame<R, K, V>>, f: Frame<R, K, V>): seq<Frame<R, K, V>>
    requires f.t.Node?
  {
    if f.num == 1 then Entered(fs, f.t) else if f.num == 2 then fs + [Frame(f.t, 3)] else Left(fs, f.t)
  }

  lemma TurnedPending<R, K, V>(fs: seq<Frame<R, K, V>>, f: Frame<R, K, V>)
    requires Frames(fs) && Frames(fs + [f]) && f.t.Node? && 1 <= f.num <= 3
    ensures Frames(Turned(fs, f)) && Work(Turned(fs, f)) < Work(fs + [f])
    ensures f.num != 2 ==> Pending(fs + [f]) == Pending(Turned(fs, f))
    ensures f.num == 2 ==> Pending(fs + [f]) == [(f.t.key, f.t.val)] + Pending(Turned(fs, f))
  {
    EnteredPending(fs, f.t);
    VisitedPending(fs, f.t);
    LeftPending(fs, f.t);
  }

  // ---------------------------------------------------------------- how deep the stack gets

  /** From this stack on, until it is empty, no turn leaves more than `cap` frames on the stack. */
  ghost predicate Fits<R, K, V>(fs: seq<Frame<R, K, V>>, cap: nat)
    requires Frames(fs)
    decreases Work(fs)
  {
    |fs| <= cap &&
    (fs != [] ==>
      var f, rest := fs[|fs| - 1], fs[..|fs| - 1];
      assert fs == rest + [f] && f in fs;
      TurnedPending(rest, f);
      Fits(Turned(rest, f), cap))
  }

  lemma FitsOne<R, K, V>(fs: seq<Frame<R, K, V>>, f: Frame<R, K, V>, cap: nat)
    requires Frames(fs) && f.t.Node? && 1 <= f.num <= 3
    ensures Frames(fs + [f]) && Frames(Turned(fs, f))
    ensures Fits(fs + [f], cap) <==> |fs| + 1 <= cap && Fits(Turned(fs, f), cap)
  {
    PendingPush(fs, f);
    TurnedPending(fs, f);
    assert (fs + [f])[..|fs|] == fs;
  }

  /** Visiting a tree on top of other frames fits exactly if there is room for its depth. */
  lemma {:induction false} FitsTree<R, K, V>(fs: seq<Frame<R, K, V>>, t: Tree<R, K, V>, cap: nat)
    requires Frames(fs) && t.Node?
    ensures Frames(fs + [Frame(t, 1)])
    ensures Fits(fs + [Frame(t, 1)], cap) <==> |fs| + LeftDepth(t) <= cap && Fits(fs, cap)
    decreases t
  {
    hide Fits;
    FitsOne(fs, Frame(t, 1), cap);
    FitsOne(fs, Frame(t, 2), cap);
    FitsOne(fs, Frame(t, 3), cap);
    if t.left.Node? {
      FitsTree(fs + [Frame(t, 2)], t.left, cap);
    }
    if t.right.Node? {
      FitsTree(fs, t.right, cap);
    }
  }

  /** A whole iteration fits a stack of `cap` nodes if and only if the tree is no deeper than that to the left. */
  lemma IterationFits<R, K, V>(t: Tree<R, K, V>, cap: nat)
    requires t.Node?
    ensures Frames([Frame(t, 1)]) && (Fits([Frame(t, 1)], cap) <==> LeftDepth(t) <= cap)
  {
    FitsTree([], t, cap);
    assert [] + [Frame(t, 1)] == [Frame(t, 1)];
  }

  /** Trees with fewer bindings than this fit the iterator stack. */
  ghost const ITER_LIMIT: int := Fib(STACK_MAX + 3) - 1

  lemma SmallFits<R, K, V>(t: Tree<R, K, V>)
    requires Balanced(t) && |Entries(t)| < ITER_LIMIT
    ensures LeftDepth(t) <= Height(t) <= STACK_MAX
  {
    LeftDepthBound(t);
    if Height(t) > STACK_MAX {
      FibMonotone(STACK_MAX + 3, Height(t) + 2);
      HeightBound(t);
    }
  }

  /** The limit in figures. */
  lemma IterLimit()
    ensures ITER_LIMIT == 9227464
  {
    Fib35(STACK_MAX + 3);
  }

  /** The tree of height h that leans left everywhere, with keys from `lo` on. */
  ghost predicate Leaning<R, V>(t: Tree<R, int, V>, h: nat, lo: int) {
    if h == 0 then t.Leaf?
    else
      && t.Node? && Leaning(t.left, h - 1, lo) && t.key == lo + |Entries(t.left)|
      && (if h == 1 then t.right.Leaf? && t.bal == 0 else Leaning(t.right, h - 2, t.key + 1) && t.bal == -1)
  }

  function LeaningOf<V>(h: nat, lo: int, v: V): (t: Tree<(), int, V>)
    ensures Leaning(t, h, lo)
  {
    if h == 0 then Leaf
    else
      var l := LeaningOf(h - 1, lo, v);
      var key := lo + |Entries(l)|;
      if h == 1 then Node(l, (), key, v, 0, Leaf) else Node(l, (), key, v, -1, LeaningOf(h - 2, key + 1, v))
  }

  function Minus(a: int, b: int): int { a - b }

  /** It is a search tree with as few bindings as its height allows, and as deep to the left as it is high. */
  lemma {:induction false} LeaningTree<R, V>(t: Tree<R, int, V>, h: nat, lo: int)
    requires Leaning(t, h, lo)
    ensures Balanced(t) && Height(t) == LeftDepth(t) == h && |Entries(t)| + 1 == Fib(h + 2)
    ensures forall i :: 0 <= i < |Entries(t)| ==> Entries(t)[i].0 == lo + i
    ensures Ordered(Minus, t)
    decreases t
  {
    if h == 1 {
      assert Fib(3) == 2;
    } else if h > 1 {
      LeaningTree(t.left, h - 1, lo);
      LeaningTree(t.right, h - 2, t.key + 1);
      hide Leaning;
      KeysInTurn(Entries(t.left), (t.key, t.val), Entries(t.right), lo);
    }
  }

  lemma {:induction false} BareDepth<R, K, V>(t: Tree<R, K, V>)
    ensures LeftDepth(Bare(t)) == LeftDepth(t)
  {
    if t.Node? {
      BareDepth(t.left);
      BareDepth(t.right);
    }
  }

  lemma KeysInTurn<V>(a: seq<(int, V)>, x: (int, V), b: seq<(int, V)>, lo: int)
    requires x.0 == lo + |a| && forall i :: 0 <= i < |a| ==> a[i].0 == lo + i
    requires forall i :: 0 <= i < |b| ==> b[i].0 == x.0 + 1 + i
    ensures forall i :: 0 <= i < |a + [x] + b| ==> (a + [x] + b)[i].0 == lo + i
  {
  }

  /** The limit is the best possible: with one binding more there is a search tree whose iteration overflows the
      stack of 32 nodes. */
  lemma LimitIsTight<R, V>(t: Tree<R, int, V>)
    requires Leaning(t, STACK_MAX + 1, 0)
    ensures TotalOrder(Minus) && Ordered(Minus, t) && Balanced(t) && |Entries(t)| == ITER_LIMIT
    ensures Frames([Frame(t, 1)]) && !Fits([Frame(t, 1)], STACK_MAX)
  {
    LeaningTree(t, STACK_MAX + 1, 0);
    IterationFits(t, STACK_MAX);
  }
}
