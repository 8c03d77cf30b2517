/**
 The public interface of a WordFM: a finite map kept in an AVL tree, with an in-order
 iterator on a fixed stack of 32 nodes.
*/
module WordFmApi {
  import opened Common
  import opened AvlTree
  import opened AvlMap
  import opened WordFm
  import opened WordFmIter
  import opened AvlReach

  lemma InsertionFacts<R, K(!new), V>(cmp: (K, K) -> int, t: Tree<R, K, V>, n: R, k: K, v: V)
    requires TotalOrder(cmp) && Ordered(cmp, t) && Balanced(t) && Distinct(t) && n !in Refs(t)
    ensures var i := Insert(cmp, t, n, k, v).tree;
      && Ordered(cmp, i) && Balanced(i) && Distinct(i) && Refs(i) <= Refs(t) + {n}
      && Entries(i) == Put(cmp, Entries(t), k, v) && ToMap(Entries(i)) == ToMap(Entries(t))[k := v]
  {
    InsertIsPut(cmp, t, n, k, v);
    InsertRefs(cmp, t, n, k, v);
    PutSorted(cmp, Entries(t), k, v);
    PutIsUpdate(cmp, Entries(t), k, v);
  }

  lemma RemovalFacts<R, K(!new), V>(cmp: (K, K) -> int, t: Tree<R, K, V>, k: K)
    requires TotalOrder(cmp) && Ordered(cmp, t) && Balanced(t) && Distinct(t)
    requires FindRef(cmp, t, k).None? <==> Lookup(cmp, Entries(t), k).None?
    ensures ToMap(Del(cmp, Entries(t), k)) == ToMap(Entries(t)) - {k}
    ensures Lookup(cmp, Entries(t), k) == if k in ToMap(Entries(t)) then Some(ToMap(Entries(t))[k]) else None
    ensures FindRef(cmp, t, k) == None ==> Del(cmp, Entries(t), k) == Entries(t)
    ensures FindRef(cmp, t, k).Some? ==> HasKey(Entries(t), k)
    ensures FindRef(cmp, t, k).Some? ==>
      var d := Remove(cmp, t, k).tree;
      Ordered(cmp, d) && Balanced(d) && Distinct(d) && Refs(d) <= Refs(t) && Entries(d) == Del(cmp, Entries(t), k)
  {
    ToMapOfSorted(cmp, Entries(t), k);
    DelIsRemove(cmp, Entries(t), k);
    if FindRef(cmp, t, k) == None {
      DelAbsent(cmp, Entries(t), k);
    } else {
      RemoveRefs(cmp, t, k);
      RemoveIsDel(cmp, t, k);
      DelSorted(cmp, Entries(t), k);
    }
  }

  /** `s` is one of the subtrees of `t`. */
  ghost predicate Below<R, K, V>(s: Tree<R, K, V>, t: Tree<R, K, V>) {
    s == t || (t.Node? && (Below(s, t.left) || Below(s, t.right)))
  }

  lemma {:induction false} BelowChild<R, K, V>(s: Tree<R, K, V>, t: Tree<R, K, V>)
    requires Below(s, t) && s.Node?
    ensures Below(s.left, t) && Below(s.right, t)
  {
    if s != t {
      if Below(s, t.left) {
        BelowChild(s, t.left);
      } else {
        BelowChild(s, t.right);
      }
    } else {
      assert Below(s.left, s.left) && Below(s.right, s.right);
    }
  }

  lemma {:induction false} BelowRep<K, V>(s: Tree<AvlNode<K, V>, K, V>, t: Tree<AvlNode<K, V>, K, V>, n: AvlNode?<K, V>)
    requires Below(s, t) && Rep(n, t) && s.Node?
    ensures Rep(s.ref, s) && Refs(s) <= Refs(t)
  {
    if s != t {
      if Below(s, t.left) {
        BelowRep(s, t.left, n.left);
      } else {
        BelowRep(s, t.right, n.right);
      }
    }
  }

  class WordFM<K(!new), V> {
    const kCmp: (K, K) -> int
    var root: AvlNode?<K, V>
    const nodeStack: array<AvlNode?<K, V>>
    const numStack: array<int>
    var stackTop: nat
    ghost var tree: Tree<AvlNode<K, V>, K, V>
    ghost var frames: seq<Frame<AvlNode<K, V>, K, V>>

    ghost predicate Valid()
      reads this`root, this`tree, Refs(tree)
    {
      && TotalOrder(kCmp) && Ordered(kCmp, tree) && Balanced(tree) && Distinct(tree)
      && Rep(root, tree)
      && nodeStack.Length == numStack.Length == STACK_MAX
    }

    /** The iterator stack agrees with `frames`. */
    ghost predicate Iterating()
      reads this, nodeStack, numStack
    {
      && nodeStack.Length == numStack.Length == STACK_MAX
      && stackTop == |frames| <= STACK_MAX
      && Frames(frames) && Stacked(frames, LeftDepth(tree))
      && (forall i :: 0 <= i < |frames| ==>
            nodeStack[i] == frames[i].t.ref && numStack[i] == frames[i].num && Below(frames[i].t, tree))
    }

    ghost function Contents(): seq<(K, V)>
      reads this`tree
    {
      Entries(tree)
    }

    ghost function Map(): map<K, V>
      reads this`tree
    {
      ToMap(Entries(tree))
    }

    lemma ValidParts()
      requires Valid()
      ensures TotalOrder(kCmp) && Ordered(kCmp, tree) && Balanced(tree)
      ensures Map() == ToMap(Entries(tree)) && (Contents() == [] ==> tree == Leaf)
    {
      hide TotalOrder, Balanced, Distinct;
    }

    constructor (kCmp: (K, K) -> int)
      requires TotalOrder(kCmp)
      ensures this.kCmp == kCmp && Valid() && Map() == map[] && Contents() == [] && stackTop == 0
      ensures fresh(Refs(tree)) && fresh(nodeStack) && fresh(numStack)
    {
      this.kCmp := kCmp;
      root := null;
      nodeStack := new AvlNode?<K, V>[STACK_MAX](_ => null);
      numStack := new int[STACK_MAX](_ => 0);
      stackTop := 0;
      tree, frames := Leaf, [];
    }

    method SetTree(r: AvlNode?<K, V>, ghost t: Tree<AvlNode<K, V>, K, V>)
      requires TotalOrder(kCmp) && Ordered(kCmp, t) && Balanced(t) && Distinct(t) && Rep(r, t)
      requires nodeStack.Length == numStack.Length == STACK_MAX
      modifies this`root, this`tree
      ensures Valid() && root == r && tree == t
    {
      root, tree := r, t;
    }

    method AddToFM(k: K, v: V)
      requires Valid()
      modifies this`root, this`tree, Refs(tree)
      ensures Valid() && fresh(Refs(tree) - old(Refs(tree)))
      ensures Map() == old(Map())[k := v]
      ensures Contents() == Put(kCmp, old(Contents()), k, v)
      ensures exists n :: n !in old(Refs(tree)) && tree == Insert(kCmp, old(tree), n, k, v).tree
    {
      assert allocated(Refs(tree));
      ghost var rs := Refs(tree);
      var node := new AvlNode(k, v);
      assert Rep(root, tree);
      InsertionFacts(kCmp, tree, node, k, v);
      ghost var t := Insert(kCmp, tree, node, k, v).tree;
      assert Refs(t) - rs <= {node};
      var root', grew, oldV := InsertWrk(kCmp, root, node, tree);
      SetTree(root', t);
    }

    method LookupFM(key: K) returns (found: bool, val: Option<V>)
      requires Valid()
      ensures found <==> key in Map()
      ensures val == if key in Map() then Some(Map()[key]) else None
      ensures val == Lookup(kCmp, Contents(), key) && found == val.Some?
    {
      FindIsLookup(kCmp, tree, root, key);
      assert allocated(Refs(tree));
      var node := FindNode(kCmp, root, key, tree);
      ToMapOfSorted(kCmp, Entries(tree), key);
      found := node != null;
      val := None;
      if node != null {
        val := Some(node.val);
      }
    }

    method DelFromFM(key: K) returns (found: bool, oldV: Option<V>)
      requires Valid()
      modifies this`root, this`tree, Refs(tree)
      ensures Valid() && Refs(tree) <= old(Refs(tree))
      ensures found <==> key in old(Map())
      ensures oldV == if key in old(Map()) then Some(old(Map())[key]) else None
      ensures Map() == old(Map()) - {key}
      ensures Contents() == Del(kCmp, old(Contents()), key)
    {
      FindIsLookup(kCmp, tree, root, key);
      assert allocated(Refs(tree));
      var node := FindNode(kCmp, root, key, tree);
      RemovalFacts(kCmp, tree, key);
      if node == null {
        return false, None;
      }
      var val := node.val;
      var root', shrunk := RemoveWrk(kCmp, root, node, tree);
      SetTree(root', Remove(kCmp, tree, key).tree);
      return true, Some(val);
    }

    static method SizeNonNull(nd: AvlNode<K, V>, ghost t: Tree<AvlNode<K, V>, K, V>) returns (n: nat)
      requires WordFm.Rep(nd, t)
      ensures n == |Entries(t)|
      decreases t
    {
      assert allocated(Refs(t));
      var l, r := 0, 0;
      if nd.left != null {
        l := SizeNonNull(nd.left, t.left);
      }
      if nd.right != null {
        r := SizeNonNull(nd.right, t.right);
      }
      n := 1 + l + r;
    }

    method SizeFM() returns (n: nat)
      requires Valid()
      ensures n == |Map()|
    {
      SizeOfMap(kCmp, Entries(tree));
      n := 0;
      if root != null {
        n := SizeNonNull(root, tree);
      }
    }

    // -------------------------------------------------------------- iteration

    method StackClear()
      requires nodeStack.Length == numStack.Length == STACK_MAX
      modifies this`stackTop, this`frames, nodeStack, numStack
      ensures Iterating() && frames == []
    {
      for i := 0 to STACK_MAX {
        nodeStack[i] := null;
        numStack[i] := 0;
      }
      stackTop := 0;
      frames := [];
    }

    method StackPush(n: AvlNode<K, V>, i: int, ghost t: Tree<AvlNode<K, V>, K, V>)
      requires Iterating() && stackTop < STACK_MAX && 1 <= i <= 3
      requires t.Node? && n == t.ref && Below(t, tree) && stackTop + LeftDepth(t) <= LeftDepth(tree)
      modifies this`stackTop, this`frames, nodeStack, numStack
      ensures Iterating() && frames == old(frames) + [Frame(t, i)]
    {
      nodeStack[stackTop] := n;
      numStack[stackTop] := i;
      stackTop := stackTop + 1;
      frames := frames + [Frame(t, i)];
    }

    method StackPop() returns (n: AvlNode<K, V>, i: int)
      requires Iterating() && stackTop > 0
      modifies this`stackTop, this`frames, nodeStack, numStack
      ensures Iterating() && frames == old(frames)[..|old(frames)| - 1]
      ensures var f := old(frames)[|old(frames)| - 1]; n == f.t.ref && i == f.num
    {
      stackTop := stackTop - 1;
      n, i := nodeStack[stackTop], numStack[stackTop];
      nodeStack[stackTop] := null;
      numStack[stackTop] := 0;
      frames := frames[..stackTop];
    }

    method InitIterFM()
      requires Valid()
      modifies this`stackTop, this`frames, nodeStack, numStack
      ensures Valid() && Iterating() && Pending(frames) == Contents()
    {
      assert allocated(Refs(tree));
      StackClear();
      if root != null {
        StackPush(root, 1, tree);
        PendingPush([], Frame(tree, 1));
      }
    }

    method IterEnter(n: AvlNode<K, V>, ghost t: Tree<AvlNode<K, V>, K, V>)
      requires Iterating() && LeftDepth(tree) <= STACK_MAX
      requires Rep(n, t) && t.Node? && Below(t, tree) && stackTop + LeftDepth(t) <= LeftDepth(tree)
      modifies this`stackTop, this`frames, nodeStack, numStack
      ensures Iterating() && frames == Entered(old(frames), t)
    {
      BelowChild(t, tree);
      var left := n.left;
      StackPush(n, 2, t);
      if left != null {
        StackPush(left, 1, t.left);
      }
    }

    method IterLeave(n: AvlNode<K, V>, ghost t: Tree<AvlNode<K, V>, K, V>)
      requires Iterating() && LeftDepth(tree) <= STACK_MAX
      requires Rep(n, t) && t.Node? && Below(t, tree) && stackTop + LeftDepth(t) <= LeftDepth(tree)
      modifies this`stackTop, this`frames, nodeStack, numStack
      ensures Iterating() && frames == Left(old(frames), t)
    {
      BelowChild(t, tree);
      if n.right != null {
        StackPush(n.right, 1, t.right);
      }
    }

    method IterTurn(n: AvlNode<K, V>, i: int, ghost t: Tree<AvlNode<K, V>, K, V>) returns (r: Option<(K, V)>)
      requires Iterating() && LeftDepth(tree) <= STACK_MAX && 1 <= i <= 3
      requires Rep(n, t) && t.Node? && Below(t, tree) && stackTop + LeftDepth(t) <= LeftDepth(tree)
      modifies this`stackTop, this`frames, nodeStack, numStack
      ensures Iterating() && frames == Turned(old(frames), Frame(t, i))
      ensures r == if i == 2 then Some((t.key, t.val)) else None
    {
      r := None;
      if i == 1 {
        IterEnter(n, t);
      } else if i == 2 {
        r := Some((n.key, n.val));
        StackPush(n, 3, t);
      } else {
        IterLeave(n, t);
      }
    }

    method IterStep() returns (r: Option<(K, V)>)
      requires Valid() && Iterating() && LeftDepth(tree) <= STACK_MAX && stackTop > 0
      modifies this`stackTop, this`frames, nodeStack, numStack
      ensures Iterating() && Work(frames) < old(Work(frames))
      ensures r == None ==> Pending(frames) == old(Pending(frames))
      ensures r.Some? ==> old(Pending(frames)) == [r.value] + Pending(frames)
    {
      hide Pending, Work, Turned, LeftDepth, Height, Balanced, Ordered, Distinct;
      ghost var f := frames[|frames| - 1];
      ghost var fs := frames[..|frames| - 1];
      ghost var p0, w0 := Pending(frames), Work(frames);
      assert frames == fs + [f] && f in frames && allocated(Refs(tree));
      TurnedPending(fs, f);
      ghost var fs' := Turned(fs, f);
      assert w0 == Work(fs + [f]) && p0 == Pending(fs + [f]);
      BelowRep(f.t, tree, root);
      var n, i := StackPop();
      assert Rep(n, f.t) && f == Frame(f.t, i);
      r := IterTurn(n, i, f.t);
      assert frames == fs';
    }

    /** Delivers the next binding, or None when every binding has been delivered.  Whether the stack is large enough
        is decided by the depth of the tree; it is for every map with fewer than ITER_LIMIT bindings. */
    method NextIterFM() returns (r: Option<(K, V)>)
      requires Valid() && Iterating() && LeftDepth(tree) <= STACK_MAX
      modifies this`stackTop, this`frames, nodeStack, numStack
      ensures Valid() && Iterating() && (r == None ==> stackTop == 0)
      ensures old(Pending(frames)) == [] ==> r == None && Pending(frames) == []
      ensures old(Pending(frames)) != [] ==>
        r == Some(old(Pending(frames))[0]) && Pending(frames) == old(Pending(frames))[1..]
    {
      ghost var todo := Pending(frames);
      while stackTop > 0
        invariant Valid() && Iterating() && Pending(frames) == todo
        decreases Work(frames)
      {
        assert allocated(Refs(tree));
        r := IterStep();
        if r.Some? {
          return;
        }
      }
      return None;
    }

    /** An iteration over the bindings `s` is at position `j`; `r` is what was delivered last. */
    ghost predicate Reading(s: seq<(K, V)>, j: nat, r: Option<(K, V)>)
      reads this, nodeStack, numStack, Refs(tree)
    {
      && Valid() && Iterating() && LeftDepth(tree) <= STACK_MAX && Contents() == s
      && if r == None then j == |s| && stackTop == 0
         else j < |s| && r.value == s[j] && Pending(frames) == s[j + 1..]
    }

    lemma ReadingFacts(s: seq<(K, V)>, j: nat, r: Option<(K, V)>)
      requires Reading(s, j, r)
      ensures Valid() && Contents() == s
      ensures if r == None then j == |s| && stackTop == 0 else j < |s| && r.value == s[j]
    {
    }

    /** The start of an iteration. */
    method FirstBinding() returns (r: Option<(K, V)>)
      requires Valid() && LeftDepth(tree) <= STACK_MAX
      modifies this`stackTop, this`frames, nodeStack, numStack
      ensures Reading(Contents(), 0, r)
    {
      assert allocated(Refs(tree));
      InitIterFM();
      r := NextIterFM();
    }

    method NextBinding(ghost s: seq<(K, V)>, ghost j: nat, ghost r0: Option<(K, V)>) returns (r: Option<(K, V)>)
      requires Reading(s, j, r0) && r0 != None
      modifies this`stackTop, this`frames, nodeStack, numStack
      ensures Reading(s, j + 1, r)
    {
      r := NextIterFM();
    }

    /** A copy of the map: new nodes, every key and value passed through its callback. */
    method DopyFM(dopyK: Option<K -> Option<K>>, dopyV: Option<V -> Option<V>>) returns (nyu: WordFM?<K, V>)
      requires Valid() && stackTop == 0
      ensures nyu == null <==> !CanCopy(dopyK, dopyV, tree)
      ensures nyu != null ==>
        && fresh(nyu) && fresh(Refs(nyu.tree)) && nyu.kCmp == kCmp
        && CopyOf(dopyK, dopyV, tree, nyu.tree)
        && (Ordered(kCmp, nyu.tree) ==> nyu.Valid())
    {
      assert allocated(Refs(tree));
      var r, t' := Dopy(root, dopyK, dopyV, tree);
      if root != null && r == null {
        return null;
      }
      assert allocated(Refs(t'));
      nyu := new WordFM(kCmp);
      assert Rep(r, t');
      nyu.root, nyu.tree := r, t';
      CopyEntries(dopyK, dopyV, tree, t');
    }
  }

  /** Insertions in turn, up to the nodes. */
  lemma NextInserted<K(!new), V>(cmp: (K, K) -> int, t: Tree<AvlNode<K, V>, K, V>, t': Tree<AvlNode<K, V>, K, V>,
                                 xs: seq<Item<(), K, V>>, i: nat)
    requires i < |xs| && Balanced(t) && Bare(t) == InsertAll(cmp, Leaf, xs[..i])
    requires exists n :: t' == Insert(cmp, t, n, xs[i].key, xs[i].val).tree
    ensures Bare(t') == InsertAll(cmp, Leaf, xs[..i + 1])
  {
    hide *;
    var n :| t' == Insert(cmp, t, n, xs[i].key, xs[i].val).tree;
    NoTree<(), K, V>();
    BareInsert(cmp, t, n, xs[i].key, xs[i].val);
    InsertAppend(cmp, Leaf, xs[..i], [xs[i]]);
    InsertOne(cmp, Bare(t), xs[i]);
    assert xs[i].ref == ();
    assert xs[..i + 1] == xs[..i] + [xs[i]];
  }

  lemma InsertOne<R, K, V>(cmp: (K, K) -> int, t: Tree<R, K, V>, x: Item<R, K, V>)
    requires Balanced(t)
    ensures InsertAll(cmp, t, [x]) == Insert(cmp, t, x.ref, x.key, x.val).tree
  {
    assert [x][1..] == [];
  }

  lemma NoneInserted<R, K, V>(cmp: (K, K) -> int, xs: seq<Item<(), K, V>>)
    ensures var t: Tree<R, K, V> := Leaf; Balanced(t) && Bare(t) == InsertAll(cmp, Leaf, xs[..0])
  {
  }

  lemma Overflows<R, V>(s: Tree<R, int, V>, t: Tree<(), int, V>)
    requires Bare(s) == t && Leaning(t, STACK_MAX + 1, 0)
    ensures s.Node? && |ToMap(Entries(s))| == ITER_LIMIT
    ensures Frames([Frame(s, 1)]) && !Fits([Frame(s, 1)], STACK_MAX)
  {
    LimitIsTight(t);
    LeaningTree(t, STACK_MAX + 1, 0);
    BareSame(s);
    BareDepth(s);
    hide *;
    SizeOfMap(Minus, Entries(t));
    SomeNode(s);
    IterationFits(s, STACK_MAX);
  }

  lemma SomeNode<R, K, V>(s: Tree<R, K, V>)
    requires Height(Bare(s)) > 0
    ensures s.Node?
  {
  }

  /** Adding 9227464 keys in a certain order to a new WordFM makes one that cannot be iterated over: a push finds the
      stack of 32 nodes full. */
  method OverflowingFM<V>(v: V) returns (fm: WordFM<int, V>)
    ensures fm.Valid() && |fm.Map()| == ITER_LIMIT && fm.tree.Node?
    ensures Frames([Frame(fm.tree, 1)]) && !Fits([Frame(fm.tree, 1)], STACK_MAX)
  {
    hide Balanced, Height, Insert, InsertAll, Levels, LeaningOf, Leaning, Fits, Frames, Refs, TotalOrder, Ordered, Bare, Minus,
      WordFM.Valid, WordFM.Map;
    NoTree<(), int, V>();
    var t := LeaningOf(STACK_MAX + 1, 0, v);
    LimitIsTight(t);
    var xs := Levels(t, Height(t));
    AllReached(Minus, t);
    fm := new WordFM(Minus);
    fm.ValidParts();
    NoneInserted<AvlNode<int, V>, int, V>(Minus, xs);
    var i := 0;
    while i < |xs|
      invariant i <= |xs| && fm.Valid() && fresh(fm) && fresh(Refs(fm.tree)) && fm.kCmp == Minus
      invariant Bare(fm.tree) == InsertAll(Minus, Leaf, xs[..i])
    {
      ghost var was := fm.tree;
      fm.ValidParts();
      label Before:
      fm.AddToFM(xs[i].key, xs[i].val);
      forall o | o in Refs(fm.tree) ensures fresh(o) {
        assert o in Refs(was) || (o in Refs(fm.tree) - Refs(was) && fresh@Before(o));
      }
      NextInserted(Minus, was, fm.tree, xs, i);
      i := i + 1;
    }
    assert xs[..|xs|] == xs;
    fm.ValidParts();
    Overflows(fm.tree, t);
  }
}
