/**
 The WordFM of `cg_merge.c` as it is in memory: tree nodes linked by mutable pointers,
 rotated in place.  A ghost tree value `t`, whose `ref` components are the nodes
 themselves, says what the heap below a pointer looks like (`Rep`), and every method
 leaves the tree value that the function of the same name in `AvlTree` computes.
*/
module WordFm {
  import opened Common
  import opened AvlTree
  import opened AvlMap

  class AvlNode<K, V> {
    const key: K
    var val: V
    var left: AvlNode?<K, V>
    var right: AvlNode?<K, V>
    var balance: int

    constructor (k: K, v: V)
      ensures key == k && val == v && left == right == null && balance == 0
    {
      key, val, left, right, balance := k, v, null, null, 0;
    }
  }

  ghost function Refs<R, K, V>(t: Tree<R, K, V>): set<R> {
    if t.Leaf? then {} else {t.ref} + Refs(t.left) + Refs(t.right)
  }

  /** No node occurs twice: the heap structure is a tree. */
  ghost predicate Distinct<R, K, V>(t: Tree<R, K, V>) {
    t.Node? ==>
      && Distinct(t.left) && Distinct(t.right)
      && t.ref !in Refs(t.left) && t.ref !in Refs(t.right) && Refs(t.left) !! Refs(t.right)
  }

  lemma Apart<R, K, V>(t: Tree<R, K, V>)
    requires Distinct(t) && t.Node?
    ensures Distinct(t.left) && Distinct(t.right)
    ensures t.ref in Refs(t) && Refs(t.left) <= Refs(t) && Refs(t.right) <= Refs(t)
    ensures t.ref !in Refs(t.left) && t.ref !in Refs(t.right) && Refs(t.left) !! Refs(t.right)
  {
  }

  /** The nodes reachable from `n` hold exactly the tree `t`. */
  ghost predicate Rep<K, V>(n: AvlNode?<K, V>, t: Tree<AvlNode<K, V>, K, V>)
    reads Refs(t)
  {
    if t.Leaf? then n == null
    else
      && n == t.ref && n.key == t.key && n.val == t.val && n.balance == t.bal
      && Rep(n.left, t.left) && Rep(n.right, t.right)
  }

  // ---------------------------------------------------------------- rotations

  method SwingLeft<K, V>(a: AvlNode<K, V>, ghost t: Tree<AvlNode<K, V>, K, V>) returns (b: AvlNode<K, V>)
    requires Rep(a, t) && Distinct(t) && t.right.Node?
    modifies t.ref, t.right.ref
    ensures Rep(b, Swl(t))
  {
    b := a.right;
    a.right := b.left;
    b.left := a;
  }

  method SwingRight<K, V>(a: AvlNode<K, V>, ghost t: Tree<AvlNode<K, V>, K, V>) returns (b: AvlNode<K, V>)
    requires Rep(a, t) && Distinct(t) && t.left.Node?
    modifies t.ref, t.left.ref
    ensures Rep(b, Swr(t))
  {
    b := a.left;
    a.left := b.right;
    b.right := a;
  }

  /** A single swing and the two balances it leaves. */
  method SwingLeftBal<K, V>(a: AvlNode<K, V>, bal: int, leftBal: int, ghost t: Tree<AvlNode<K, V>, K, V>)
    returns (b: AvlNode<K, V>)
    requires Rep(a, t) && Distinct(t) && t.Node? && t.right.Node?
    modifies t.ref, t.right.ref
    ensures var s := Swl(t); s.Node? && s.left.Node? && Rep(b, s.(bal := bal, left := s.left.(bal := leftBal)))
  {
    b := SwingLeft(a, t);
    b.balance := bal;
    b.left.balance := leftBal;
  }

  method SwingRightBal<K, V>(a: AvlNode<K, V>, bal: int, rightBal: int, ghost t: Tree<AvlNode<K, V>, K, V>)
    returns (b: AvlNode<K, V>)
    requires Rep(a, t) && Distinct(t) && t.Node? && t.left.Node?
    modifies t.ref, t.left.ref
    ensures var s := Swr(t); s.Node? && s.right.Node? && Rep(b, s.(bal := bal, right := s.right.(bal := rightBal)))
  {
    b := SwingRight(a, t);
    b.balance := bal;
    b.right.balance := rightBal;
  }

  /** Balance maintenance after a double swing. */
  method SettleNasty<K, V>(a: AvlNode<K, V>, ghost t: Tree<AvlNode<K, V>, K, V>)
    requires Rep(a, t) && Distinct(t) && t.left.Node? && t.right.Node? && -1 <= t.bal <= 1
    modifies t.ref, t.left.ref, t.right.ref
    ensures Rep(a, Nasty(t))
  {
    if a.balance == -1 {
      a.left.balance := 0;
      a.right.balance := 1;
    } else if a.balance == 1 {
      a.left.balance := -1;
      a.right.balance := 0;
    } else {
      a.left.balance := 0;
      a.right.balance := 0;
    }
    a.balance := 0;
  }

  lemma SwlRefs<R, K, V>(t: Tree<R, K, V>)
    requires Distinct(t) && t.Node? && t.right.Node?
    ensures Distinct(Swl(t)) && Refs(Swl(t)) == Refs(t)
  {
  }

  lemma SwrRefs<R, K, V>(t: Tree<R, K, V>)
    requires Distinct(t) && t.Node? && t.left.Node?
    ensures Distinct(Swr(t)) && Refs(Swr(t)) == Refs(t)
  {
  }

  lemma SetBalRefs<R, K, V>(t: Tree<R, K, V>, l: int, b: int, r: int)
    requires Distinct(t) && t.Node? && t.left.Node? && t.right.Node?
    ensures Distinct(SetBal(t, l, b, r)) && Refs(SetBal(t, l, b, r)) == Refs(t)
  {
    var s := SetBal(t, l, b, r);
    assert Refs(s.left) == Refs(t.left) && Refs(s.right) == Refs(t.right);
  }

  lemma NastyRefs<R, K, V>(t: Tree<R, K, V>)
    requires Distinct(t) && t.Node? && t.left.Node? && t.right.Node?
    ensures Distinct(Nasty(t)) && Refs(Nasty(t)) == Refs(t)
  {
    hide SetBal, Distinct, Refs;
    SetBalRefs(t, 0, 0, 1);
    SetBalRefs(t, -1, 0, 0);
    SetBalRefs(t, 0, 0, 0);
  }

  lemma DoubleSwrRefs<R, K, V>(t: Tree<R, K, V>)
    requires Distinct(t) && t.Node? && t.left.Node? && t.left.right.Node?
    ensures var s := Nasty(Swr(t.(left := Swl(t.left)))); Distinct(s) && Refs(s) == Refs(t)
  {
    var t' := t.(left := Swl(t.left));
    SwlRefs(t.left);
    SwrRefs(t');
    NastyRefs(Swr(t'));
  }

  lemma DoubleSwlRefs<R, K, V>(t: Tree<R, K, V>)
    requires Distinct(t) && t.Node? && t.right.Node? && t.right.left.Node?
    ensures var s := Nasty(Swl(t.(right := Swr(t.right)))); Distinct(s) && Refs(s) == Refs(t)
  {
    var t' := t.(right := Swr(t.right));
    SwrRefs(t.right);
    SwlRefs(t');
    NastyRefs(Swl(t'));
  }

  method DoubleSwingRight<K, V>(root: AvlNode<K, V>, ghost t: Tree<AvlNode<K, V>, K, V>) returns (root': AvlNode<K, V>)
    requires Rep(root, t) && Distinct(t) && t.left.Node? && t.left.right.Node? && -1 <= t.left.right.bal <= 1
    modifies t.ref, t.left.ref, t.left.right.ref
    ensures Rep(root', Nasty(Swr(t.(left := Swl(t.left)))))
  {
    ghost var t' := t.(left := Swl(t.left));
    assert t.left.ref in Refs(t.left) && t.left.right.ref in Refs(t.left);
    SwlRefs(t.left);
    SwrRefs(t');
    assert allocated(Refs(t.right));
    var b := SwingLeft(root.left, t.left);
    assert Rep(root.right, t.right);
    root.left := b;
    root' := SwingRight(root, t');
    SettleNasty(root', Swr(t'));
  }

  method DoubleSwingLeft<K, V>(root: AvlNode<K, V>, ghost t: Tree<AvlNode<K, V>, K, V>) returns (root': AvlNode<K, V>)
    requires Rep(root, t) && Distinct(t) && t.right.Node? && t.right.left.Node? && -1 <= t.right.left.bal <= 1
    modifies t.ref, t.right.ref, t.right.left.ref
    ensures Rep(root', Nasty(Swl(t.(right := Swr(t.right)))))
  {
    ghost var t' := t.(right := Swr(t.right));
    assert t.right.ref in Refs(t.right) && t.right.left.ref in Refs(t.right);
    SwrRefs(t.right);
    SwlRefs(t');
    assert allocated(Refs(t.left));
    var b := SwingRight(root.right, t.right);
    assert Rep(root.left, t.left);
    root.right := b;
    root' := SwingLeft(root, t');
    SettleNasty(root', Swl(t'));
  }

  // ---------------------------------------------------------------- insertion

  /** The rebalancing half of the left-insert case: `t` is the tree with its taller left side in place. */
  method RebalanceLeft<K, V>(root: AvlNode<K, V>, ghost t: Tree<AvlNode<K, V>, K, V>, ghost l: Tree<AvlNode<K, V>, K, V>)
    returns (root': AvlNode<K, V>)
    requires Balanced(t) && t.Node? && t.bal == -1
    requires Balanced(l) && l.Node? && Height(l) == Height(t.left) + 1 && l.bal != 0
    requires Distinct(t.(left := l)) && Rep(root, t.(left := l, bal := t.bal - 1))
    modifies Refs(t.(left := l))
    ensures Rep(root', FixLeftGrown(t, l))
  {
    Unfold(l);
    if l.bal > 0 {
      Unfold(l.right);
    }
    ghost var t' := t.(left := l, bal := t.bal - 1);
    if root.left.balance < 0 {
      root' := SwingRightBal(root, 0, 0, t');
    } else {
      root' := DoubleSwingRight(root, t');
    }
  }

  method LeftHasGrown<K, V>(root: AvlNode<K, V>, ghost t: Tree<AvlNode<K, V>, K, V>, ghost l: Tree<AvlNode<K, V>, K, V>)
    returns (root': AvlNode<K, V>, grew: bool)
    requires Balanced(t) && t.Node?
    requires Balanced(l) && l.Node? && Height(l) == Height(t.left) + 1 && l.bal != 0
    requires Distinct(t.(left := l)) && Rep(root, t.(left := l))
    modifies Refs(t.(left := l))
    ensures Rep(root', FixLeftGrown(t, l)) && grew == (t.bal == 0)
    ensures grew ==> root' == root
  {
    var b := root.balance;
    root.balance := root.balance - 1;
    if b == 1 { return root, false; }
    if b == 0 { return root, true; }
    root' := RebalanceLeft(root, t, l);
    grew := false;
  }

  method RightHasGrown<K, V>(root: AvlNode<K, V>, ghost t: Tree<AvlNode<K, V>, K, V>, ghost r: Tree<AvlNode<K, V>, K, V>)
    returns (root': AvlNode<K, V>, grew: bool)
    requires Balanced(t) && t.Node?
    requires Balanced(r) && r.Node? && Height(r) == Height(t.right) + 1 && r.bal != 0
    requires Distinct(t.(right := r)) && Rep(root, t.(right := r))
    modifies Refs(t.(right := r))
    ensures Rep(root', FixRightGrown(t, r)) && grew == (t.bal == 0)
    ensures grew ==> root' == root
  {
    var b := root.balance;
    root.balance := root.balance + 1;
    if b == -1 { return root, false; }
    if b == 0 { return root, true; }
    root' := RebalanceRight(root, t, r);
    grew := false;
  }

  method RebalanceRight<K, V>(root: AvlNode<K, V>, ghost t: Tree<AvlNode<K, V>, K, V>, ghost r: Tree<AvlNode<K, V>, K, V>)
    returns (root': AvlNode<K, V>)
    requires Balanced(t) && t.Node? && t.bal == 1
    requires Balanced(r) && r.Node? && Height(r) == Height(t.right) + 1 && r.bal != 0
    requires Distinct(t.(right := r)) && Rep(root, t.(right := r, bal := t.bal + 1))
    modifies Refs(t.(right := r))
    ensures Rep(root', FixRightGrown(t, r))
  {
    Unfold(r);
    if r.bal < 0 {
      Unfold(r.left);
    }
    ghost var t' := t.(right := r, bal := t.bal + 1);
    if root.right.balance > 0 {
      root' := SwingLeftBal(root, 0, 0, t');
    } else {
      root' := DoubleSwingLeft(root, t');
    }
  }

  /** The nodes of the tree after an insertion: `n` is linked in unless its key was there. */
  lemma {:induction false} InsertRefs<R, K, V>(cmp: (K, K) -> int, t: Tree<R, K, V>, n: R, k: K, v: V)
    requires Balanced(t) && Distinct(t) && n !in Refs(t)
    ensures var i := Insert(cmp, t, n, k, v);
      Distinct(i.tree) && Refs(i.tree) == Refs(t) + if i.oldV.None? then {n} else {}
    decreases t, 1
  {
    if t.Node? {
      if cmp(t.key, k) > 0 {
        InsertLeftRefs(cmp, t, n, k, v);
      } else if cmp(t.key, k) < 0 {
        InsertRightRefs(cmp, t, n, k, v);
      }
    }
  }

  lemma {:induction false} InsertLeftRefs<R, K, V>(cmp: (K, K) -> int, t: Tree<R, K, V>, n: R, k: K, v: V)
    requires Balanced(t) && Distinct(t) && n !in Refs(t) && t.Node? && cmp(t.key, k) > 0
    ensures var i := Insert(cmp, t, n, k, v);
      Distinct(i.tree) && Refs(i.tree) == Refs(t) + if i.oldV.None? then {n} else {}
    decreases t, 0
  {
    InsertRefs(cmp, t.left, n, k, v);
    var i := Insert(cmp, t.left, n, k, v);
    assert Distinct(t.(left := i.tree));
    assert Refs(t.(left := i.tree)) == Refs(t) + if i.oldV.None? then {n} else {};
    if t.left.Node? && i.grew {
      FixLeftGrownRefs(t, i.tree);
    }
  }

  lemma {:induction false} InsertRightRefs<R, K, V>(cmp: (K, K) -> int, t: Tree<R, K, V>, n: R, k: K, v: V)
    requires Balanced(t) && Distinct(t) && n !in Refs(t) && t.Node? && cmp(t.key, k) < 0
    ensures var i := Insert(cmp, t, n, k, v);
      Distinct(i.tree) && Refs(i.tree) == Refs(t) + if i.oldV.None? then {n} else {}
    decreases t, 0
  {
    InsertRefs(cmp, t.right, n, k, v);
    var i := Insert(cmp, t.right, n, k, v);
    assert Distinct(t.(right := i.tree));
    assert Refs(t.(right := i.tree)) == Refs(t) + if i.oldV.None? then {n} else {};
    if t.right.Node? && i.grew {
      FixRightGrownRefs(t, i.tree);
    }
  }

  lemma FixLeftGrownRefs<R, K, V>(t: Tree<R, K, V>, l: Tree<R, K, V>)
    requires Balanced(t) && t.Node?
    requires Balanced(l) && l.Node? && Height(l) == Height(t.left) + 1 && l.bal != 0
    requires Distinct(t.(left := l))
    ensures Distinct(FixLeftGrown(t, l)) && Refs(FixLeftGrown(t, l)) == Refs(t.(left := l))
  {
    Unfold(l);
    var t' := t.(left := l, bal := t.bal - 1);
    if t.bal < 0 {
      if l.bal > 0 {
        DoubleSwrRefs(t');
      } else {
        SwrRefs(t');
      }
    }
  }

  lemma FixRightGrownRefs<R, K, V>(t: Tree<R, K, V>, r: Tree<R, K, V>)
    requires Balanced(t) && t.Node?
    requires Balanced(r) && r.Node? && Height(r) == Height(t.right) + 1 && r.bal != 0
    requires Distinct(t.(right := r))
    ensures Distinct(FixRightGrown(t, r)) && Refs(FixRightGrown(t, r)) == Refs(t.(right := r))
  {
    Unfold(r);
    var t' := t.(right := r, bal := t.bal + 1);
    if t.bal > 0 {
      if r.bal < 0 {
        DoubleSwlRefs(t');
      } else {
        SwlRefs(t');
      }
    }
  }

  method InsertWrk<K, V>(cmp: (K, K) -> int, root: AvlNode?<K, V>, a: AvlNode<K, V>, ghost t: Tree<AvlNode<K, V>, K, V>)
    returns (root': AvlNode<K, V>, grew: bool, oldV: Option<V>)
    requires Rep(root, t) && Distinct(t) && Balanced(t) && a !in Refs(t)
    modifies Refs(t), a
    ensures var i := Insert(cmp, t, a, a.key, old(a.val));
      Rep(root', i.tree) && grew == i.grew && oldV == i.oldV
    ensures grew && root != null ==> root' == root
    decreases t, 1
  {
    a.left := null;
    a.right := null;
    a.balance := 0;
    if root == null {
      return a, true, None;
    }
    var cmpres := cmp(root.key, a.key);
    if cmpres > 0 {
      root', grew, oldV := InsertLeft(cmp, root, a, t);
    } else if cmpres < 0 {
      root', grew, oldV := InsertRight(cmp, root, a, t);
    } else {
      oldV := Some(root.val);
      root.val := a.val;
      return root, false, oldV;
    }
  }

  lemma LeftInsertion<R, K, V>(cmp: (K, K) -> int, t: Tree<R, K, V>, a: R, k: K, v: V)
    requires Balanced(t) && Distinct(t) && t.Node? && t.left.Node? && a !in Refs(t) && cmp(t.key, k) > 0
    ensures Balanced(t.left) && Distinct(t.left) && a !in Refs(t.left)
    ensures var i := Insert(cmp, t.left, a, k, v);
      && Distinct(t.(left := i.tree)) && Refs(t.(left := i.tree)) <= Refs(t) + {a}
      && i.tree.Node? && Balanced(i.tree) && (i.grew ==> Height(i.tree) == Height(t.left) + 1 && i.tree.bal != 0)
      && Insert(cmp, t, a, k, v)
         == if i.grew then Inserted(FixLeftGrown(t, i.tree), t.bal == 0, i.oldV)
            else Inserted(t.(left := i.tree), false, i.oldV)
  {
    hide Height, FixLeftGrown;
    InsertRefs(cmp, t.left, a, k, v);
  }

  /** The left branch of the insertion.  A left subtree that grew kept its root, so the pointer
      to it is written back only when it did not grow. */
  method InsertLeft<K, V>(cmp: (K, K) -> int, root: AvlNode<K, V>, a: AvlNode<K, V>, ghost t: Tree<AvlNode<K, V>, K, V>)
    returns (root': AvlNode<K, V>, grew: bool, oldV: Option<V>)
    requires Rep(root, t) && Distinct(t) && Balanced(t) && a !in Refs(t) && cmp(root.key, a.key) > 0
    requires a.left == a.right == null && a.balance == 0
    modifies Refs(t), a
    ensures var i := Insert(cmp, t, a, a.key, old(a.val));
      Rep(root', i.tree) && grew == i.grew && oldV == i.oldV
    ensures grew ==> root' == root
    decreases t, 0
  {
    hide Height, Balanced, Distinct, Refs, Insert, FixLeftGrown;
    Apart(t);
    if root.left == null {
      grew := root.balance == 0;
      LinkLeft(cmp, root, a, t);
      return root, grew, None;
    }
    LeftInsertion(cmp, t, a, a.key, a.val);
    ghost var l := Insert(cmp, t.left, a, a.key, a.val).tree;
    assert allocated(Refs(t.right));
    var leftSubtree, g, o := InsertWrk(cmp, root.left, a, t.left);
    assert Rep(root.right, t.right);
    root', oldV := root, o;
    if g {
      root', grew := LeftHasGrown(root, t, l);
    } else {
      root.left := leftSubtree;
      grew := false;
      Apart(t.(left := l));
    }
  }

  method LinkLeft<K, V>(cmp: (K, K) -> int, root: AvlNode<K, V>, a: AvlNode<K, V>, ghost t: Tree<AvlNode<K, V>, K, V>)
    requires Rep(root, t) && Distinct(t) && Balanced(t) && a !in Refs(t) && cmp(root.key, a.key) > 0 && root.left == null
    requires a.left == a.right == null && a.balance == 0
    modifies root
    ensures Insert(cmp, t, a, a.key, a.val).grew == (old(root.balance) == 0) && Insert(cmp, t, a, a.key, a.val).oldV == None
    ensures Rep(root, Insert(cmp, t, a, a.key, a.val).tree)
  {
    hide Height, Balanced;
    root.left := a;
    root.balance := root.balance - 1;
  }

  lemma RightInsertion<R, K, V>(cmp: (K, K) -> int, t: Tree<R, K, V>, a: R, k: K, v: V)
    requires Balanced(t) && Distinct(t) && t.Node? && t.right.Node? && a !in Refs(t) && cmp(t.key, k) < 0
    ensures Balanced(t.right) && Distinct(t.right) && a !in Refs(t.right)
    ensures var i := Insert(cmp, t.right, a, k, v);
      && Distinct(t.(right := i.tree)) && Refs(t.(right := i.tree)) <= Refs(t) + {a}
      && i.tree.Node? && Balanced(i.tree) && (i.grew ==> Height(i.tree) == Height(t.right) + 1 && i.tree.bal != 0)
      && Insert(cmp, t, a, k, v)
         == if i.grew then Inserted(FixRightGrown(t, i.tree), t.bal == 0, i.oldV)
            else Inserted(t.(right := i.tree), false, i.oldV)
  {
    hide Height, FixRightGrown;
    InsertRefs(cmp, t.right, a, k, v);
  }

  method InsertRight<K, V>(cmp: (K, K) -> int, root: AvlNode<K, V>, a: AvlNode<K, V>, ghost t: Tree<AvlNode<K, V>, K, V>)
    returns (root': AvlNode<K, V>, grew: bool, oldV: Option<V>)
    requires Rep(root, t) && Distinct(t) && Balanced(t) && a !in Refs(t) && cmp(root.key, a.key) < 0
    requires a.left == a.right == null && a.balance == 0
    modifies Refs(t), a
    ensures var i := Insert(cmp, t, a, a.key, old(a.val));
      Rep(root', i.tree) && grew == i.grew && oldV == i.oldV
    ensures grew ==> root' == root
    decreases t, 0
  {
    hide Height, Balanced, Distinct, Refs, Insert, FixRightGrown;
    Apart(t);
    if root.right == null {
      grew := root.balance == 0;
      LinkRight(cmp, root, a, t);
      return root, grew, None;
    }
    RightInsertion(cmp, t, a, a.key, a.val);
    ghost var r := Insert(cmp, t.right, a, a.key, a.val).tree;
    assert allocated(Refs(t.left));
    var rightSubtree, g, o := InsertWrk(cmp, root.right, a, t.right);
    assert Rep(root.left, t.left);
    root', oldV := root, o;
    if g {
      root', grew := RightHasGrown(root, t, r);
    } else {
      root.right := rightSubtree;
      grew := false;
      Apart(t.(right := r));
    }
  }

  method LinkRight<K, V>(cmp: (K, K) -> int, root: AvlNode<K, V>, a: AvlNode<K, V>, ghost t: Tree<AvlNode<K, V>, K, V>)
    requires Rep(root, t) && Distinct(t) && Balanced(t) && a !in Refs(t) && cmp(root.key, a.key) < 0 && root.right == null
    requires a.left == a.right == null && a.balance == 0
    modifies root
    ensures Insert(cmp, t, a, a.key, a.val).grew == (old(root.balance) == 0) && Insert(cmp, t, a, a.key, a.val).oldV == None
    ensures Rep(root, Insert(cmp, t, a, a.key, a.val).tree)
  {
    hide Height, Balanced;
    root.right := a;
    root.balance := root.balance + 1;
  }

  // ---------------------------------------------------------------- search

  method FindNode<K, V>(cmp: (K, K) -> int, root: AvlNode?<K, V>, k: K, ghost t: Tree<AvlNode<K, V>, K, V>)
    returns (r: AvlNode?<K, V>)
    requires Rep(root, t)
    ensures match FindRef(cmp, t, k) case Some(n) => r == n case None => r == null
  {
    r := root;
    ghost var s := t;
    while r != null
      invariant Rep(r, s) && FindRef(cmp, s, k) == FindRef(cmp, t, k)
      decreases s
    {
      var cmpres := cmp(r.key, k);
      if cmpres > 0 {
        r, s := r.left, s.left;
      } else if cmpres < 0 {
        r, s := r.right, s.right;
      } else {
        return;
      }
    }
  }

  /** The node found is the binding that the sorted list has for `k`. */
  lemma {:induction false} FindIsLookup<K(!new), V>(cmp: (K, K) -> int, t: Tree<AvlNode<K, V>, K, V>, n: AvlNode?<K, V>, k: K)
    requires TotalOrder(cmp) && Ordered(cmp, t) && Rep(n, t)
    ensures match FindRef(cmp, t, k)
      case Some(r) => r in Refs(t) && r.key == k && Lookup(cmp, Entries(t), k) == Some(r.val)
      case None => Lookup(cmp, Entries(t), k) == None
  {
    if t.Node? {
      Descend(cmp, t);
      if cmp(t.key, k) > 0 {
        GoLeft(cmp, t, k, t.val);
        FindIsLookup(cmp, t.left, n.left, k);
      } else if cmp(t.key, k) < 0 {
        GoRight(cmp, t, k, t.val);
        FindIsLookup(cmp, t.right, n.right, k);
      } else {
        StopAt(cmp, t, k, t.val);
      }
    }
  }

  // ---------------------------------------------------------------- removal

  lemma FixLeftShrunkRefs<R, K, V>(t: Tree<R, K, V>, l: Tree<R, K, V>)
    requires Balanced(t) && t.Node? && Balanced(l) && Height(l) == Height(t.left) - 1
    requires Distinct(t.(left := l))
    ensures var s := FixLeftShrunk(t, l).tree; Distinct(s) && Refs(s) == Refs(t.(left := l))
  {
    Unfold(t);
    var t' := t.(left := l, bal := t.bal + 1);
    if t.bal == 1 {
      Unfold(t.right);
      if t.right.bal == -1 {
        DoubleSwlRefs(t');
      } else {
        SwlRefs(t');
      }
    }
  }

  lemma FixRightShrunkRefs<R, K, V>(t: Tree<R, K, V>, r: Tree<R, K, V>)
    requires Balanced(t) && t.Node? && Balanced(r) && Height(r) == Height(t.right) - 1
    requires Distinct(t.(right := r))
    ensures var s := FixRightShrunk(t, r).tree; Distinct(s) && Refs(s) == Refs(t.(right := r))
  {
    Unfold(t);
    var t' := t.(right := r, bal := t.bal - 1);
    if t.bal == -1 {
      Unfold(t.left);
      if t.left.bal == 1 {
        DoubleSwrRefs(t');
      } else {
        SwrRefs(t');
      }
    }
  }

  method LeftHasShrunk<K, V>(root: AvlNode<K, V>, ghost t: Tree<AvlNode<K, V>, K, V>, ghost l: Tree<AvlNode<K, V>, K, V>)
    returns (root': AvlNode<K, V>, shrunk: bool)
    requires Balanced(t) && t.Node? && Balanced(l) && Height(l) == Height(t.left) - 1
    requires Distinct(t.(left := l)) && Rep(root, t.(left := l))
    modifies Refs(t.(left := l))
    ensures Rep(root', FixLeftShrunk(t, l).tree) && shrunk == FixLeftShrunk(t, l).shrunk
  {
    var b := root.balance;
    root.balance := root.balance + 1;
    if b == -1 { return root, true; }
    if b == 0 { return root, false; }
    root', shrunk := SettleRightHeavy(root, t, l);
  }

  method SettleRightHeavy<K, V>(root: AvlNode<K, V>, ghost t: Tree<AvlNode<K, V>, K, V>, ghost l: Tree<AvlNode<K, V>, K, V>)
    returns (root': AvlNode<K, V>, shrunk: bool)
    requires Balanced(t) && t.Node? && Balanced(l) && Height(l) == Height(t.left) - 1 && t.bal == 1
    requires Distinct(t.(left := l)) && Rep(root, t.(left := l, bal := 2))
    modifies Refs(t.(left := l))
    ensures Rep(root', FixLeftShrunk(t, l).tree) && shrunk == FixLeftShrunk(t, l).shrunk
  {
    Unfold(t);
    Unfold(t.right);
    ghost var t' := t.(left := l, bal := 2);
    if root.right.balance == 0 {
      root' := SwingLeftBal(root, -1, 1, t');
      shrunk := false;
    } else if root.right.balance == 1 {
      root' := SwingLeftBal(root, 0, 0, t');
      shrunk := true;
    } else {
      Unfold(t.right.left);
      root' := DoubleSwingLeft(root, t');
      shrunk := true;
    }
  }

  method RightHasShrunk<K, V>(root: AvlNode<K, V>, ghost t: Tree<AvlNode<K, V>, K, V>, ghost r: Tree<AvlNode<K, V>, K, V>)
    returns (root': AvlNode<K, V>, shrunk: bool)
    requires Balanced(t) && t.Node? && Balanced(r) && Height(r) == Height(t.right) - 1
    requires Distinct(t.(right := r)) && Rep(root, t.(right := r))
    modifies Refs(t.(right := r))
    ensures Rep(root', FixRightShrunk(t, r).tree) && shrunk == FixRightShrunk(t, r).shrunk
  {
    var b := root.balance;
    root.balance := root.balance - 1;
    if b == 1 { return root, true; }
    if b == 0 { return root, false; }
    root', shrunk := SettleLeftHeavy(root, t, r);
  }

  method SettleLeftHeavy<K, V>(root: AvlNode<K, V>, ghost t: Tree<AvlNode<K, V>, K, V>, ghost r: Tree<AvlNode<K, V>, K, V>)
    returns (root': AvlNode<K, V>, shrunk: bool)
    requires Balanced(t) && t.Node? && Balanced(r) && Height(r) == Height(t.right) - 1 && t.bal == -1
    requires Distinct(t.(right := r)) && Rep(root, t.(right := r, bal := -2))
    modifies Refs(t.(right := r))
    ensures Rep(root', FixRightShrunk(t, r).tree) && shrunk == FixRightShrunk(t, r).shrunk
  {
    Unfold(t);
    Unfold(t.left);
    ghost var t' := t.(right := r, bal := -2);
    if root.left.balance == 0 {
      root' := SwingRightBal(root, 1, -1, t');
      shrunk := false;
    } else if root.left.balance == -1 {
      root' := SwingRightBal(root, 0, 0, t');
      shrunk := true;
    } else {
      Unfold(t.left.right);
      root' := DoubleSwingRight(root, t');
      shrunk := true;
    }
  }

  // The nodes a removal leaves, and the neighbour that replaces a two-sided root.

  lemma {:induction false} MaxRef<R, K(!new), V>(cmp: (K, K) -> int, t: Tree<R, K, V>)
    requires TotalOrder(cmp) && Ordered(cmp, t) && t.Node?
    ensures FindRef(cmp, t, MaxNode(t).key) == Some(MaxNode(t).ref)
  {
    Descend(cmp, t);
    if t.right.Node? {
      MaxRef(cmp, t.right);
      var e := Entries(t.right)[|Entries(t.right)| - 1];
      assert e in Entries(t.right);
    }
  }

  lemma {:induction false} MinRef<R, K(!new), V>(cmp: (K, K) -> int, t: Tree<R, K, V>)
    requires TotalOrder(cmp) && Ordered(cmp, t) && t.Node?
    ensures FindRef(cmp, t, MinNode(t).key) == Some(MinNode(t).ref)
  {
    Descend(cmp, t);
    if t.left.Node? {
      MinRef(cmp, t.left);
      var e := Entries(t.left)[0];
      assert e in Entries(t.left);
    }
  }

  lemma {:induction false} FoundHasKey<R, K(!new), V>(cmp: (K, K) -> int, t: Tree<R, K, V>, k: K)
    requires TotalOrder(cmp) && FindRef(cmp, t, k).Some?
    ensures HasKey(Entries(t), k) && FindRef(cmp, t, k).value in Refs(t)
  {
    if cmp(t.key, k) > 0 {
      FoundHasKey(cmp, t.left, k);
    } else if cmp(t.key, k) < 0 {
      FoundHasKey(cmp, t.right, k);
    } else {
      assert (t.key, t.val) in Entries(t);
    }
  }

  lemma ReplaceLeft<R, K, V>(t: Tree<R, K, V>, l: Tree<R, K, V>, r: R)
    requires t.Node? && Distinct(t) && Distinct(l) && r in Refs(t.left) && Refs(l) == Refs(t.left) - {r}
    ensures Distinct(t.(left := l)) && Refs(t.(left := l)) == Refs(t) - {r}
  {
  }

  lemma ReplaceRight<R, K, V>(t: Tree<R, K, V>, s: Tree<R, K, V>, r: R)
    requires t.Node? && Distinct(t) && Distinct(s) && r in Refs(t.right) && Refs(s) == Refs(t.right) - {r}
    ensures Distinct(t.(right := s)) && Refs(t.(right := s)) == Refs(t) - {r}
  {
  }

  lemma {:induction false} RemoveRefs<R, K(!new), V>(cmp: (K, K) -> int, t: Tree<R, K, V>, k: K)
    requires TotalOrder(cmp) && Ordered(cmp, t) && Balanced(t) && Distinct(t) && FindRef(cmp, t, k).Some?
    ensures HasKey(Entries(t), k)
    ensures var s := Remove(cmp, t, k).tree;
      Distinct(s) && Refs(s) == Refs(t) - {FindRef(cmp, t, k).value}
    decreases t, 2
  {
    FoundHasKey(cmp, t, k);
    if cmp(t.key, k) > 0 {
      RemoveLeftRefs(cmp, t, k);
    } else if cmp(t.key, k) < 0 {
      RemoveRightRefs(cmp, t, k);
    } else if t.left.Node? && t.right.Node? {
      if t.bal < 0 {
        RootLeftRefs(cmp, t);
      } else {
        RootRightRefs(cmp, t);
      }
    }
  }

  lemma {:induction false} RemoveLeftRefs<R, K(!new), V>(cmp: (K, K) -> int, t: Tree<R, K, V>, k: K)
    requires TotalOrder(cmp) && Ordered(cmp, t) && Balanced(t) && Distinct(t)
    requires HasKey(Entries(t), k) && FindRef(cmp, t, k).Some? && cmp(t.key, k) > 0
    ensures var s := Remove(cmp, t, k).tree;
      Distinct(s) && Refs(s) == Refs(t) - {FindRef(cmp, t, k).value}
    decreases t, 1
  {
    Descend(cmp, t);
    RemoveRefs(cmp, t.left, k);
    FoundHasKey(cmp, t.left, k);
    var d := Remove(cmp, t.left, k);
    ReplaceLeft(t, d.tree, FindRef(cmp, t.left, k).value);
    if d.shrunk {
      FixLeftShrunkRefs(t, d.tree);
    }
  }

  lemma {:induction false} RemoveRightRefs<R, K(!new), V>(cmp: (K, K) -> int, t: Tree<R, K, V>, k: K)
    requires TotalOrder(cmp) && Ordered(cmp, t) && Balanced(t) && Distinct(t)
    requires HasKey(Entries(t), k) && FindRef(cmp, t, k).Some? && cmp(t.key, k) < 0
    ensures var s := Remove(cmp, t, k).tree;
      Distinct(s) && Refs(s) == Refs(t) - {FindRef(cmp, t, k).value}
    decreases t, 1
  {
    Descend(cmp, t);
    RemoveRefs(cmp, t.right, k);
    FoundHasKey(cmp, t.right, k);
    var d := Remove(cmp, t.right, k);
    ReplaceRight(t, d.tree, FindRef(cmp, t.right, k).value);
    if d.shrunk {
      FixRightShrunkRefs(t, d.tree);
    }
  }

  /** The node `a` leaves one side and takes the place of the root. */
  lemma ReplaceRoot<R, K, V>(t: Tree<R, K, V>, s: Tree<R, K, V>, a: R)
    requires t.Node? && s.Node? && Distinct(t) && s.ref == a
    requires
      || (s.right == t.right && Distinct(s.left) && a in Refs(t.left) && Refs(s.left) == Refs(t.left) - {a})
      || (s.left == t.left && Distinct(s.right) && a in Refs(t.right) && Refs(s.right) == Refs(t.right) - {a})
    ensures Distinct(s) && Refs(s) == Refs(t) - {t.ref}
  {
  }

  lemma {:induction false} RootLeftRefs<R, K(!new), V>(cmp: (K, K) -> int, t: Tree<R, K, V>)
    requires TotalOrder(cmp) && Ordered(cmp, t) && Balanced(t) && Distinct(t)
    requires t.Node? && t.left.Node? && t.right.Node? && t.bal < 0
    ensures var s := RemoveRoot(cmp, t).tree; Distinct(s) && Refs(s) == Refs(t) - {t.ref}
    decreases t, 0
  {
    RootLeft(cmp, t);
    var a := MaxNode(t.left);
    MaxRef(cmp, t.left);
    FoundHasKey(cmp, t.left, a.key);
    RemoveRefs(cmp, t.left, a.key);
    ReplaceRoot(t, RemoveRoot(cmp, t).tree, a.ref);
  }

  lemma {:induction false} RootRightRefs<R, K(!new), V>(cmp: (K, K) -> int, t: Tree<R, K, V>)
    requires TotalOrder(cmp) && Ordered(cmp, t) && Balanced(t) && Distinct(t)
    requires t.Node? && t.left.Node? && t.right.Node? && t.bal >= 0
    ensures var s := RemoveRoot(cmp, t).tree; Distinct(s) && Refs(s) == Refs(t) - {t.ref}
    decreases t, 0
  {
    RootRight(cmp, t);
    var a := MinNode(t.right);
    MinRef(cmp, t.right);
    FoundHasKey(cmp, t.right, a.key);
    RemoveRefs(cmp, t.right, a.key);
    ReplaceRoot(t, RemoveRoot(cmp, t).tree, a.ref);
  }

  // The removal itself.

  lemma LeftRemoval<R, K(!new), V>(cmp: (K, K) -> int, t: Tree<R, K, V>, k: K, a: R)
    requires TotalOrder(cmp) && Ordered(cmp, t) && Balanced(t) && Distinct(t)
    requires t.Node? && FindRef(cmp, t, k) == Some(a) && cmp(t.key, k) > 0
    ensures HasKey(Entries(t), k) && HasKey(Entries(t.left), k) && Ordered(cmp, t.left)
    ensures Balanced(t.left) && Distinct(t.left)
    ensures FindRef(cmp, t.left, k) == Some(a) && a in Refs(t.left)
    ensures var d := Remove(cmp, t.left, k);
      && Distinct(t.(left := d.tree)) && Refs(t.(left := d.tree)) == Refs(t) - {a}
      && Balanced(d.tree) && (d.shrunk ==> Height(d.tree) == Height(t.left) - 1)
      && Remove(cmp, t, k) == if d.shrunk then FixLeftShrunk(t, d.tree) else Removed(t.(left := d.tree), false)
  {
    FoundHasKey(cmp, t, k);
    FoundHasKey(cmp, t.left, k);
    Descend(cmp, t);
    RemoveRefs(cmp, t.left, k);
    ReplaceLeft(t, Remove(cmp, t.left, k).tree, a);
  }

  lemma RightRemoval<R, K(!new), V>(cmp: (K, K) -> int, t: Tree<R, K, V>, k: K, a: R)
    requires TotalOrder(cmp) && Ordered(cmp, t) && Balanced(t) && Distinct(t)
    requires t.Node? && FindRef(cmp, t, k) == Some(a) && cmp(t.key, k) < 0
    ensures HasKey(Entries(t), k) && HasKey(Entries(t.right), k) && Ordered(cmp, t.right)
    ensures Balanced(t.right) && Distinct(t.right)
    ensures FindRef(cmp, t.right, k) == Some(a) && a in Refs(t.right)
    ensures var d := Remove(cmp, t.right, k);
      && Distinct(t.(right := d.tree)) && Refs(t.(right := d.tree)) == Refs(t) - {a}
      && Balanced(d.tree) && (d.shrunk ==> Height(d.tree) == Height(t.right) - 1)
      && Remove(cmp, t, k) == if d.shrunk then FixRightShrunk(t, d.tree) else Removed(t.(right := d.tree), false)
  {
    FoundHasKey(cmp, t, k);
    FoundHasKey(cmp, t.right, k);
    Descend(cmp, t);
    RemoveRefs(cmp, t.right, k);
    ReplaceRight(t, Remove(cmp, t.right, k).tree, a);
  }

  /** The node chosen to replace a two-sided root `t`. */
  function Neighbour<R, K, V>(t: Tree<R, K, V>): Tree<R, K, V>
    requires t.Node? && t.left.Node? && t.right.Node?
  {
    if t.bal < 0 then MaxNode(t.left) else MinNode(t.right)
  }

  lemma LastRemoval<R, K(!new), V>(cmp: (K, K) -> int, t: Tree<R, K, V>, a: Tree<R, K, V>)
    requires TotalOrder(cmp) && Ordered(cmp, t) && Balanced(t) && Distinct(t)
    requires t.Node? && t.left.Node? && t.right.Node? && a == Neighbour(t) && t.bal < 0
    ensures a.Node? && FindRef(cmp, t, a.key) == Some(a.ref) && cmp(t.key, a.key) != 0
    ensures HasKey(Entries(t), a.key) && a.ref in Refs(t)
    ensures var d := Remove(cmp, t, a.key);
      && d.tree.Node? && d.tree.ref == t.ref && d.tree.val == t.val && a.ref !in Refs(d.tree)
      && RemoveRoot(cmp, t)
         == Removed(d.tree.(ref := a.ref, key := a.key, val := a.val), d.tree.bal == 0 && d.shrunk)
  {
    assert FindRef(cmp, t, a.key) == Some(a.ref) by {
      Descend(cmp, t);
      MaxRef(cmp, t.left);
      assert (a.key, a.val) in Entries(t.left);
    }
    RootViaLast(cmp, t, a);
    RemoveRefs(cmp, t, a.key);
    FoundHasKey(cmp, t, a.key);
  }

  lemma FirstRemoval<R, K(!new), V>(cmp: (K, K) -> int, t: Tree<R, K, V>, a: Tree<R, K, V>)
    requires TotalOrder(cmp) && Ordered(cmp, t) && Balanced(t) && Distinct(t)
    requires t.Node? && t.left.Node? && t.right.Node? && a == Neighbour(t) && t.bal >= 0
    ensures a.Node? && FindRef(cmp, t, a.key) == Some(a.ref) && cmp(t.key, a.key) != 0
    ensures HasKey(Entries(t), a.key) && a.ref in Refs(t)
    ensures var d := Remove(cmp, t, a.key);
      && d.tree.Node? && d.tree.ref == t.ref && d.tree.val == t.val && a.ref !in Refs(d.tree)
      && RemoveRoot(cmp, t)
         == Removed(d.tree.(ref := a.ref, key := a.key, val := a.val), d.tree.bal == 0 && d.shrunk)
  {
    assert FindRef(cmp, t, a.key) == Some(a.ref) by {
      Descend(cmp, t);
      MinRef(cmp, t.right);
      assert (a.key, a.val) in Entries(t.right);
    }
    RootViaFirst(cmp, t, a);
    RemoveRefs(cmp, t, a.key);
    FoundHasKey(cmp, t, a.key);
  }

  /** Removing that node from the tree leaves the root in place, so its links can be taken over. */
  lemma NeighbourRemoval<R, K(!new), V>(cmp: (K, K) -> int, t: Tree<R, K, V>, a: Tree<R, K, V>)
    requires TotalOrder(cmp) && Ordered(cmp, t) && Balanced(t) && Distinct(t)
    requires t.Node? && t.left.Node? && t.right.Node? && a == Neighbour(t)
    ensures a.Node? && FindRef(cmp, t, a.key) == Some(a.ref) && cmp(t.key, a.key) != 0
    ensures HasKey(Entries(t), a.key) && a.ref in Refs(t)
    ensures var d := Remove(cmp, t, a.key);
      && d.tree.Node? && d.tree.ref == t.ref && d.tree.val == t.val && a.ref !in Refs(d.tree)
      && RemoveRoot(cmp, t)
         == Removed(d.tree.(ref := a.ref, key := a.key, val := a.val), d.tree.bal == 0 && d.shrunk)
  {
    if t.bal < 0 {
      LastRemoval(cmp, t, a);
    } else {
      FirstRemoval(cmp, t, a);
    }
  }

  method RemoveWrk<K(!new), V>(cmp: (K, K) -> int, root: AvlNode<K, V>, a: AvlNode<K, V>, ghost t: Tree<AvlNode<K, V>, K, V>)
    returns (root': AvlNode?<K, V>, shrunk: bool)
    requires TotalOrder(cmp) && Ordered(cmp, t) && Balanced(t)
    requires Rep(root, t) && Distinct(t) && FindRef(cmp, t, a.key) == Some(a)
    modifies Refs(t)
    ensures HasKey(Entries(t), a.key)
    ensures var d := Remove(cmp, t, a.key); Rep(root', d.tree) && shrunk == d.shrunk
    ensures a.val == old(a.val)
    decreases t, if cmp(root.key, a.key) == 0 then 4 else 1
  {
    FoundHasKey(cmp, t, a.key);
    var cmpres := cmp(root.key, a.key);
    if cmpres > 0 {
      root', shrunk := RemoveFromLeft(cmp, root, a, t);
    } else if cmpres < 0 {
      root', shrunk := RemoveFromRight(cmp, root, a, t);
    } else {
      root', shrunk := RemoveRootWrk(cmp, root, t);
    }
  }

  method RemoveFromLeft<K(!new), V>(cmp: (K, K) -> int, root: AvlNode<K, V>, a: AvlNode<K, V>, ghost t: Tree<AvlNode<K, V>, K, V>)
    returns (root': AvlNode<K, V>, shrunk: bool)
    requires TotalOrder(cmp) && Ordered(cmp, t) && Balanced(t)
    requires Rep(root, t) && Distinct(t) && FindRef(cmp, t, a.key) == Some(a)
    requires HasKey(Entries(t), a.key) && cmp(root.key, a.key) > 0
    modifies Refs(t)
    ensures var d := Remove(cmp, t, a.key); Rep(root', d.tree) && shrunk == d.shrunk
    ensures a.val == old(a.val)
    decreases t, 0
  {
    hide TotalOrder, Ordered, HasKey, Height, Balanced, Distinct, Refs, Remove, FindRef, FixLeftShrunk, FixRightShrunk;
    LeftRemoval(cmp, t, a.key, a);
    Apart(t);
    ghost var l := Remove(cmp, t.left, a.key).tree;
    assert allocated(Refs(t.right));
    var leftSubtree, ch := RemoveWrk(cmp, root.left, a, t.left);
    assert Rep(root.right, t.right);
    root.left := leftSubtree;
    if ch {
      root', shrunk := LeftHasShrunk(root, t, l);
    } else {
      root', shrunk := root, false;
    }
  }

  method RemoveFromRight<K(!new), V>(cmp: (K, K) -> int, root: AvlNode<K, V>, a: AvlNode<K, V>, ghost t: Tree<AvlNode<K, V>, K, V>)
    returns (root': AvlNode<K, V>, shrunk: bool)
    requires TotalOrder(cmp) && Ordered(cmp, t) && Balanced(t)
    requires Rep(root, t) && Distinct(t) && FindRef(cmp, t, a.key) == Some(a)
    requires HasKey(Entries(t), a.key) && cmp(root.key, a.key) < 0
    modifies Refs(t)
    ensures var d := Remove(cmp, t, a.key); Rep(root', d.tree) && shrunk == d.shrunk
    ensures a.val == old(a.val)
    decreases t, 0
  {
    hide TotalOrder, Ordered, HasKey, Height, Balanced, Distinct, Refs, Remove, FindRef, FixLeftShrunk, FixRightShrunk;
    RightRemoval(cmp, t, a.key, a);
    Apart(t);
    ghost var r := Remove(cmp, t.right, a.key).tree;
    assert allocated(Refs(t.left));
    var rightSubtree, ch := RemoveWrk(cmp, root.right, a, t.right);
    assert Rep(root.left, t.left);
    root.right := rightSubtree;
    if ch {
      root', shrunk := RightHasShrunk(root, t, r);
    } else {
      root', shrunk := root, false;
    }
  }

  method LastNode<K, V>(n: AvlNode<K, V>, ghost t: Tree<AvlNode<K, V>, K, V>) returns (a: AvlNode<K, V>)
    requires Rep(n, t)
    ensures t.Node? && a == MaxNode(t).ref && a.key == MaxNode(t).key && a.val == MaxNode(t).val
  {
    a := n;
    ghost var s := t;
    while a.right != null
      invariant Rep(a, s) && s.Node? && MaxNode(s) == MaxNode(t)
      decreases s
    {
      a, s := a.right, s.right;
    }
  }

  method FirstNode<K, V>(n: AvlNode<K, V>, ghost t: Tree<AvlNode<K, V>, K, V>) returns (a: AvlNode<K, V>)
    requires Rep(n, t)
    ensures t.Node? && a == MinNode(t).ref && a.key == MinNode(t).key && a.val == MinNode(t).val
  {
    a := n;
    ghost var s := t;
    while a.left != null
      invariant Rep(a, s) && s.Node? && MinNode(s) == MinNode(t)
      decreases s
    {
      a, s := a.left, s.left;
    }
  }

  method ChooseNeighbour<K, V>(root: AvlNode<K, V>, ghost t: Tree<AvlNode<K, V>, K, V>) returns (a: AvlNode<K, V>)
    requires Rep(root, t) && t.Node? && t.left.Node? && t.right.Node?
    ensures var m := Neighbour(t); m.Node? && a == m.ref && a.key == m.key && a.val == m.val
  {
    if root.balance < 0 {
      a := LastNode(root.left, t.left);
    } else {
      a := FirstNode(root.right, t.right);
    }
  }

  method RemoveRootWrk<K(!new), V>(cmp: (K, K) -> int, root: AvlNode<K, V>, ghost t: Tree<AvlNode<K, V>, K, V>)
    returns (root': AvlNode?<K, V>, shrunk: bool)
    requires TotalOrder(cmp) && Ordered(cmp, t) && Balanced(t)
    requires Rep(root, t) && Distinct(t)
    modifies Refs(t)
    ensures var d := RemoveRoot(cmp, t); Rep(root', d.tree) && shrunk == d.shrunk
    ensures root.val == old(root.val)
    decreases t, 3
  {
    if root.left == null {
      if root.right == null {
        return null, true;
      }
      return root.right, true;
    }
    if root.right == null {
      return root.left, true;
    }
    root', shrunk := ReplaceRoot2(cmp, root, t);
  }

  method ReplaceRoot2<K(!new), V>(cmp: (K, K) -> int, root: AvlNode<K, V>, ghost t: Tree<AvlNode<K, V>, K, V>)
    returns (a: AvlNode<K, V>, shrunk: bool)
    requires TotalOrder(cmp) && Ordered(cmp, t) && Balanced(t)
    requires Rep(root, t) && Distinct(t) && t.Node? && t.left.Node? && t.right.Node?
    modifies Refs(t)
    ensures Rep(a, RemoveRoot(cmp, t).tree) && shrunk == RemoveRoot(cmp, t).shrunk
    ensures root.val == old(root.val)
    decreases t, 2
  {
    assert allocated(Refs(t));
    a := ChooseNeighbour(root, t);
    assert Rep(root, t);
    NeighbourRemoval(cmp, t, Neighbour(t));
    var rest, ch := RemoveWrk(cmp, root, a, t);
    TakeOver(a, rest, Remove(cmp, t, a.key).tree);
    shrunk := a.balance == 0 && ch;
  }

  /** `a`, unlinked from the tree below `rest`, takes the place of `rest` at its top. */
  method TakeOver<K, V>(a: AvlNode<K, V>, rest: AvlNode<K, V>, ghost t: Tree<AvlNode<K, V>, K, V>)
    requires Rep(rest, t) && a !in Refs(t)
    modifies a
    ensures t.Node? && Rep(a, t.(ref := a, key := a.key, val := old(a.val))) && a.balance == t.bal
  {
    a.left := rest.left;
    a.right := rest.right;
    a.balance := rest.balance;
  }

  // ---------------------------------------------------------------- deep copy

  /** One copied field: verbatim without a callback, and failing when the callback cannot allocate. */
  function Dup<T>(f: Option<T -> Option<T>>, x: T): Option<T> {
    if f.None? then Some(x) else f.value(x)
  }

  predicate CanCopy<R, K, V>(dopyK: Option<K -> Option<K>>, dopyV: Option<V -> Option<V>>, t: Tree<R, K, V>) {
    t.Node? ==>
      && Dup(dopyK, t.key).Some? && Dup(dopyV, t.val).Some?
      && CanCopy(dopyK, dopyV, t.left) && CanCopy(dopyK, dopyV, t.right)
  }

  /** `t'` is `t` with every key and value copied; the nodes may be others. */
  ghost predicate CopyOf<R, K, V>(dopyK: Option<K -> Option<K>>, dopyV: Option<V -> Option<V>>, t: Tree<R, K, V>, t': Tree<R, K, V>)
  {
    if t.Leaf? then t'.Leaf?
    else
      && t'.Node? && t'.bal == t.bal
      && Dup(dopyK, t.key) == Some(t'.key) && Dup(dopyV, t.val) == Some(t'.val)
      && CopyOf(dopyK, dopyV, t.left, t'.left) && CopyOf(dopyK, dopyV, t.right, t'.right)
  }

  method Assemble<K, V>(left: AvlNode?<K, V>, k: K, v: V, balance: int, right: AvlNode?<K, V>,
                        ghost l: Tree<AvlNode<K, V>, K, V>, ghost r: Tree<AvlNode<K, V>, K, V>)
    returns (nyu: AvlNode<K, V>)
    requires Rep(left, l) && Rep(right, r) && Distinct(l) && Distinct(r) && Refs(l) !! Refs(r)
    ensures fresh(nyu)
    ensures var t := Node(l, nyu, k, v, balance, r); Rep(nyu, t) && Distinct(t)
  {
    assert allocated(Refs(l)) && allocated(Refs(r));
    nyu := new AvlNode(k, v);
    nyu.balance, nyu.left, nyu.right := balance, left, right;
    assert Rep(left, l) && Rep(right, r);
  }

  /** What a pointer to a tree leads to. */
  lemma RepNode<K, V>(n: AvlNode?<K, V>, t: Tree<AvlNode<K, V>, K, V>)
    requires Rep(n, t)
    ensures n == null <==> t.Leaf?
    ensures t.Node? ==>
      && n.key == t.key && n.val == t.val && n.balance == t.bal
      && Refs(t.left) <= Refs(t) && Refs(t.right) <= Refs(t)
      && Rep(n.left, t.left) && Rep(n.right, t.right)
  {
  }

  lemma NoRep<K, V>()
    ensures var t: Tree<AvlNode<K, V>, K, V> := Leaf; Rep(null, t)
  {
  }

  lemma NodeRefs<R, K, V>(t: Tree<R, K, V>)
    requires t.Node?
    ensures Refs(t) == {t.ref} + Refs(t.left) + Refs(t.right)
  {
  }

  /** What is copied of one node. */
  lemma NodeCopy<R, K, V>(dopyK: Option<K -> Option<K>>, dopyV: Option<V -> Option<V>>, t: Tree<R, K, V>, t': Tree<R, K, V>)
    requires t.Node? && t'.Node? && t'.bal == t.bal
    requires Dup(dopyK, t.key) == Some(t'.key) && Dup(dopyV, t.val) == Some(t'.val)
    requires CopyOf(dopyK, dopyV, t.left, t'.left) && CopyOf(dopyK, dopyV, t.right, t'.right)
    ensures CopyOf(dopyK, dopyV, t, t')
  {
  }

  lemma CanCopyNode<R, K, V>(dopyK: Option<K -> Option<K>>, dopyV: Option<V -> Option<V>>, t: Tree<R, K, V>)
    requires t.Node?
    ensures CanCopy(dopyK, dopyV, t) <==>
      && Dup(dopyK, t.key).Some? && Dup(dopyV, t.val).Some?
      && CanCopy(dopyK, dopyV, t.left) && CanCopy(dopyK, dopyV, t.right)
  {
  }

  lemma NoCopy<R, K, V>(dopyK: Option<K -> Option<K>>, dopyV: Option<V -> Option<V>>, t: Tree<R, K, V>)
    ensures t.Leaf? ==> CanCopy(dopyK, dopyV, t) && CopyOf(dopyK, dopyV, t, Leaf)
    ensures var t': Tree<R, K, V> := Leaf; Distinct(t') && Refs(t') == {}
  {
  }

  method Dopy<K, V>(nd: AvlNode?<K, V>, dopyK: Option<K -> Option<K>>, dopyV: Option<V -> Option<V>>,
                    ghost t: Tree<AvlNode<K, V>, K, V>)
    returns (nyu: AvlNode?<K, V>, ghost t': Tree<AvlNode<K, V>, K, V>)
    requires Rep(nd, t)
    ensures nyu == null <==> t.Leaf? || !CanCopy(dopyK, dopyV, t)
    ensures CanCopy(dopyK, dopyV, t) ==> CopyOf(dopyK, dopyV, t, t') && Rep(nyu, t') && Distinct(t') && fresh(Refs(t'))
    decreases t
  {
    hide *;
    RepNode(nd, t);
    NoCopy(dopyK, dopyV, t);
    t' := Leaf;
    NoRep<K, V>();
    if nd == null {
      return null, t';
    }
    assert allocated(Refs(t));
    CanCopyNode(dopyK, dopyV, t);
    NoCopy(dopyK, dopyV, t.left);
    NoCopy(dopyK, dopyV, t.right);
    var k, v := Dup(dopyK, nd.key), Dup(dopyV, nd.val);
    if k.None? || v.None? {
      return null, t';
    }
    ghost var l: Tree<AvlNode<K, V>, K, V> := Leaf;
    ghost var r: Tree<AvlNode<K, V>, K, V> := Leaf;
    var left, right := null, null;
    left, l := Dopy(nd.left, dopyK, dopyV, t.left);
    if nd.left != null && left == null {
      return null, t';
    }
    assert allocated(Refs(l));
    assert Rep(nd.right, t.right);
    right, r := Dopy(nd.right, dopyK, dopyV, t.right);
    if nd.right != null && right == null {
      return null, t';
    }
    assert Rep(left, l) && Refs(l) !! Refs(r);
    nyu := Assemble(left, k.value, v.value, nd.balance, right, l, r);
    t' := Node(l, nyu, k.value, v.value, nd.balance, r);
    NodeCopy(dopyK, dopyV, t, t');
    NodeRefs(t');
  }

  lemma {:induction false} CopyEntries<R, K, V>(dopyK: Option<K -> Option<K>>, dopyV: Option<V -> Option<V>>, t: Tree<R, K, V>, t': Tree<R, K, V>)
    requires CopyOf(dopyK, dopyV, t, t')
    ensures Height(t') == Height(t) && (Balanced(t) ==> Balanced(t'))
    ensures |Entries(t')| == |Entries(t)|
    ensures forall i :: 0 <= i < |Entries(t)| ==>
      && Dup(dopyK, Entries(t)[i].0) == Some(Entries(t')[i].0)
      && Dup(dopyV, Entries(t)[i].1) == Some(Entries(t')[i].1)
  {
    if t.Node? {
      CopyEntries(dopyK, dopyV, t.left, t'.left);
      CopyEntries(dopyK, dopyV, t.right, t'.right);
    }
  }
}
