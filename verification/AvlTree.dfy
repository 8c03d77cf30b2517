/**
 The value of a WordFM search tree, and what inserting into it and removing from it
 does.  The functions below follow the pointer code of `cg_merge.c` branch by branch;
 the heap version in `WordFm.dfy` is proved equal to them, and everything promised
 about a WordFM (order, balance, height, the finite map it stands for) is proved here.
 */
module AvlTree {
  import opened Common

  datatype Tree<R, K, V> = Leaf | Node(left: Tree<R, K, V>, ref: R, key: K, val: V, bal: int, right: Tree<R, K, V>)

  /** What a `kCmp` callback must be: a three-way comparison of a total order. */
  ghost predicate TotalOrder<K(!new)>(cmp: (K, K) -> int) {
    && (forall a, b :: cmp(a, b) == 0 <==> a == b)
    && (forall a, b :: cmp(a, b) < 0 <==> cmp(b, a) > 0)
    && (forall a, b, c :: cmp(a, b) < 0 && cmp(b, c) < 0 ==> cmp(a, c) < 0)
  }

  function Height<R, K, V>(t: Tree<R, K, V>): nat {
    match t
    case Leaf => 0
    case Node(l, _, _, _, _, r) => 1 + if Height(l) < Height(r) then Height(r) else Height(l)
  }

  /** The bindings of a tree, in order. */
  function Entries<R, K, V>(t: Tree<R, K, V>): seq<(K, V)> {
    match t
    case Leaf => []
    case Node(l, _, k, v, _, r) => Entries(l) + [(k, v)] + Entries(r)
  }

  ghost predicate Sorted<K(!new), V>(cmp: (K, K) -> int, s: seq<(K, V)>) {
    forall i, j :: 0 <= i < j < |s| ==> cmp(s[i].0, s[j].0) < 0
  }

  ghost predicate HasKey<K, V>(s: seq<(K, V)>, k: K) {
    exists e :: e in s && e.0 == k
  }

  ghost predicate Ordered<R, K(!new), V>(cmp: (K, K) -> int, t: Tree<R, K, V>) {
    Sorted(cmp, Entries(t))
  }

  lemma SortedSplit<K(!new), V>(cmp: (K, K) -> int, a: seq<(K, V)>, x: (K, V), b: seq<(K, V)>)
    requires Sorted(cmp, a + [x] + b)
    ensures Sorted(cmp, a) && Sorted(cmp, b)
    ensures forall e :: e in a ==> cmp(e.0, x.0) < 0
    ensures forall e :: e in b ==> cmp(x.0, e.0) < 0
  {
    var s := a + [x] + b;
    assert s[|a|] == x;
    assert forall i :: 0 <= i < |a| ==> a[i] == s[i];
    assert forall i :: 0 <= i < |b| ==> b[i] == s[|a| + 1 + i];
  }

  /** What order means at one node, and where a key must be. */
  lemma Descend<R, K(!new), V>(cmp: (K, K) -> int, t: Tree<R, K, V>)
    requires TotalOrder(cmp) && t.Node? && Ordered(cmp, t)
    ensures Ordered(cmp, t.left) && Ordered(cmp, t.right)
    ensures forall e :: e in Entries(t.left) ==> cmp(t.key, e.0) > 0
    ensures forall e :: e in Entries(t.right) ==> cmp(t.key, e.0) < 0
    ensures forall e :: e in Entries(t) ==> e == (t.key, t.val) || e in Entries(t.left) || e in Entries(t.right)
  {
    SortedSplit(cmp, Entries(t.left), (t.key, t.val), Entries(t.right));
  }

  /** Every stored balance is the right height minus the left height, and at most one off. */
  ghost predicate Balanced<R, K, V>(t: Tree<R, K, V>) {
    t.Node? ==>
      && Balanced(t.left) && Balanced(t.right)
      && t.bal == Height(t.right) - Height(t.left)
      && -1 <= t.bal <= 1
  }

  lemma Unfold<R, K, V>(t: Tree<R, K, V>)
    requires t.Node? && Balanced(t)
    ensures Balanced(t.left) && Balanced(t.right) && -1 <= t.bal <= 1
    ensures (t.bal < 0 ==> t.left.Node?) && (t.bal > 0 ==> t.right.Node?)
    ensures t.bal <= 0 ==> Height(t) == 1 + Height(t.left) && Height(t.right) == Height(t.left) + t.bal
    ensures t.bal >= 0 ==> Height(t) == 1 + Height(t.right) && Height(t.left) == Height(t.right) - t.bal
  {
  }

  /** Three balanced subtrees under two nodes, as a single rotation leaves them. */
  lemma Join<R, K, V>(t: Tree<R, K, V>)
    requires t.Node? && Balanced(t.left) && Balanced(t.right)
    requires -1 <= t.bal <= 1 && t.bal == Height(t.right) - Height(t.left)
    ensures Balanced(t)
    ensures Height(t) == 1 + if t.bal < 0 then Height(t.left) else Height(t.right)
  {
  }

  // ---------------------------------------------------------------- rotations

  function Swl<R, K, V>(t: Tree<R, K, V>): Tree<R, K, V>
    requires t.Node? && t.right.Node?
  {
    t.right.(left := t.(right := t.right.left))
  }

  function Swr<R, K, V>(t: Tree<R, K, V>): Tree<R, K, V>
    requires t.Node? && t.left.Node?
  {
    t.left.(right := t.(left := t.left.right))
  }

  /** Sets the balances of the root and of its two children. */
  function SetBal<R, K, V>(t: Tree<R, K, V>, l: int, b: int, r: int): Tree<R, K, V>
    requires t.Node? && t.left.Node? && t.right.Node?
  {
    t.(left := t.left.(bal := l), bal := b, right := t.right.(bal := r))
  }

  function Nasty<R, K, V>(t: Tree<R, K, V>): Tree<R, K, V>
    requires t.Node? && t.left.Node? && t.right.Node?
  {
    if t.bal == -1 then SetBal(t, 0, 0, 1)
    else if t.bal == 1 then SetBal(t, -1, 0, 0)
    else SetBal(t, 0, 0, 0)
  }

  /** Single rotation to the right: subtrees `a`, `b`, `c` under nodes keyed as `x` and `y`. */
  lemma Regroup<R, K, V>(a: Tree<R, K, V>, x: Tree<R, K, V>, b: Tree<R, K, V>, y: Tree<R, K, V>, c: Tree<R, K, V>, p: int, q: int)
    requires x.Node? && y.Node? && Balanced(a) && Balanced(b) && Balanced(c)
    requires -1 <= q <= 1 && q == Height(c) - Height(b)
    requires var h := 1 + if q < 0 then Height(b) else Height(c); -1 <= p <= 1 && p == h - Height(a)
    ensures var r := Node(a, x.ref, x.key, x.val, p, Node(b, y.ref, y.key, y.val, q, c));
      Balanced(r) && Height(r) == (if p < 0 then 1 + Height(a) else 2 + if q < 0 then Height(b) else Height(c))
  {
    Join(Node(b, y.ref, y.key, y.val, q, c));
    Join(Node(a, x.ref, x.key, x.val, p, Node(b, y.ref, y.key, y.val, q, c)));
  }

  /** Single rotation to the left. */
  lemma Regroup'<R, K, V>(a: Tree<R, K, V>, x: Tree<R, K, V>, b: Tree<R, K, V>, y: Tree<R, K, V>, c: Tree<R, K, V>, p: int, q: int)
    requires x.Node? && y.Node? && Balanced(a) && Balanced(b) && Balanced(c)
    requires -1 <= p <= 1 && p == Height(b) - Height(a)
    requires var h := 1 + if p < 0 then Height(a) else Height(b); -1 <= q <= 1 && q == Height(c) - h
    ensures var r := Node(Node(a, x.ref, x.key, x.val, p, b), y.ref, y.key, y.val, q, c);
      Balanced(r) && Height(r) == (if q < 0 then 2 + if p < 0 then Height(a) else Height(b) else 1 + Height(c))
  {
    Join(Node(a, x.ref, x.key, x.val, p, b));
    Join(Node(Node(a, x.ref, x.key, x.val, p, b), y.ref, y.key, y.val, q, c));
  }

  /** Both double rotations end in this tree: `m`, the inner grandchild, on top.  The balances
      `p` and `q` that the swings leave in its children do not matter. */
  lemma DoubleRotation<R, K, V>(a: Tree<R, K, V>, x: Tree<R, K, V>, p: int, m: Tree<R, K, V>, q: int, y: Tree<R, K, V>, d: Tree<R, K, V>)
    requires x.Node? && y.Node? && m.Node?
    requires Balanced(a) && Balanced(m) && Balanced(d) && Height(a) == Height(d) == Height(m) - 1
    ensures
      var r := Nasty(Node(Node(a, x.ref, x.key, x.val, p, m.left), m.ref, m.key, m.val, m.bal, Node(m.right, y.ref, y.key, y.val, q, d)));
      r.Node? && Balanced(r) && r.bal == 0 && Height(r) == Height(m) + 1
  {
    Unfold(m);
    var l := Node(a, x.ref, x.key, x.val, if m.bal == 1 then -1 else 0, m.left);
    var r := Node(m.right, y.ref, y.key, y.val, if m.bal == -1 then 1 else 0, d);
    Join(l);
    Join(r);
    Join(Node(l, m.ref, m.key, m.val, 0, r));
  }

  // ---------------------------------------------------------------- insertion

  datatype Inserted<R, K, V> = Inserted(tree: Tree<R, K, V>, grew: bool, oldV: Option<V>)

  /** One more level under the root of a balanced tree. */
  lemma NewLeft<R, K, V>(t: Tree<R, K, V>, l: Tree<R, K, V>)
    requires Balanced(t) && t.Node? && t.left.Leaf?
    requires l.Node? && l.left.Leaf? && l.right.Leaf? && l.bal == 0
    ensures var r := t.(left := l, bal := t.bal - 1);
      Balanced(r) && Height(r) == Height(t) + (if t.bal == 0 then 1 else 0) && (t.bal == 0 ==> r.bal != 0)
  {
    Unfold(t);
    Join(t.(left := l, bal := t.bal - 1));
  }

  lemma NewRight<R, K, V>(t: Tree<R, K, V>, r: Tree<R, K, V>)
    requires Balanced(t) && t.Node? && t.right.Leaf?
    requires r.Node? && r.left.Leaf? && r.right.Leaf? && r.bal == 0
    ensures var s := t.(right := r, bal := t.bal + 1);
      Balanced(s) && Height(s) == Height(t) + (if t.bal == 0 then 1 else 0) && (t.bal == 0 ==> s.bal != 0)
  {
    Unfold(t);
    Join(t.(right := r, bal := t.bal + 1));
  }

  lemma NewRoot<R, K, V>(n: R, k: K, v: V)
    ensures var t: Tree<R, K, V> := Leaf; var r: Tree<R, K, V> := Node(Leaf, n, k, v, 0, Leaf);
      Balanced(r) && Height(r) == Height(t) + 1
  {
  }

  lemma NewVal<R, K, V>(t: Tree<R, K, V>, v: V)
    requires Balanced(t) && t.Node?
    ensures Balanced(t.(val := v)) && Height(t.(val := v)) == Height(t)
  {
  }

  /** A subtree takes the place of one of its height. */
  lemma SameHeight<R, K, V>(t: Tree<R, K, V>, l: Tree<R, K, V>, r: Tree<R, K, V>)
    requires Balanced(t) && t.Node? && Balanced(l) && Balanced(r)
    requires Height(l) == Height(t.left) && Height(r) == Height(t.right)
    ensures Balanced(t.(left := l, right := r)) && Height(t.(left := l, right := r)) == Height(t)
  {
    Unfold(t);
    Join(t.(left := l, right := r));
  }

  function Insert<R, K, V>(cmp: (K, K) -> int, t: Tree<R, K, V>, n: R, k: K, v: V): (r: Inserted<R, K, V>)
    requires Balanced(t)
    ensures r.tree.Node? && Balanced(r.tree)
    ensures Height(r.tree) == Height(t) + if r.grew then 1 else 0
    ensures t.Node? && r.grew ==> r.tree.bal != 0
  {
    hide *;
    if t.Leaf? then NewRoot<R, K, V>(n, k, v); Inserted(Node(Leaf, n, k, v, 0, Leaf), true, None)
    else
      Unfold(t);
      if cmp(t.key, k) > 0 then
        if t.left.Leaf? then
          var l := Node(Leaf, n, k, v, 0, Leaf);
          NewLeft(t, l);
          Inserted(t.(left := l, bal := t.bal - 1), t.bal == 0, None)
        else
          var Inserted(l, grew, oldV) := Insert(cmp, t.left, n, k, v);
          if !grew then SameHeight(t, l, t.right); Inserted(t.(left := l), false, oldV)
          else FixLeftGrownOk(t, l); Inserted(FixLeftGrown(t, l), t.bal == 0, oldV)
      else if cmp(t.key, k) < 0 then
        if t.right.Leaf? then
          var r := Node(Leaf, n, k, v, 0, Leaf);
          NewRight(t, r);
          Inserted(t.(right := r, bal := t.bal + 1), t.bal == 0, None)
        else
          var Inserted(r, grew, oldV) := Insert(cmp, t.right, n, k, v);
          if !grew then SameHeight(t, t.left, r); Inserted(t.(right := r), false, oldV)
          else FixRightGrownOk(t, r); Inserted(FixRightGrown(t, r), t.bal == 0, oldV)
      else NewVal(t, v); Inserted(t.(val := v), false, Some(t.val))
  }

  /** The left subtree of `t` has become `l`, one higher than before. */
  function FixLeftGrown<R, K, V>(t: Tree<R, K, V>, l: Tree<R, K, V>): (r: Tree<R, K, V>)
    requires Balanced(t) && t.Node?
    requires Balanced(l) && l.Node? && Height(l) == Height(t.left) + 1 && l.bal != 0
  {
    Unfold(l);
    var t' := t.(left := l, bal := t.bal - 1);
    if t.bal >= 0 then t'
    else if l.bal < 0 then
      var s := Swr(t');
      s.(bal := 0, right := s.right.(bal := 0))
    else Nasty(Swr(t'.(left := Swl(l))))
  }

  function FixRightGrown<R, K, V>(t: Tree<R, K, V>, r: Tree<R, K, V>): (s: Tree<R, K, V>)
    requires Balanced(t) && t.Node?
    requires Balanced(r) && r.Node? && Height(r) == Height(t.right) + 1 && r.bal != 0
  {
    Unfold(r);
    var t' := t.(right := r, bal := t.bal + 1);
    if t.bal <= 0 then t'
    else if r.bal > 0 then
      var s := Swl(t');
      s.(bal := 0, left := s.left.(bal := 0))
    else Nasty(Swl(t'.(right := Swr(r))))
  }

  lemma FixLeftGrownOk<R, K, V>(t: Tree<R, K, V>, l: Tree<R, K, V>)
    requires Balanced(t) && t.Node?
    requires Balanced(l) && l.Node? && Height(l) == Height(t.left) + 1 && l.bal != 0
    ensures var r := FixLeftGrown(t, l);
      r.Node? && Balanced(r) && Height(r) == Height(t) + (if t.bal == 0 then 1 else 0)
      && (t.bal == 0 ==> r.bal != 0)
  {
    hide Balanced, Height, Nasty;
    Unfold(t); Unfold(l);
    if t.bal >= 0 {
      Join(FixLeftGrown(t, l));
    } else if l.bal < 0 {
      Regroup(l.left, l, l.right, t, t.right, 0, 0);
    } else {
      DoubleRotation(l.left, l, l.bal, l.right, t.bal - 1, t, t.right);
    }
  }

  lemma FixRightGrownOk<R, K, V>(t: Tree<R, K, V>, r: Tree<R, K, V>)
    requires Balanced(t) && t.Node?
    requires Balanced(r) && r.Node? && Height(r) == Height(t.right) + 1 && r.bal != 0
    ensures var s := FixRightGrown(t, r);
      s.Node? && Balanced(s) && Height(s) == Height(t) + (if t.bal == 0 then 1 else 0)
      && (t.bal == 0 ==> s.bal != 0)
  {
    hide Balanced, Height, Nasty;
    Unfold(t); Unfold(r);
    if t.bal <= 0 {
      Join(FixRightGrown(t, r));
    } else if r.bal > 0 {
      Regroup'(t.left, t, r.left, r, r.right, 0, 0);
    } else {
      DoubleRotation(t.left, t, t.bal + 1, r.left, r.bal, r, r.right);
    }
  }

  // ---------------------------------------------------------------- removal

  datatype Removed<R, K, V> = Removed(tree: Tree<R, K, V>, shrunk: bool)

  function MinNode<R, K, V>(t: Tree<R, K, V>): (r: Tree<R, K, V>)
    requires t.Node?
    ensures r.Node? && Entries(t) != [] && (r.key, r.val) == Entries(t)[0]
  {
    if t.left.Leaf? then t else MinNode(t.left)
  }

  function MaxNode<R, K, V>(t: Tree<R, K, V>): (r: Tree<R, K, V>)
    requires t.Node?
    ensures r.Node? && Entries(t) != [] && (r.key, r.val) == Entries(t)[|Entries(t)| - 1]
  {
    if t.right.Leaf? then t else MaxNode(t.right)
  }

  ghost predicate SameTop<R, K, V>(s: Tree<R, K, V>, t: Tree<R, K, V>)
    requires t.Node?
  {
    s.Node? && s.ref == t.ref && s.key == t.key && s.val == t.val
  }

  /** The left subtree of `t` has become `l`, one lower than before. */
  function FixLeftShrunk<R, K, V>(t: Tree<R, K, V>, l: Tree<R, K, V>): (r: Removed<R, K, V>)
    requires Balanced(t) && t.Node?
    requires Balanced(l) && Height(l) == Height(t.left) - 1
  {
    Unfold(t);
    var t' := t.(left := l, bal := t.bal + 1);
    if t.bal == -1 then Removed(t', true)
    else if t.bal == 0 then Removed(t', false)
    else
      Unfold(t.right);
      var s := Swl(t');
      if t.right.bal == 0 then Removed(s.(bal := -1, left := s.left.(bal := 1)), false)
      else if t.right.bal == 1 then Removed(s.(bal := 0, left := s.left.(bal := 0)), true)
      else Removed(Nasty(Swl(t'.(right := Swr(t.right)))), true)
  }

  function FixRightShrunk<R, K, V>(t: Tree<R, K, V>, r: Tree<R, K, V>): (s: Removed<R, K, V>)
    requires Balanced(t) && t.Node?
    requires Balanced(r) && Height(r) == Height(t.right) - 1
  {
    Unfold(t);
    var t' := t.(right := r, bal := t.bal - 1);
    if t.bal == 1 then Removed(t', true)
    else if t.bal == 0 then Removed(t', false)
    else
      Unfold(t.left);
      var s := Swr(t');
      if t.left.bal == 0 then Removed(s.(bal := 1, right := s.right.(bal := -1)), false)
      else if t.left.bal == -1 then Removed(s.(bal := 0, right := s.right.(bal := 0)), true)
      else Removed(Nasty(Swr(t'.(left := Swl(t.left)))), true)
  }

  lemma LeftShrunkDouble<R, K, V>(t: Tree<R, K, V>, l: Tree<R, K, V>)
    requires Balanced(t) && t.Node? && Balanced(l) && Height(l) == Height(t.left) - 1
    requires t.bal == 1 && t.right.Node? && t.right.left.Node? && t.right.bal == -1
    ensures var r, m := t.right, t.right.left;
      FixLeftShrunk(t, l) == Removed(
        Nasty(Node(Node(l, t.ref, t.key, t.val, 2, m.left), m.ref, m.key, m.val, m.bal, Node(m.right, r.ref, r.key, r.val, -1, r.right))), true)
  {
  }

  lemma RightShrunkDouble<R, K, V>(t: Tree<R, K, V>, r: Tree<R, K, V>)
    requires Balanced(t) && t.Node? && Balanced(r) && Height(r) == Height(t.right) - 1
    requires t.bal == -1 && t.left.Node? && t.left.right.Node? && t.left.bal == 1
    ensures var l, m := t.left, t.left.right;
      FixRightShrunk(t, r) == Removed(
        Nasty(Node(Node(l.left, l.ref, l.key, l.val, 1, m.left), m.ref, m.key, m.val, m.bal, Node(m.right, t.ref, t.key, t.val, -2, r))), true)
  {
  }

  lemma FixLeftShrunkOk<R, K, V>(t: Tree<R, K, V>, l: Tree<R, K, V>)
    requires Balanced(t) && t.Node?
    requires Balanced(l) && Height(l) == Height(t.left) - 1
    ensures var r := FixLeftShrunk(t, l);
      && r.tree.Node? && Balanced(r.tree) && Height(r.tree) == Height(t) - (if r.shrunk then 1 else 0)
      && (r.shrunk ==> r.tree.bal == 0)
      && (t.bal <= 0 ==> SameTop(r.tree, t))
  {
    Unfold(t);
    var r := t.right;
    if t.bal <= 0 {
      Join(FixLeftShrunk(t, l).tree);
    } else {
      Unfold(r);
      if r.bal == -1 {
        DoubleRotation(l, t, 2, r.left, -1, r, r.right);
        LeftShrunkDouble(t, l);
      } else if r.bal == 0 {
        Regroup'(l, t, r.left, r, r.right, 1, -1);
      } else {
        Regroup'(l, t, r.left, r, r.right, 0, 0);
      }
    }
  }

  lemma FixRightShrunkOk<R, K, V>(t: Tree<R, K, V>, r: Tree<R, K, V>)
    requires Balanced(t) && t.Node?
    requires Balanced(r) && Height(r) == Height(t.right) - 1
    ensures var s := FixRightShrunk(t, r);
      && s.tree.Node? && Balanced(s.tree) && Height(s.tree) == Height(t) - (if s.shrunk then 1 else 0)
      && (s.shrunk ==> s.tree.bal == 0)
      && (t.bal >= 0 ==> SameTop(s.tree, t))
  {
    Unfold(t);
    var l := t.left;
    if t.bal >= 0 {
      Join(FixRightShrunk(t, r).tree);
    } else {
      Unfold(l);
      if l.bal == 1 {
        DoubleRotation(l.left, l, 1, l.right, -2, t, r);
        RightShrunkDouble(t, r);
      } else if l.bal == 0 {
        Regroup(l.left, l, l.right, t, r, 1, -1);
      } else {
        Regroup(l.left, l, l.right, t, r, 0, 0);
      }
    }
  }

  /** The node holding `k`. */
  function FindRef<R, K, V>(cmp: (K, K) -> int, t: Tree<R, K, V>, k: K): Option<R> {
    if t.Leaf? then None
    else if cmp(t.key, k) > 0 then FindRef(cmp, t.left, k)
    else if cmp(t.key, k) < 0 then FindRef(cmp, t.right, k)
    else Some(t.ref)
  }

  lemma DescendTo<R, K(!new), V>(cmp: (K, K) -> int, t: Tree<R, K, V>, k: K)
    requires TotalOrder(cmp) && Ordered(cmp, t) && HasKey(Entries(t), k)
    ensures t.Node? && Ordered(cmp, t.left) && Ordered(cmp, t.right)
    ensures cmp(t.key, k) > 0 ==> HasKey(Entries(t.left), k)
    ensures cmp(t.key, k) < 0 ==> HasKey(Entries(t.right), k)
  {
    Descend(cmp, t);
    var e :| e in Entries(t) && e.0 == k;
  }

  /** What the removal of a node from the left subtree makes of a tree. */
  lemma LeftRemoved<R, K, V>(t: Tree<R, K, V>, l: Tree<R, K, V>, shrunk: bool)
    requires Balanced(t) && t.Node? && Balanced(l) && Height(l) == Height(t.left) - if shrunk then 1 else 0
    ensures var r := if shrunk then FixLeftShrunk(t, l) else Removed(t.(left := l), false);
      && r.tree.Node? && Balanced(r.tree) && Height(r.tree) == Height(t) - (if r.shrunk then 1 else 0)
      && (r.shrunk ==> r.tree.bal == 0)
      && (t.bal <= 0 ==> SameTop(r.tree, t))
  {
    hide Height, Balanced;
    if shrunk {
      FixLeftShrunkOk(t, l);
    } else {
      Unfold(t);
      SameHeight(t, l, t.right);
    }
  }

  lemma RightRemoved<R, K, V>(t: Tree<R, K, V>, r: Tree<R, K, V>, shrunk: bool)
    requires Balanced(t) && t.Node? && Balanced(r) && Height(r) == Height(t.right) - if shrunk then 1 else 0
    ensures var s := if shrunk then FixRightShrunk(t, r) else Removed(t.(right := r), false);
      && s.tree.Node? && Balanced(s.tree) && Height(s.tree) == Height(t) - (if s.shrunk then 1 else 0)
      && (s.shrunk ==> s.tree.bal == 0)
      && (t.bal >= 0 ==> SameTop(s.tree, t))
  {
    hide Height, Balanced;
    if shrunk {
      FixRightShrunkOk(t, r);
    } else {
      Unfold(t);
      SameHeight(t, t.left, r);
    }
  }

  /** Removes the node holding `k`, which must be in the tree. */
  function Remove<R, K(!new), V>(cmp: (K, K) -> int, t: Tree<R, K, V>, k: K): (r: Removed<R, K, V>)
    requires TotalOrder(cmp) && Ordered(cmp, t) && Balanced(t) && HasKey(Entries(t), k)
    ensures Balanced(r.tree)
    ensures Height(r.tree) == Height(t) - if r.shrunk then 1 else 0
    ensures cmp(t.key, k) > 0 && t.bal <= 0 ==> SameTop(r.tree, t)
    ensures cmp(t.key, k) < 0 && t.bal >= 0 ==> SameTop(r.tree, t)
    ensures r.shrunk && r.tree.Node? && t.left.Node? && t.right.Node? ==> r.tree.bal == 0
    decreases t, 1
  {
    hide *;
    DescendTo(cmp, t, k);
    Unfold(t);
    if cmp(t.key, k) > 0 then
      var Removed(l, ch) := Remove(cmp, t.left, k);
      LeftRemoved(t, l, ch);
      if ch then FixLeftShrunk(t, l) else Removed(t.(left := l), false)
    else if cmp(t.key, k) < 0 then
      var Removed(r, ch) := Remove(cmp, t.right, k);
      RightRemoved(t, r, ch);
      if ch then FixRightShrunk(t, r) else Removed(t.(right := r), false)
    else RemoveRoot(cmp, t)
  }

  /** Removes the root: a one-sided root is spliced out, and otherwise the neighbouring
      node on the higher side is removed below and takes the root's place. */
  function RemoveRoot<R, K(!new), V>(cmp: (K, K) -> int, t: Tree<R, K, V>): (r: Removed<R, K, V>)
    requires TotalOrder(cmp) && Ordered(cmp, t) && Balanced(t) && t.Node?
    ensures Balanced(r.tree)
    ensures Height(r.tree) == Height(t) - if r.shrunk then 1 else 0
    ensures r.shrunk && r.tree.Node? && t.left.Node? && t.right.Node? ==> r.tree.bal == 0
    decreases t, 0
  {
    hide *;
    Descend(cmp, t);
    Unfold(t);
    if t.left.Leaf? then OneSided(t); Removed(t.right, true)
    else if t.right.Leaf? then OneSided(t); Removed(t.left, true)
    else if t.bal < 0 then
      var a := MaxNode(t.left);
      AnyKey(t.left, a);
      var Removed(l, ch) := Remove(cmp, t.left, a.key);
      LeftRemoved(t, l, ch);
      var t' := if ch then FixLeftShrunk(t, l) else Removed(t.(left := l), false);
      NewBinding(t'.tree, a.ref, a.key, a.val);
      Removed(t'.tree.(ref := a.ref, key := a.key, val := a.val), t'.tree.bal == 0 && t'.shrunk)
    else
      var a := MinNode(t.right);
      AnyKey(t.right, a);
      var Removed(r, ch) := Remove(cmp, t.right, a.key);
      RightRemoved(t, r, ch);
      var t' := if ch then FixRightShrunk(t, r) else Removed(t.(right := r), false);
      NewBinding(t'.tree, a.ref, a.key, a.val);
      Removed(t'.tree.(ref := a.ref, key := a.key, val := a.val), t'.tree.bal == 0 && t'.shrunk)
  }

  lemma OneSided<R, K, V>(t: Tree<R, K, V>)
    requires Balanced(t) && t.Node?
    ensures t.left.Leaf? ==> Height(t) == Height(t.right) + 1
    ensures t.right.Leaf? ==> Height(t) == Height(t.left) + 1
  {
  }

  lemma AnyKey<R, K, V>(t: Tree<R, K, V>, a: Tree<R, K, V>)
    requires a.Node? && (a.key, a.val) in Entries(t)
    ensures HasKey(Entries(t), a.key)
  {
  }

  lemma NewBinding<R, K, V>(t: Tree<R, K, V>, ref: R, k: K, v: V)
    requires Balanced(t) && t.Node?
    ensures var r := t.(ref := ref, key := k, val := v); Balanced(r) && Height(r) == Height(t)
  {
  }
}
