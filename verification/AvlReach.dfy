/**
 Which search trees insertions can lead to: all balanced ones.  The bindings of a tree, inserted level by level, never
 cause a rotation, and give the tree itself.
*/
module AvlReach {
  import opened Common
  import opened AvlTree
  import opened AvlMap

  /** What is inserted: a node, its key and its value. */
  datatype Item<R, K, V> = Item(ref: R, key: K, val: V)

  /** A node with the balance that its subtrees have. */
  function Make<R, K, V>(l: Tree<R, K, V>, x: Item<R, K, V>, r: Tree<R, K, V>): Tree<R, K, V> {
    Node(l, x.ref, x.key, x.val, Height(r) - Height(l), r)
  }

  function Top<R, K, V>(t: Tree<R, K, V>): Item<R, K, V>
    requires t.Node?
  {
    Item(t.ref, t.key, t.val)
  }

  function InsertAll<R, K, V>(cmp: (K, K) -> int, t: Tree<R, K, V>, xs: seq<Item<R, K, V>>): (r: Tree<R, K, V>)
    requires Balanced(t)
    ensures Balanced(r) && Height(t) <= Height(r)
    decreases |xs|
  {
    hide *;
    if xs == [] then t else InsertAll(cmp, Insert(cmp, t, xs[0].ref, xs[0].key, xs[0].val).tree, xs[1..])
  }

  lemma {:induction false} InsertAppend<R, K, V>(cmp: (K, K) -> int, t: Tree<R, K, V>, xs: seq<Item<R, K, V>>, ys: seq<Item<R, K, V>>)
    requires Balanced(t)
    ensures InsertAll(cmp, t, xs + ys) == InsertAll(cmp, InsertAll(cmp, t, xs), ys)
    decreases |xs|
  {
    hide Balanced, Height, Insert;
    if xs == [] {
      assert xs + ys == ys;
    } else {
      assert (xs + ys)[0] == xs[0] && (xs + ys)[1..] == xs[1..] + ys;
      InsertAppend(cmp, Insert(cmp, t, xs[0].ref, xs[0].key, xs[0].val).tree, xs[1..], ys);
    }
  }

  /** An insertion on the left, as long as that side does not become two higher than the other. */
  lemma InsertOnLeft<R, K, V>(cmp: (K, K) -> int, l: Tree<R, K, V>, x: Item<R, K, V>, r: Tree<R, K, V>, y: Item<R, K, V>)
    requires Balanced(Make(l, x, r)) && Balanced(l) && cmp(x.key, y.key) > 0
    requires Height(Insert(cmp, l, y.ref, y.key, y.val).tree) <= Height(r) + 1
    ensures Insert(cmp, Make(l, x, r), y.ref, y.key, y.val).tree == Make(Insert(cmp, l, y.ref, y.key, y.val).tree, x, r)
  {
    assert Height<R, K, V>(Leaf) == 0;
    NewRoot<R, K, V>(y.ref, y.key, y.val);
    hide Height, Balanced;
  }

  lemma InsertOnRight<R, K, V>(cmp: (K, K) -> int, l: Tree<R, K, V>, x: Item<R, K, V>, r: Tree<R, K, V>, y: Item<R, K, V>)
    requires Balanced(Make(l, x, r)) && Balanced(r) && cmp(x.key, y.key) < 0
    requires Height(Insert(cmp, r, y.ref, y.key, y.val).tree) <= Height(l) + 1
    ensures Insert(cmp, Make(l, x, r), y.ref, y.key, y.val).tree == Make(l, x, Insert(cmp, r, y.ref, y.key, y.val).tree)
  {
    assert Height<R, K, V>(Leaf) == 0;
    NewRoot<R, K, V>(y.ref, y.key, y.val);
    hide Height, Balanced;
  }

  lemma {:induction false} AllOnLeft<R, K, V>(cmp: (K, K) -> int, l: Tree<R, K, V>, x: Item<R, K, V>, r: Tree<R, K, V>, ys: seq<Item<R, K, V>>)
    requires Balanced(Make(l, x, r)) && Balanced(l) && forall y :: y in ys ==> cmp(x.key, y.key) > 0
    requires Height(InsertAll(cmp, l, ys)) <= Height(r) + 1
    ensures InsertAll(cmp, Make(l, x, r), ys) == Make(InsertAll(cmp, l, ys), x, r)
    decreases |ys|
  {
    hide Balanced, Height, Insert, Make;
    if ys != [] {
      var y := ys[0];
      var l' := Insert(cmp, l, y.ref, y.key, y.val).tree;
      InsertOnLeft(cmp, l, x, r, y);
      AllOnLeft(cmp, l', x, r, ys[1..]);
    }
  }

  lemma {:induction false} AllOnRight<R, K, V>(cmp: (K, K) -> int, l: Tree<R, K, V>, x: Item<R, K, V>, r: Tree<R, K, V>, ys: seq<Item<R, K, V>>)
    requires Balanced(Make(l, x, r)) && Balanced(r) && forall y :: y in ys ==> cmp(x.key, y.key) < 0
    requires Height(InsertAll(cmp, r, ys)) <= Height(l) + 1
    ensures InsertAll(cmp, Make(l, x, r), ys) == Make(l, x, InsertAll(cmp, r, ys))
    decreases |ys|
  {
    hide Balanced, Height, Insert, Make;
    if ys != [] {
      var y := ys[0];
      var r' := Insert(cmp, r, y.ref, y.key, y.val).tree;
      InsertOnRight(cmp, l, x, r, y);
      AllOnRight(cmp, l, x, r', ys[1..]);
    }
  }

  // ---------------------------------------------------------------- level by level

  /** The first `d` levels of a tree. */
  function Upper<R, K, V>(t: Tree<R, K, V>, d: nat): Tree<R, K, V> {
    if t.Leaf? || d == 0 then Leaf else Make(Upper(t.left, d - 1), Top(t), Upper(t.right, d - 1))
  }

  /** Level `d`, from left to right. */
  function Level<R, K, V>(t: Tree<R, K, V>, d: nat): seq<Item<R, K, V>> {
    if t.Leaf? then [] else if d == 0 then [Top(t)] else Level(t.left, d - 1) + Level(t.right, d - 1)
  }

  function Levels<R, K, V>(t: Tree<R, K, V>, d: nat): seq<Item<R, K, V>> {
    if d == 0 then [] else Levels(t, d - 1) + Level(t, d - 1)
  }

  lemma {:induction false} UpperOk<R, K, V>(t: Tree<R, K, V>, d: nat)
    requires Balanced(t)
    ensures Balanced(Upper(t, d)) && Height(Upper(t, d)) == if Height(t) < d then Height(t) else d
    ensures Height(t) <= d ==> Upper(t, d) == t
  {
    hide *;
    NoTree<R, K, V>();
    UpperNode(t, d);
    if t.Node? {
      Unfold(t);
      if d > 0 {
        UpperOk(t.left, d - 1);
        UpperOk(t.right, d - 1);
        Join(Upper(t, d));
      }
    }
  }

  lemma NoTree<R, K, V>()
    ensures var t: Tree<R, K, V> := Leaf; Balanced(t) && Height(t) == 0
  {
  }

  /** The levels of a node and those of its sides. */
  lemma UpperNode<R, K, V>(t: Tree<R, K, V>, d: nat)
    ensures t.Leaf? || d == 0 ==> Upper(t, d) == Leaf
    ensures t.Leaf? ==> Level(t, d) == []
    ensures t.Node? && d > 0 ==>
      var l, r := Upper(t.left, d - 1), Upper(t.right, d - 1);
      && Upper(t, d) == Make(l, Top(t), r) == Node(l, t.ref, t.key, t.val, Height(r) - Height(l), r)
      && Level(t, d) == Level(t.left, d - 1) + Level(t.right, d - 1) && Top(t).key == t.key
  {
    hide Height;
  }

  lemma {:induction false} LevelKeys<R, K, V>(t: Tree<R, K, V>, d: nat, x: Item<R, K, V>)
    requires x in Level(t, d)
    ensures (x.key, x.val) in Entries(t)
  {
    if d > 0 {
      if x in Level(t.left, d - 1) {
        LevelKeys(t.left, d - 1, x);
      } else {
        LevelKeys(t.right, d - 1, x);
      }
    }
  }

  lemma LevelSides<R, K(!new), V>(cmp: (K, K) -> int, t: Tree<R, K, V>, d: nat)
    requires TotalOrder(cmp) && Ordered(cmp, t) && t.Node?
    ensures Ordered(cmp, t.left) && Ordered(cmp, t.right)
    ensures forall x :: x in Level(t.left, d) ==> cmp(t.key, x.key) > 0
    ensures forall x :: x in Level(t.right, d) ==> cmp(t.key, x.key) < 0
  {
    Descend(cmp, t);
    hide Ordered, TotalOrder, Level, Entries;
    forall x | x in Level(t.left, d) ensures cmp(t.key, x.key) > 0 {
      LevelKeys(t.left, d, x);
    }
    forall x | x in Level(t.right, d) ensures cmp(t.key, x.key) < 0 {
      LevelKeys(t.right, d, x);
    }
  }

  /** Inserting one level below those that are there. */
  lemma {:induction false} NextLevel<R, K(!new), V>(cmp: (K, K) -> int, t: Tree<R, K, V>, d: nat)
    requires TotalOrder(cmp) && Ordered(cmp, t) && Balanced(t)
    ensures Balanced(Upper(t, d)) && InsertAll(cmp, Upper(t, d), Level(t, d)) == Upper(t, d + 1)
  {
    hide *;
    UpperOk(t, d);
    UpperNode(t, d);
    UpperNode(t, d + 1);
    if t.Leaf? {
      InsertNone(cmp, t);
    } else if d == 0 {
      FirstLevel(cmp, t);
    } else {
      LevelSides(cmp, t, d - 1);
      Unfold(t);
      UpperOk(t.left, d);
      UpperOk(t.right, d);
      UpperOk(t.left, d - 1);
      UpperOk(t.right, d - 1);
      NextLevel(cmp, t.left, d - 1);
      NextLevel(cmp, t.right, d - 1);
      var x, l, r := Top(t), Level(t.left, d - 1), Level(t.right, d - 1);
      InsertAppend(cmp, Upper(t, d), l, r);
      AllOnLeft(cmp, Upper(t.left, d - 1), x, Upper(t.right, d - 1), l);
      AllOnRight(cmp, Upper(t.left, d), x, Upper(t.right, d - 1), r);
    }
  }

  lemma InsertNone<R, K, V>(cmp: (K, K) -> int, t: Tree<R, K, V>)
    requires Balanced(t)
    ensures InsertAll(cmp, t, []) == t
  {
  }

  lemma FirstLevel<R, K, V>(cmp: (K, K) -> int, t: Tree<R, K, V>)
    requires t.Node?
    ensures InsertAll(cmp, Upper(t, 0), Level(t, 0)) == Upper(t, 1)
  {
    assert Upper(t.left, 0) == Leaf && Upper(t.right, 0) == Leaf;
    assert InsertAll(cmp, Make(Leaf, Top(t), Leaf), []) == Make(Leaf, Top(t), Leaf);
  }

  lemma {:induction false} LevelsInTurn<R, K(!new), V>(cmp: (K, K) -> int, t: Tree<R, K, V>, d: nat)
    requires TotalOrder(cmp) && Ordered(cmp, t) && Balanced(t)
    ensures InsertAll(cmp, Leaf, Levels(t, d)) == Upper(t, d)
  {
    hide *;
    NoTree<R, K, V>();
    UpperNode(t, 0);
    LevelsStep(t, d);
    if d > 0 {
      LevelsInTurn(cmp, t, d - 1);
      NextLevel(cmp, t, d - 1);
      InsertAppend(cmp, Leaf, Levels(t, d - 1), Level(t, d - 1));
    } else {
      InsertNone<R, K, V>(cmp, Leaf);
    }
  }

  lemma LevelsStep<R, K, V>(t: Tree<R, K, V>, d: nat)
    ensures Levels(t, d) == if d == 0 then [] else Levels(t, d - 1) + Level(t, d - 1)
  {
  }

  /** Every balanced search tree is what inserting its own bindings level by level makes of the empty tree. */
  lemma AllReached<R, K(!new), V>(cmp: (K, K) -> int, t: Tree<R, K, V>)
    requires TotalOrder(cmp) && Ordered(cmp, t) && Balanced(t)
    ensures InsertAll(cmp, Leaf, Levels(t, Height(t))) == t
  {
    hide *;
    LevelsInTurn(cmp, t, Height(t));
    UpperOk(t, Height(t));
  }

  lemma {:induction false} InsertedOrdered<R, K(!new), V>(cmp: (K, K) -> int, t: Tree<R, K, V>, xs: seq<Item<R, K, V>>)
    requires TotalOrder(cmp) && Ordered(cmp, t) && Balanced(t)
    ensures Ordered(cmp, InsertAll(cmp, t, xs))
    decreases |xs|
  {
    hide TotalOrder, Balanced, Height, Insert;
    if xs != [] {
      var x := xs[0];
      InsertIsPut(cmp, t, x.ref, x.key, x.val);
      PutSorted(cmp, Entries(t), x.key, x.val);
      InsertedOrdered(cmp, Insert(cmp, t, x.ref, x.key, x.val).tree, xs[1..]);
    }
  }

  /** Insertions into the empty tree lead to the balanced search trees and to no others. */
  lemma ReachedExactly<R, K(!new), V>(cmp: (K, K) -> int, t: Tree<R, K, V>)
    requires TotalOrder(cmp)
    ensures (exists xs :: InsertAll(cmp, Leaf, xs) == t) <==> Ordered(cmp, t) && Balanced(t)
  {
    assert Ordered<R, K, V>(cmp, Leaf);
    hide *;
    NoTree<R, K, V>();
    if xs :| InsertAll(cmp, Leaf, xs) == t {
      InsertedOrdered(cmp, Leaf, xs);
    } else if Ordered(cmp, t) && Balanced(t) {
      AllReached(cmp, t);
    }
  }

  // ---------------------------------------------------------------- which nodes do not matter

  /** The tree without its nodes. */
  function Bare<R, K, V>(t: Tree<R, K, V>): Tree<(), K, V> {
    if t.Leaf? then Leaf else Node(Bare(t.left), (), t.key, t.val, t.bal, Bare(t.right))
  }

  lemma {:induction false} BareSame<R, K, V>(t: Tree<R, K, V>)
    ensures Height(Bare(t)) == Height(t) && Entries(Bare(t)) == Entries(t) && (Balanced(Bare(t)) <==> Balanced(t))
  {
    if t.Node? {
      BareSame(t.left);
      BareSame(t.right);
    }
  }

  lemma BareNode<R, K, V>(t: Tree<R, K, V>)
    requires t.Node?
    ensures Bare(t) == Node(Bare(t.left), (), t.key, t.val, t.bal, Bare(t.right))
    ensures (Bare(t.left).Node? <==> t.left.Node?) && (Bare(t.right).Node? <==> t.right.Node?)
  {
  }

  lemma BareSwl<R, K, V>(t: Tree<R, K, V>)
    requires t.Node? && t.right.Node?
    ensures Bare(t).Node? && Bare(t).right.Node? && Bare(Swl(t)) == Swl(Bare(t))
  {
    hide Bare;
    BareNode(t);
    BareNode(t.right);
    BareNode(t.(right := t.right.left));
    BareNode(Swl(t));
  }

  lemma BareSwr<R, K, V>(t: Tree<R, K, V>)
    requires t.Node? && t.left.Node?
    ensures Bare(t).Node? && Bare(t).left.Node? && Bare(Swr(t)) == Swr(Bare(t))
  {
    hide Bare;
    BareNode(t);
    BareNode(t.left);
    BareNode(t.(left := t.left.right));
    BareNode(Swr(t));
  }

  lemma BareSetBal<R, K, V>(t: Tree<R, K, V>, p: int, b: int, q: int)
    requires t.Node? && t.left.Node? && t.right.Node?
    ensures Bare(t).Node? && Bare(t).left.Node? && Bare(t).right.Node? && Bare(t).bal == t.bal
    ensures Bare(SetBal(t, p, b, q)) == SetBal(Bare(t), p, b, q)
  {
    hide Bare;
    BareNode(t);
    BareNode(t.left);
    BareNode(t.right);
    BareNode(t.left.(bal := p));
    BareNode(t.right.(bal := q));
    BareNode(SetBal(t, p, b, q));
  }

  lemma BareNasty<R, K, V>(t: Tree<R, K, V>)
    requires t.Node? && t.left.Node? && t.right.Node?
    ensures Bare(t).Node? && Bare(t).left.Node? && Bare(t).right.Node? && Bare(Nasty(t)) == Nasty(Bare(t))
  {
    hide Bare, SetBal;
    BareSetBal(t, 0, 0, 1);
    BareSetBal(t, -1, 0, 0);
    BareSetBal(t, 0, 0, 0);
  }

  lemma BareLeftGrown<R, K, V>(t: Tree<R, K, V>, l: Tree<R, K, V>)
    requires Balanced(t) && t.Node? && Balanced(l) && l.Node? && Height(l) == Height(t.left) + 1 && l.bal != 0
    ensures Balanced(Bare(t)) && Balanced(Bare(l)) && Height(Bare(l)) == Height(Bare(t).left) + 1
    ensures Bare(FixLeftGrown(t, l)) == FixLeftGrown(Bare(t), Bare(l))
  {
    BareSame(t);
    BareSame(l);
    BareSame(t.left);
    Unfold(l);
    hide Height, Balanced, Entries, Nasty;
    var t' := t.(left := l, bal := t.bal - 1);
    if t.bal < 0 && l.bal > 0 {
      BareSwl(l);
      BareSwr(t'.(left := Swl(l)));
      BareNasty(Swr(t'.(left := Swl(l))));
    }
  }

  lemma BareRightGrown<R, K, V>(t: Tree<R, K, V>, r: Tree<R, K, V>)
    requires Balanced(t) && t.Node? && Balanced(r) && r.Node? && Height(r) == Height(t.right) + 1 && r.bal != 0
    ensures Balanced(Bare(t)) && Balanced(Bare(r)) && Height(Bare(r)) == Height(Bare(t).right) + 1
    ensures Bare(FixRightGrown(t, r)) == FixRightGrown(Bare(t), Bare(r))
  {
    BareSame(t);
    BareSame(r);
    BareSame(t.right);
    Unfold(r);
    hide Height, Balanced, Entries, Nasty;
    var t' := t.(right := r, bal := t.bal + 1);
    if t.bal > 0 && r.bal < 0 {
      BareSwr(r);
      BareSwl(t'.(right := Swr(r)));
      BareNasty(Swl(t'.(right := Swr(r))));
    }
  }

  lemma {:induction false} BareInsert<R, K, V>(cmp: (K, K) -> int, t: Tree<R, K, V>, n: R, k: K, v: V)
    requires Balanced(t)
    ensures Balanced(Bare(t))
    ensures var i, b := Insert(cmp, t, n, k, v), Insert(cmp, Bare(t), (), k, v); b.tree == Bare(i.tree) && b.grew == i.grew
  {
    BareSame(t);
    if t.Node? {
      Unfold(t);
      hide Height, Balanced, FixLeftGrown, FixRightGrown;
      if cmp(t.key, k) > 0 {
        BareInsert(cmp, t.left, n, k, v);
        var i := Insert(cmp, t.left, n, k, v);
        if t.left.Node? && i.grew {
          BareLeftGrown(t, i.tree);
        }
      } else if cmp(t.key, k) < 0 {
        BareInsert(cmp, t.right, n, k, v);
        var i := Insert(cmp, t.right, n, k, v);
        if t.right.Node? && i.grew {
          BareRightGrown(t, i.tree);
        }
      }
    }
  }
}
