/**
 What a WordFM search tree means: the sorted list of its bindings and the finite map of
 that list.  Insertion is `Put`, removal is `Del`, and both are the map operations; a
 balanced tree of height h holds at least F(h + 2) - 1 bindings.
*/
module AvlMap {
  import opened Common
  import opened AvlTree

  // ---------------------------------------------------------------- the sorted list a tree stands for

  /** `s` with `k` bound to `v`, at its place in the order. */
  function Put<K, V>(cmp: (K, K) -> int, s: seq<(K, V)>, k: K, v: V): seq<(K, V)> {
    if s == [] then [(k, v)]
    else if cmp(s[0].0, k) < 0 then [s[0]] + Put(cmp, s[1..], k, v)
    else if cmp(s[0].0, k) == 0 then [(s[0].0, v)] + s[1..]
    else [(k, v)] + s
  }

  /** `s` without its first binding of `k`. */
  function Del<K, V>(cmp: (K, K) -> int, s: seq<(K, V)>, k: K): seq<(K, V)> {
    if s == [] then []
    else if cmp(s[0].0, k) == 0 then s[1..]
    else [s[0]] + Del(cmp, s[1..], k)
  }

  function Lookup<K, V>(cmp: (K, K) -> int, s: seq<(K, V)>, k: K): Option<V> {
    if s == [] then None
    else if cmp(s[0].0, k) == 0 then Some(s[0].1)
    else Lookup(cmp, s[1..], k)
  }

  lemma Recons<T>(a: seq<T>, b: seq<T>)
    requires a != []
    ensures [a[0]] + (a[1..] + b) == a + b
  {
  }

  lemma {:induction false} PassOver<K(!new), V>(cmp: (K, K) -> int, a: seq<(K, V)>, b: seq<(K, V)>, k: K, v: V)
    requires forall e :: e in a ==> cmp(e.0, k) < 0
    ensures Put(cmp, a + b, k, v) == a + Put(cmp, b, k, v)
    ensures Del(cmp, a + b, k) == a + Del(cmp, b, k)
    ensures Lookup(cmp, a + b, k) == Lookup(cmp, b, k)
  {
    if a == [] {
      assert a + b == b;
    } else {
      assert a[0] in a && forall e :: e in a[1..] ==> e in a;
      assert (a + b)[1..] == a[1..] + b;
      PassOver(cmp, a[1..], b, k, v);
      assert (a + b)[0] == a[0] && cmp(a[0].0, k) < 0;
      Recons(a, Put(cmp, b, k, v));
      Recons(a, Del(cmp, b, k));
    }
  }

  lemma {:induction false} StopBefore<K, V>(cmp: (K, K) -> int, a: seq<(K, V)>, x: (K, V), b: seq<(K, V)>, k: K, v: V)
    requires cmp(x.0, k) > 0
    ensures Put(cmp, a + [x] + b, k, v) == Put(cmp, a, k, v) + [x] + b
  {
    var s := a + [x] + b;
    if a == [] {
      assert s == [x] + b;
    } else {
      assert s[0] == a[0] && s[1..] == a[1..] + [x] + b;
      StopBefore(cmp, a[1..], x, b, k, v);
    }
  }

  lemma {:induction false} DelBefore<K(!new), V>(cmp: (K, K) -> int, a: seq<(K, V)>, x: (K, V), b: seq<(K, V)>, k: K)
    requires TotalOrder(cmp) && HasKey(a, k)
    ensures Del(cmp, a + [x] + b, k) == Del(cmp, a, k) + [x] + b
  {
    var s := a + [x] + b;
    assert s[0] == a[0] && s[1..] == a[1..] + [x] + b;
    HasKeyTail(a, k);
    if cmp(a[0].0, k) != 0 {
      DelBefore(cmp, a[1..], x, b, k);
      assert [a[0]] + (Del(cmp, a[1..], k) + [x] + b) == [a[0]] + Del(cmp, a[1..], k) + [x] + b;
    }
  }

  lemma {:induction false} LookupBefore<K, V>(cmp: (K, K) -> int, a: seq<(K, V)>, b: seq<(K, V)>, k: K)
    requires forall e :: e in b ==> cmp(e.0, k) > 0
    ensures Lookup(cmp, a + b, k) == Lookup(cmp, a, k)
  {
    if a == [] {
      assert a + b == b;
      LookupNone(cmp, b, k);
    } else {
      assert (a + b)[1..] == a[1..] + b;
      LookupBefore(cmp, a[1..], b, k);
    }
  }

  lemma HasKeyTail<K, V>(s: seq<(K, V)>, k: K)
    requires s != []
    ensures HasKey(s, k) <==> s[0].0 == k || HasKey(s[1..], k)
  {
    assert s == [s[0]] + s[1..];
    assert forall e :: e in s <==> e == s[0] || e in s[1..];
  }

  lemma {:induction false} LookupNone<K, V>(cmp: (K, K) -> int, s: seq<(K, V)>, k: K)
    requires forall e :: e in s ==> cmp(e.0, k) > 0
    ensures Lookup(cmp, s, k) == None
  {
    if s != [] {
      assert forall e :: e in s[1..] ==> e in s;
      LookupNone(cmp, s[1..], k);
    }
  }

  lemma Reassociate<T>(a: seq<T>, x: seq<T>, b: seq<T>, y: seq<T>, c: seq<T>)
    ensures a + x + (b + y + c) == (a + x + b) + y + c
  {
  }

  lemma SwlKeeps<R, K, V>(t: Tree<R, K, V>)
    requires t.Node? && t.right.Node?
    ensures Entries(Swl(t)) == Entries(t)
  {
    Reassociate(Entries(t.left), [(t.key, t.val)], Entries(t.right.left), [(t.right.key, t.right.val)], Entries(t.right.right));
  }

  lemma SwrKeeps<R, K, V>(t: Tree<R, K, V>)
    requires t.Node? && t.left.Node?
    ensures Entries(Swr(t)) == Entries(t)
  {
    Reassociate(Entries(t.left.left), [(t.left.key, t.left.val)], Entries(t.left.right), [(t.key, t.val)], Entries(t.right));
  }

  lemma FixLeftGrownKeeps<R, K, V>(t: Tree<R, K, V>, l: Tree<R, K, V>)
    requires Balanced(t) && t.Node?
    requires Balanced(l) && l.Node? && Height(l) == Height(t.left) + 1 && l.bal != 0
    ensures Entries(FixLeftGrown(t, l)) == Entries(l) + [(t.key, t.val)] + Entries(t.right)
  {
    var t' := t.(left := l, bal := t.bal - 1);
    SwrKeeps(t');
    if t.bal < 0 && l.bal > 0 {
      Unfold(l);
      SwlKeeps(l);
      SwrKeeps(t'.(left := Swl(l)));
    }
  }

  lemma FixRightGrownKeeps<R, K, V>(t: Tree<R, K, V>, r: Tree<R, K, V>)
    requires Balanced(t) && t.Node?
    requires Balanced(r) && r.Node? && Height(r) == Height(t.right) + 1 && r.bal != 0
    ensures Entries(FixRightGrown(t, r)) == Entries(t.left) + [(t.key, t.val)] + Entries(r)
  {
    var t' := t.(right := r, bal := t.bal + 1);
    SwlKeeps(t');
    if t.bal > 0 && r.bal < 0 {
      Unfold(r);
      SwrKeeps(r);
      SwlKeeps(t'.(right := Swr(r)));
    }
  }

  lemma FixLeftShrunkKeeps<R, K, V>(t: Tree<R, K, V>, l: Tree<R, K, V>)
    requires Balanced(t) && t.Node?
    requires Balanced(l) && Height(l) == Height(t.left) - 1
    ensures Entries(FixLeftShrunk(t, l).tree) == Entries(l) + [(t.key, t.val)] + Entries(t.right)
  {
    Unfold(t);
    var t' := t.(left := l, bal := t.bal + 1);
    if t.bal == 1 {
      Unfold(t.right);
      SwlKeeps(t');
      if t.right.bal == -1 {
        SwrKeeps(t.right);
        SwlKeeps(t'.(right := Swr(t.right)));
      }
    }
  }

  lemma FixRightShrunkKeeps<R, K, V>(t: Tree<R, K, V>, r: Tree<R, K, V>)
    requires Balanced(t) && t.Node?
    requires Balanced(r) && Height(r) == Height(t.right) - 1
    ensures Entries(FixRightShrunk(t, r).tree) == Entries(t.left) + [(t.key, t.val)] + Entries(r)
  {
    Unfold(t);
    var t' := t.(right := r, bal := t.bal - 1);
    if t.bal == -1 {
      Unfold(t.left);
      SwrKeeps(t');
      if t.left.bal == 1 {
        SwlKeeps(t.left);
        SwrKeeps(t'.(left := Swl(t.left)));
      }
    }
  }

  lemma Assoc<T>(l: seq<T>, x: T, r: seq<T>)
    ensures l + ([x] + r) == l + [x] + r
  {
  }

  /** Where the three list operations act, seen from one node: on its left, ... */
  lemma GoLeft<R, K(!new), V>(cmp: (K, K) -> int, t: Tree<R, K, V>, k: K, v: V)
    requires TotalOrder(cmp) && Ordered(cmp, t) && t.Node? && cmp(t.key, k) > 0
    ensures Put(cmp, Entries(t), k, v) == Put(cmp, Entries(t.left), k, v) + [(t.key, t.val)] + Entries(t.right)
    ensures Lookup(cmp, Entries(t), k) == Lookup(cmp, Entries(t.left), k)
    ensures HasKey(Entries(t.left), k) ==>
            Del(cmp, Entries(t), k) == Del(cmp, Entries(t.left), k) + [(t.key, t.val)] + Entries(t.right)
  {
    Descend(cmp, t);
    forall e | e in Entries(t.right) ensures cmp(e.0, k) > 0 {
      assert cmp(k, t.key) < 0 && cmp(t.key, e.0) < 0;
    }
    var l, x, r := Entries(t.left), (t.key, t.val), Entries(t.right);
    StopBefore(cmp, l, x, r, k, v);
    Assoc(l, x, r);
    LookupBefore(cmp, l, [x] + r, k);
    if HasKey(l, k) {
      DelBefore(cmp, l, x, r, k);
    }
  }

  /** ... or past its left side. */
  lemma GoPast<R, K(!new), V>(cmp: (K, K) -> int, t: Tree<R, K, V>, k: K, v: V)
    requires TotalOrder(cmp) && Ordered(cmp, t) && t.Node? && cmp(t.key, k) <= 0
    ensures var s := [(t.key, t.val)] + Entries(t.right);
      && Put(cmp, Entries(t), k, v) == Entries(t.left) + Put(cmp, s, k, v)
      && Lookup(cmp, Entries(t), k) == Lookup(cmp, s, k)
      && Del(cmp, Entries(t), k) == Entries(t.left) + Del(cmp, s, k)
  {
    Descend(cmp, t);
    forall e | e in Entries(t.left) ensures cmp(e.0, k) < 0 {
      assert cmp(e.0, t.key) < 0;
    }
    Assoc(Entries(t.left), (t.key, t.val), Entries(t.right));
    PassOver(cmp, Entries(t.left), [(t.key, t.val)] + Entries(t.right), k, v);
  }

  lemma GoRight<R, K(!new), V>(cmp: (K, K) -> int, t: Tree<R, K, V>, k: K, v: V)
    requires TotalOrder(cmp) && Ordered(cmp, t) && t.Node? && cmp(t.key, k) < 0
    ensures Put(cmp, Entries(t), k, v) == Entries(t.left) + [(t.key, t.val)] + Put(cmp, Entries(t.right), k, v)
    ensures Lookup(cmp, Entries(t), k) == Lookup(cmp, Entries(t.right), k)
    ensures Del(cmp, Entries(t), k) == Entries(t.left) + [(t.key, t.val)] + Del(cmp, Entries(t.right), k)
  {
    GoPast(cmp, t, k, v);
    var x, r := (t.key, t.val), Entries(t.right);
    assert ([x] + r)[0] == x && ([x] + r)[1..] == r;
    Assoc(Entries(t.left), x, Put(cmp, r, k, v));
    Assoc(Entries(t.left), x, Del(cmp, r, k));
  }

  lemma StopAt<R, K(!new), V>(cmp: (K, K) -> int, t: Tree<R, K, V>, k: K, v: V)
    requires TotalOrder(cmp) && Ordered(cmp, t) && t.Node? && cmp(t.key, k) == 0
    ensures Put(cmp, Entries(t), k, v) == Entries(t.left) + [(t.key, v)] + Entries(t.right)
    ensures Lookup(cmp, Entries(t), k) == Some(t.val)
    ensures Del(cmp, Entries(t), k) == Entries(t.left) + Entries(t.right)
  {
    GoPast(cmp, t, k, v);
    var x, r := (t.key, t.val), Entries(t.right);
    assert ([x] + r)[0] == x && ([x] + r)[1..] == r;
    Assoc(Entries(t.left), (t.key, v), r);
  }

  /** Insertion binds `k` to `v` at its place, and hands back what `k` was bound to. */
  lemma {:induction false} InsertIsPut<R, K(!new), V>(cmp: (K, K) -> int, t: Tree<R, K, V>, n: R, k: K, v: V)
    requires TotalOrder(cmp) && Ordered(cmp, t) && Balanced(t)
    ensures Entries(Insert(cmp, t, n, k, v).tree) == Put(cmp, Entries(t), k, v)
    ensures Insert(cmp, t, n, k, v).oldV == Lookup(cmp, Entries(t), k)
  {
    if t.Node? {
      Descend(cmp, t);
      if cmp(t.key, k) > 0 {
        GoLeft(cmp, t, k, v);
        InsertIsPut(cmp, t.left, n, k, v);
        var i := Insert(cmp, t.left, n, k, v);
        if t.left.Node? && i.grew {
          FixLeftGrownKeeps(t, i.tree);
        }
      } else if cmp(t.key, k) < 0 {
        GoRight(cmp, t, k, v);
        InsertIsPut(cmp, t.right, n, k, v);
        var i := Insert(cmp, t.right, n, k, v);
        if t.right.Node? && i.grew {
          FixRightGrownKeeps(t, i.tree);
        }
      } else {
        StopAt(cmp, t, k, v);
      }
    }
  }

  /** Removal takes out the binding of `k` and nothing else. */
  lemma {:induction false} RemoveIsDel<R, K(!new), V>(cmp: (K, K) -> int, t: Tree<R, K, V>, k: K)
    requires TotalOrder(cmp) && Ordered(cmp, t) && Balanced(t) && HasKey(Entries(t), k)
    ensures Entries(Remove(cmp, t, k).tree) == Del(cmp, Entries(t), k)
    decreases t, 1
  {
    Descend(cmp, t);
    if cmp(t.key, k) > 0 {
      GoLeft(cmp, t, k, t.val);
      RemoveIsDel(cmp, t.left, k);
      var d := Remove(cmp, t.left, k);
      if d.shrunk {
        FixLeftShrunkKeeps(t, d.tree);
      }
    } else if cmp(t.key, k) < 0 {
      GoRight(cmp, t, k, t.val);
      RemoveIsDel(cmp, t.right, k);
      var d := Remove(cmp, t.right, k);
      if d.shrunk {
        FixRightShrunkKeeps(t, d.tree);
      }
    } else {
      StopAt(cmp, t, k, t.val);
      RemoveRootIsSplice(cmp, t);
    }
  }

  lemma DelLast<K(!new), V>(cmp: (K, K) -> int, s: seq<(K, V)>)
    requires TotalOrder(cmp) && Sorted(cmp, s) && s != []
    ensures Del(cmp, s, s[|s| - 1].0) == s[..|s| - 1]
  {
    var a, s' := s[|s| - 1], s[..|s| - 1];
    assert s == s' + [a];
    forall e | e in s' ensures cmp(e.0, a.0) < 0 {
      var i :| 0 <= i < |s'| && s'[i] == e;
      assert cmp(s[i].0, s[|s| - 1].0) < 0;
    }
    PassOver(cmp, s', [a], a.0, a.1);
    assert [a][1..] == [];
  }

  lemma {:induction false} RemoveRootIsSplice<R, K(!new), V>(cmp: (K, K) -> int, t: Tree<R, K, V>)
    requires TotalOrder(cmp) && Ordered(cmp, t) && Balanced(t) && t.Node?
    ensures Entries(RemoveRoot(cmp, t).tree) == Entries(t.left) + Entries(t.right)
    decreases t, 0
  {
    if t.left.Node? && t.right.Node? {
      if t.bal < 0 {
        RemoveRootLeft(cmp, t);
      } else {
        RemoveRootRight(cmp, t);
      }
    }
  }

  lemma LeftMax<R, K(!new), V>(cmp: (K, K) -> int, t: Tree<R, K, V>)
    requires TotalOrder(cmp) && Ordered(cmp, t) && t.Node? && t.left.Node?
    ensures var a := MaxNode(t.left);
      Ordered(cmp, t.left) && HasKey(Entries(t.left), a.key) && HasKey(Entries(t), a.key) && cmp(t.key, a.key) > 0
  {
    hide TotalOrder, Ordered, Height;
    Descend(cmp, t);
    var a := MaxNode(t.left);
    assert (a.key, a.val) in Entries(t.left) && (a.key, a.val) in Entries(t);
  }

  lemma RightMin<R, K(!new), V>(cmp: (K, K) -> int, t: Tree<R, K, V>)
    requires TotalOrder(cmp) && Ordered(cmp, t) && t.Node? && t.right.Node?
    ensures var a := MinNode(t.right);
      Ordered(cmp, t.right) && HasKey(Entries(t.right), a.key) && HasKey(Entries(t), a.key) && cmp(t.key, a.key) < 0
  {
    hide TotalOrder, Ordered, Height;
    Descend(cmp, t);
    var a := MinNode(t.right);
    assert (a.key, a.val) in Entries(t.right) && (a.key, a.val) in Entries(t);
  }

  /** Removal on one side of the root, and the replacement of the root by a node of one side, take the
      same step. */
  lemma LeftStep<R, K(!new), V>(cmp: (K, K) -> int, t: Tree<R, K, V>, k: K)
    requires TotalOrder(cmp) && Ordered(cmp, t) && Balanced(t) && t.Node? && Ordered(cmp, t.left)
    requires HasKey(Entries(t), k) && HasKey(Entries(t.left), k) && cmp(t.key, k) > 0
    ensures Balanced(t.left)
    ensures var d := Remove(cmp, t.left, k);
      && (d.shrunk ==> Balanced(d.tree) && Height(d.tree) == Height(t.left) - 1)
      && var u := if d.shrunk then FixLeftShrunk(t, d.tree) else Removed(t.(left := d.tree), false);
      && Remove(cmp, t, k) == u
      && (t.bal < 0 && t.left.Node? && t.right.Node? && k == MaxNode(t.left).key ==>
          var a := MaxNode(t.left);
          u.tree.Node? && RemoveRoot(cmp, t) == Removed(u.tree.(ref := a.ref, key := a.key, val := a.val), u.tree.bal == 0 && u.shrunk))
  {
    hide TotalOrder, Ordered, HasKey, Height, Balanced, Entries, FixLeftShrunk, FixRightShrunk, MaxNode, MinNode;
    Unfold(t);
    LeftRemoved(t, Remove(cmp, t.left, k).tree, Remove(cmp, t.left, k).shrunk);
  }

  lemma RightStep<R, K(!new), V>(cmp: (K, K) -> int, t: Tree<R, K, V>, k: K)
    requires TotalOrder(cmp) && Ordered(cmp, t) && Balanced(t) && t.Node? && Ordered(cmp, t.right)
    requires HasKey(Entries(t), k) && HasKey(Entries(t.right), k) && cmp(t.key, k) < 0
    ensures Balanced(t.right)
    ensures var d := Remove(cmp, t.right, k);
      && (d.shrunk ==> Balanced(d.tree) && Height(d.tree) == Height(t.right) - 1)
      && var u := if d.shrunk then FixRightShrunk(t, d.tree) else Removed(t.(right := d.tree), false);
      && Remove(cmp, t, k) == u
      && (t.bal >= 0 && t.left.Node? && t.right.Node? && k == MinNode(t.right).key ==>
          var a := MinNode(t.right);
          u.tree.Node? && RemoveRoot(cmp, t) == Removed(u.tree.(ref := a.ref, key := a.key, val := a.val), u.tree.bal == 0 && u.shrunk))
  {
    hide TotalOrder, Ordered, HasKey, Height, Balanced, Entries, FixLeftShrunk, FixRightShrunk, MaxNode, MinNode;
    Unfold(t);
    RightRemoved(t, Remove(cmp, t.right, k).tree, Remove(cmp, t.right, k).shrunk);
  }

  /** Removing from the higher side leaves the top node where it is, so the node that replaces a
      root can be removed first and then take its links over. */
  lemma RootViaLast<R, K(!new), V>(cmp: (K, K) -> int, t: Tree<R, K, V>, a: Tree<R, K, V>)
    requires TotalOrder(cmp) && Ordered(cmp, t) && Balanced(t)
    requires t.Node? && t.left.Node? && t.right.Node? && t.bal < 0 && a == MaxNode(t.left)
    ensures HasKey(Entries(t), a.key) && cmp(t.key, a.key) > 0
    ensures var d := Remove(cmp, t, a.key);
      d.tree.Node? && RemoveRoot(cmp, t)
        == Removed(d.tree.(ref := a.ref, key := a.key, val := a.val), d.tree.bal == 0 && d.shrunk)
  {
    hide *;
    LeftMax(cmp, t);
    LeftStep(cmp, t, a.key);
  }

  lemma RootViaFirst<R, K(!new), V>(cmp: (K, K) -> int, t: Tree<R, K, V>, a: Tree<R, K, V>)
    requires TotalOrder(cmp) && Ordered(cmp, t) && Balanced(t)
    requires t.Node? && t.left.Node? && t.right.Node? && t.bal >= 0 && a == MinNode(t.right)
    ensures HasKey(Entries(t), a.key) && cmp(t.key, a.key) < 0
    ensures var d := Remove(cmp, t, a.key);
      d.tree.Node? && RemoveRoot(cmp, t)
        == Removed(d.tree.(ref := a.ref, key := a.key, val := a.val), d.tree.bal == 0 && d.shrunk)
  {
    hide *;
    RightMin(cmp, t);
    RightStep(cmp, t, a.key);
  }

  /** Replacing the root never rotates it: the higher side is the one that shrinks. */
  lemma RootLeft<R, K(!new), V>(cmp: (K, K) -> int, t: Tree<R, K, V>)
    requires TotalOrder(cmp) && Ordered(cmp, t) && Balanced(t) && t.Node? && t.left.Node? && t.right.Node? && t.bal < 0
    ensures var a := MaxNode(t.left); var s := RemoveRoot(cmp, t).tree;
      && HasKey(Entries(t.left), a.key) && Ordered(cmp, t.left) && Balanced(t.left)
      && s.Node? && s.left == Remove(cmp, t.left, a.key).tree && s.right == t.right && s.ref == a.ref && s.key == a.key && s.val == a.val
  {
    hide TotalOrder, Ordered, HasKey, Height, Balanced, Entries, Remove, RemoveRoot, MaxNode;
    Unfold(t);
    LeftMax(cmp, t);
    LeftStep(cmp, t, MaxNode(t.left).key);
  }

  lemma Splice<R, K, V>(s: Tree<R, K, V>, l: seq<(K, V)>, r: seq<(K, V)>)
    requires s.Node? && Entries(s.left) + [(s.key, s.val)] == l && Entries(s.right) == r
    ensures Entries(s) == l + r
  {
  }

  lemma SpliceRight<R, K, V>(s: Tree<R, K, V>, l: seq<(K, V)>, r: seq<(K, V)>)
    requires s.Node? && Entries(s.left) == l && r != [] && r[0] == (s.key, s.val) && Entries(s.right) == r[1..]
    ensures Entries(s) == l + r
  {
  }

  lemma DelMax<K(!new), V>(cmp: (K, K) -> int, s: seq<(K, V)>, a: (K, V), d: seq<(K, V)>)
    requires TotalOrder(cmp) && Sorted(cmp, s) && s != [] && a == s[|s| - 1] && d == Del(cmp, s, a.0)
    ensures d + [a] == s
  {
    DelLast(cmp, s);
  }

  lemma {:induction false} RemoveMax<R, K(!new), V>(cmp: (K, K) -> int, l: Tree<R, K, V>, a: Tree<R, K, V>)
    requires TotalOrder(cmp) && Ordered(cmp, l) && Balanced(l) && l.Node? && a == MaxNode(l)
    ensures HasKey(Entries(l), a.key)
    ensures Entries(Remove(cmp, l, a.key).tree) + [(a.key, a.val)] == Entries(l)
    decreases l, 2
  {
    assert (a.key, a.val) in Entries(l);
    RemoveIsDel(cmp, l, a.key);
    DelMax(cmp, Entries(l), (a.key, a.val), Entries(Remove(cmp, l, a.key).tree));
  }

  lemma {:induction false} RemoveRootLeft<R, K(!new), V>(cmp: (K, K) -> int, t: Tree<R, K, V>)
    requires TotalOrder(cmp) && Ordered(cmp, t) && Balanced(t) && t.Node? && t.left.Node? && t.right.Node? && t.bal < 0
    ensures Entries(RemoveRoot(cmp, t).tree) == Entries(t.left) + Entries(t.right)
    decreases t.left, 3
  {
    RootLeft(cmp, t);
    RemoveMax(cmp, t.left, MaxNode(t.left));
    Splice(RemoveRoot(cmp, t).tree, Entries(t.left), Entries(t.right));
  }

  lemma RightShrunkPlain<R, K, V>(t: Tree<R, K, V>, r: Tree<R, K, V>)
    requires Balanced(t) && t.Node? && Balanced(r) && Height(r) == Height(t.right) - 1 && t.bal >= 0
    ensures FixRightShrunk(t, r).tree == t.(right := r, bal := t.bal - 1)
  {
    Unfold(t);
  }

  lemma RootRight<R, K(!new), V>(cmp: (K, K) -> int, t: Tree<R, K, V>)
    requires TotalOrder(cmp) && Ordered(cmp, t) && Balanced(t) && t.Node? && t.left.Node? && t.right.Node? && t.bal >= 0
    ensures var a := MinNode(t.right); var s := RemoveRoot(cmp, t).tree;
      && HasKey(Entries(t.right), a.key) && Ordered(cmp, t.right) && Balanced(t.right)
      && s.Node? && s.right == Remove(cmp, t.right, a.key).tree && s.left == t.left && s.ref == a.ref && s.key == a.key && s.val == a.val
  {
    Descend(cmp, t);
    var a := MinNode(t.right);
    assert (a.key, a.val) in Entries(t.right);
    var d := Remove(cmp, t.right, a.key);
    if d.shrunk {
      RightShrunkPlain(t, d.tree);
    }
  }

  lemma {:induction false} RemoveRootRight<R, K(!new), V>(cmp: (K, K) -> int, t: Tree<R, K, V>)
    requires TotalOrder(cmp) && Ordered(cmp, t) && Balanced(t) && t.Node? && t.left.Node? && t.right.Node? && t.bal >= 0
    ensures Entries(RemoveRoot(cmp, t).tree) == Entries(t.left) + Entries(t.right)
    decreases t.right, 2
  {
    RootRight(cmp, t);
    var r, a := Entries(t.right), MinNode(t.right);
    assert Entries(Remove(cmp, t.right, a.key).tree) == r[1..] by {
      RemoveIsDel(cmp, t.right, a.key);
    }
    SpliceRight(RemoveRoot(cmp, t).tree, Entries(t.left), r);
  }

  lemma SortedTail<K(!new), V>(cmp: (K, K) -> int, s: seq<(K, V)>)
    requires s != [] && Sorted(cmp, s)
    ensures Sorted(cmp, s[1..])
    ensures forall e :: e in s[1..] ==> cmp(s[0].0, e.0) < 0
  {
  }

  lemma SortedCons<K(!new), V>(cmp: (K, K) -> int, x: (K, V), s: seq<(K, V)>)
    requires Sorted(cmp, s)
    requires forall e :: e in s ==> cmp(x.0, e.0) < 0
    ensures Sorted(cmp, [x] + s)
  {
    var s' := [x] + s;
    forall i, j | 0 <= i < j < |s'| ensures cmp(s'[i].0, s'[j].0) < 0 {
      assert s'[j] == s[j - 1] && s[j - 1] in s;
    }
  }

  lemma {:induction false} PutSorted<K(!new), V>(cmp: (K, K) -> int, s: seq<(K, V)>, k: K, v: V)
    requires TotalOrder(cmp) && Sorted(cmp, s)
    ensures Sorted(cmp, Put(cmp, s, k, v))
    ensures forall e :: e in Put(cmp, s, k, v) ==> e == (k, v) || e in s
  {
    if s != [] {
      SortedTail(cmp, s);
      if cmp(s[0].0, k) < 0 {
        PutSorted(cmp, s[1..], k, v);
        SortedCons(cmp, s[0], Put(cmp, s[1..], k, v));
      } else if cmp(s[0].0, k) == 0 {
        SortedCons(cmp, (s[0].0, v), s[1..]);
      } else {
        forall e | e in s ensures cmp(k, e.0) < 0 {
          assert e == s[0] || e in s[1..];
        }
        SortedCons(cmp, (k, v), s);
      }
    }
  }

  lemma {:induction false} DelSorted<K(!new), V>(cmp: (K, K) -> int, s: seq<(K, V)>, k: K)
    requires TotalOrder(cmp) && Sorted(cmp, s)
    ensures Sorted(cmp, Del(cmp, s, k))
    ensures forall e :: e in Del(cmp, s, k) ==> e in s
  {
    if s != [] {
      SortedTail(cmp, s);
      if cmp(s[0].0, k) != 0 {
        DelSorted(cmp, s[1..], k);
        SortedCons(cmp, s[0], Del(cmp, s[1..], k));
      }
    }
  }

  // ---------------------------------------------------------------- the finite map

  ghost function ToMap<K, V>(s: seq<(K, V)>): map<K, V> {
    if s == [] then map[] else ToMap(s[1..])[s[0].0 := s[0].1]
  }

  lemma {:induction false} KeysOfMap<K, V>(s: seq<(K, V)>)
    ensures forall k :: k in ToMap(s) ==> (k, ToMap(s)[k]) in s
  {
    if s != [] {
      KeysOfMap(s[1..]);
      forall k | k in ToMap(s) ensures (k, ToMap(s)[k]) in s {
        if k != s[0].0 {
          assert (k, ToMap(s[1..])[k]) in s[1..];
        } else {
          assert s[0] == (k, ToMap(s)[k]);
        }
      }
    }
  }

  /** The head of a sorted list is bound by nothing behind it. */
  lemma HeadIsNew<K(!new), V>(cmp: (K, K) -> int, s: seq<(K, V)>)
    requires TotalOrder(cmp) && Sorted(cmp, s) && s != []
    ensures s[0].0 !in ToMap(s[1..])
  {
    SortedTail(cmp, s);
    KeysOfMap(s[1..]);
  }

  /** Every binding of a sorted list is in its map, and lookup reads that map. */
  lemma {:induction false} ToMapOfSorted<K(!new), V>(cmp: (K, K) -> int, s: seq<(K, V)>, k: K)
    requires TotalOrder(cmp) && Sorted(cmp, s)
    ensures Lookup(cmp, s, k) == if k in ToMap(s) then Some(ToMap(s)[k]) else None
    ensures HasKey(s, k) <==> k in ToMap(s)
  {
    if s != [] {
      SortedTail(cmp, s);
      HeadIsNew(cmp, s);
      ToMapOfSorted(cmp, s[1..], k);
      HasKeyTail(s, k);
      assert cmp(s[0].0, k) == 0 <==> s[0].0 == k;
    }
  }

  lemma {:induction false} SizeOfMap<K(!new), V>(cmp: (K, K) -> int, s: seq<(K, V)>)
    requires TotalOrder(cmp) && Sorted(cmp, s)
    ensures |s| == |ToMap(s)|
  {
    if s != [] {
      SortedTail(cmp, s);
      HeadIsNew(cmp, s);
      SizeOfMap(cmp, s[1..]);
    }
  }

  lemma {:induction false} DelAbsent<K, V>(cmp: (K, K) -> int, s: seq<(K, V)>, k: K)
    requires Lookup(cmp, s, k) == None
    ensures Del(cmp, s, k) == s
  {
    if s != [] {
      DelAbsent(cmp, s[1..], k);
    }
  }

  lemma {:induction false} PutIsUpdate<K(!new), V>(cmp: (K, K) -> int, s: seq<(K, V)>, k: K, v: V)
    requires TotalOrder(cmp)
    ensures ToMap(Put(cmp, s, k, v)) == ToMap(s)[k := v]
  {
    if s == [] {
      assert [(k, v)][1..] == [];
    } else if cmp(s[0].0, k) < 0 {
      PutIsUpdate(cmp, s[1..], k, v);
      assert ([s[0]] + Put(cmp, s[1..], k, v))[1..] == Put(cmp, s[1..], k, v);
      assert s[0].0 != k;
      assert ToMap(s[1..])[k := v][s[0].0 := s[0].1] == ToMap(s[1..])[s[0].0 := s[0].1][k := v];
    } else if cmp(s[0].0, k) == 0 {
      assert ([(s[0].0, v)] + s[1..])[1..] == s[1..];
      assert ToMap(s[1..])[k := v] == ToMap(s[1..])[k := s[0].1][k := v];
    } else {
      assert ([(k, v)] + s)[1..] == s;
    }
  }

  lemma {:induction false} DelIsRemove<K(!new), V>(cmp: (K, K) -> int, s: seq<(K, V)>, k: K)
    requires TotalOrder(cmp) && Sorted(cmp, s)
    ensures ToMap(Del(cmp, s, k)) == ToMap(s) - {k}
  {
    if s != [] {
      var h, v, r := s[0].0, s[0].1, s[1..];
      SortedTail(cmp, s);
      HeadIsNew(cmp, s);
      if cmp(h, k) == 0 {
        DropKey(ToMap(r), k, v);
      } else {
        DelIsRemove(cmp, r, k);
        assert ([s[0]] + Del(cmp, r, k))[1..] == Del(cmp, r, k);
        PassKey(ToMap(r), h, v, k);
      }
    }
  }

  lemma DropKey<K, V>(m: map<K, V>, k: K, v: V)
    requires k !in m
    ensures m[k := v] - {k} == m
  {
  }

  lemma PassKey<K, V>(m: map<K, V>, h: K, v: V, k: K)
    requires h != k
    ensures (m - {k})[h := v] == m[h := v] - {k}
  {
  }

  // ---------------------------------------------------------------- the height bound

  function Fib(n: nat): nat {
    if n < 2 then n else Fib(n - 1) + Fib(n - 2)
  }

  lemma {:induction false} FibMonotone(m: nat, n: nat)
    requires m <= n
    ensures Fib(m) <= Fib(n)
  {
    if m < n {
      FibMonotone(m, n - 1);
    }
  }

  /** A balanced tree of height h holds at least F(h + 2) - 1 bindings. */
  lemma {:induction false} HeightBound<R, K, V>(t: Tree<R, K, V>)
    requires Balanced(t)
    ensures |Entries(t)| + 1 >= Fib(Height(t) + 2)
  {
    if t.Node? {
      HeightBound(t.left);
      HeightBound(t.right);
      Unfold(t);
      var h := Height(t);
      FibMonotone(h, Height(t.left) + 2);
      FibMonotone(h, Height(t.right) + 2);
    }
  }

  lemma Fib35(n: nat)
    requires n == 35
    ensures Fib(n) == 9227465
  {
    assert Fib(10) == 55; assert Fib(11) == 89;
    assert Fib(12) == 144; assert Fib(13) == 233; assert Fib(14) == 377; assert Fib(15) == 610;
    assert Fib(16) == 987; assert Fib(17) == 1597; assert Fib(18) == 2584; assert Fib(19) == 4181;
    assert Fib(20) == 6765; assert Fib(21) == 10946; assert Fib(22) == 17711; assert Fib(23) == 28657;
    assert Fib(24) == 46368; assert Fib(25) == 75025; assert Fib(26) == 121393; assert Fib(27) == 196418;
    assert Fib(28) == 317811; assert Fib(29) == 514229; assert Fib(30) == 832040; assert Fib(31) == 1346269;
    assert Fib(32) == 2178309; assert Fib(33) == 3524578; assert Fib(34) == 5702887;
  }
}
