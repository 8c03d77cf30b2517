/**
 The inner maps of a profile (`cg_merge.c`) as they are in memory: a WordFM from line numbers
 to blocks of counts, which are added to in place.
*/
module ProfileLines {
  import opened Common
  import opened AvlTree
  import opened AvlMap
  import opened ProfileText
  import opened ProfileModel
  import opened ProfileSums
  import opened WordFm
  import opened WordFmApi
  import Iter = WordFmIter

  type Block = array<nat>

  type LineMap = WordFM<int, array<nat>>

  // ---------------------------------------------------------------- what a map of blocks stands for

  ghost function Blocks(s: seq<(int, Block)>): set<Block> {
    set e | e in s :: e.1
  }

  /** The bindings with the counts in place of the blocks. */
  ghost function Values(s: seq<(int, Block)>): (r: Inner)
    reads Blocks(s)
    ensures |r| == |s| && forall i :: 0 <= i < |s| ==> r[i] == (s[i].0, s[i].1[..])
  {
    if s == [] then [] else [(s[0].0, s[0].1[..])] + Values(s[1..])
  }

  lemma {:induction false} PutValues(s: seq<(int, Block)>, k: int, b: Block)
    ensures Values(Put(Compare, s, k, b)) == Put(Compare, Values(s), k, b[..])
  {
    if s != [] {
      PutValues(s[1..], k, b);
    }
  }

  lemma {:induction false} LookupValues(s: seq<(int, Block)>, k: int)
    ensures match Lookup(Compare, s, k)
      case None => Lookup(Compare, Values(s), k) == None
      case Some(b) => b in Blocks(s) && (k, b) in s && Lookup(Compare, Values(s), k) == Some(b[..])
  {
    if s != [] {
      LookupValues(s[1..], k);
    }
  }

  lemma SortedValues(s: seq<(int, Block)>)
    requires Sorted(Compare, s)
    ensures Sorted(Compare, Values(s))
  {
    assert forall i :: 0 <= i < |s| ==> Values(s)[i].0 == s[i].0;
  }

  /** Lists that differ only in what `k` is bound to. */
  lemma {:induction false} PutAtKey<K(!new), V>(cmp: (K, K) -> int, a: seq<(K, V)>, b: seq<(K, V)>, k: K, v: V)
    requires TotalOrder(cmp) && Sorted(cmp, a) && Lookup(cmp, a, k).Some?
    requires |a| == |b| && forall i :: 0 <= i < |a| ==> b[i] == if a[i].0 == k then (k, v) else a[i]
    ensures b == Put(cmp, a, k, v)
  {
    if cmp(a[0].0, k) == 0 {
      assert forall i :: 0 < i < |a| ==> cmp(a[0].0, a[i].0) < 0;
      assert b == [(k, v)] + a[1..];
    } else {
      var i := LookupIn(cmp, a, k);
      assert cmp(a[0].0, a[i].0) < 0;
      PutAtKey(cmp, a[1..], b[1..], k, v);
      assert b == [a[0]] + b[1..];
    }
  }

  // ---------------------------------------------------------------- footprints

  /** The objects of the map itself. */
  ghost function Own(m: LineMap): set<object>
    reads m`tree
  {
    {m, m.nodeStack, m.numStack} + Refs(m.tree)
  }

  ghost function Footprint(m: LineMap): set<object>
    reads m`tree
  {
    Own(m) + Blocks(m.Contents())
  }

  /** Different lines have different blocks. */
  ghost predicate Apart(s: seq<(int, Block)>) {
    forall e, f :: e in s && f in s && e.0 != f.0 ==> e.1 != f.1
  }

  lemma CellsOf(m: LineMap)
    ensures m.Contents() == Entries(m.tree) && LinesOf(m) == Values(Entries(m.tree))
    ensures Footprint(m) == {m, m.nodeStack, m.numStack} + Refs(m.tree) + Blocks(Entries(m.tree))
  {
  }

  /** Every block has a count for each event, and is shared with nothing. */
  ghost predicate Unshared(s: seq<(int, Block)>, own: set<object>, n: nat) {
    && own !! Blocks(s)
    && (forall e :: e in s ==> e.1.Length == n)
    && Apart(s)
  }

  ghost predicate LinesHeld(m: LineMap, n: nat)
    reads m, Footprint(m)
  {
    m.Valid() && m.kCmp == Compare && Unshared(m.Contents(), Own(m), n)
  }

  lemma HeldFacts(m: LineMap, n: nat)
    requires LinesHeld(m, n) || LinesOk(m, n)
    ensures m.Valid() && Rep(m.root, m.tree) && m.kCmp == Compare && TotalOrder(Compare) && Sorted(Compare, m.Contents())
    ensures Unshared(m.Contents(), Own(m), n)
  {
  }

  lemma HeldParts(m: LineMap, n: nat)
    requires m.Valid() && m.kCmp == Compare && m.stackTop == 0 && Own(m) !! Blocks(m.Contents())
    requires Apart(m.Contents()) && forall e :: e in m.Contents() ==> e.1.Length == n
    ensures LinesOk(m, n)
  {
  }

  lemma UnsharedPut(s: seq<(int, Block)>, k: int, b: Block, own: set<object>, own': set<object>, n: nat)
    requires Unshared(s, own, n) && b.Length == n && b !in own' && b !in Blocks(s) && own' !! Blocks(s)
    requires Sorted(Compare, s) && Lookup(Compare, s, k) == None
    ensures Unshared(Put(Compare, s, k, b), own', n)
    ensures Blocks(Put(Compare, s, k, b)) <= Blocks(s) + {b}
  {
    LineOrder();
    PutSorted(Compare, s, k, b);
  }

  /** ... and is not being iterated over. */
  ghost predicate LinesOk(m: LineMap, n: nat)
    reads m, Footprint(m)
  {
    LinesHeld(m, n) && m.stackTop == 0
  }

  ghost function LinesOf(m: LineMap): Inner
    reads m, Footprint(m)
  {
    Values(m.Contents())
  }

  /** Only the line `k` has its block. */
  lemma OneLine(s: seq<(int, Block)>, k: int, b: Block, own: set<object>, n: nat)
    requires Unshared(s, own, n) && Sorted(Compare, s) && Lookup(Compare, s, k) == Some(b)
    ensures b in Blocks(s) && b !in own && b.Length == n
    ensures forall i :: 0 <= i < |s| ==> (s[i].0 == k <==> s[i].1 == b)
  {
    LineOrder();
    LookupValues(s, k);
    var j := LookupIn(Compare, s, k);
    forall i | 0 <= i < |s| ensures s[i].0 == k <==> s[i].1 == b {
      assert s[i] in s && s[j] in s;
      assert Compare(s[i].0, s[i].0) == 0;
    }
  }

  // ---------------------------------------------------------------- operations

  /** `addCounts` */
  method AddCounts(counts1: Block, counts2: Block)
    requires counts1.Length == counts2.Length
    modifies counts1
    ensures counts1[..] == Add(old(counts1[..]), old(counts2[..]))
  {
    var i := 0;
    while i < counts1.Length
      invariant i <= counts1.Length
      invariant forall j :: 0 <= j < i ==> counts1[j] == (old(counts1[j]) + old(counts2[j])) % ULONG
      invariant forall j :: i <= j < counts1.Length ==> counts1[j] == old(counts1[j]) && counts2[j] == old(counts2[j])
    {
      counts1[i] := (counts1[i] + counts2[i]) % ULONG;
      i := i + 1;
    }
  }

  /** `dopy_Counts` */
  method DopyCounts(cts: Block) returns (nyu: Block)
    ensures fresh(nyu) && nyu[..] == cts[..]
  {
    nyu := new nat[cts.Length](i requires 0 <= i < cts.Length reads cts => cts[i]);
  }

  /** A new line gets the block `b` itself. */
  method BindBlock(m: LineMap, lnno: int, b: Block, ghost n: nat)
    requires LinesOk(m, n) && b.Length == n && b !in Footprint(m) && Lookup(Compare, m.Contents(), lnno) == None
    modifies m`root, m`tree, Refs(m.tree)
    ensures LinesOk(m, n) && forall o :: o in Footprint(m) ==> o in old(Footprint(m)) || o == b || fresh(o)
    ensures LinesOf(m) == Put(Compare, old(LinesOf(m)), lnno, b[..])
  {
    hide Put, Lookup, Values, Entries, Refs, Unshared, Rep, Distinct, Balanced, TotalOrder, Sorted, WordFM.Valid;
    HeldFacts(m, n);
    ghost var was, own := m.Contents(), Own(m);
    assert allocated(own) && allocated(Blocks(was));
    m.AddToFM(lnno, b);
    PutValues(was, lnno, b);
    assert b !in Own(m) && Own(m) !! Blocks(was) by {
      assert fresh(Own(m) - own);
    }
    UnsharedPut(was, lnno, b, own, Own(m), n);
  }

  /** Counts for a line that has a block are added to it in place. */
  method AddToBlock(m: LineMap, lnno: int, b: Block, c: Block, ghost n: nat)
    requires LinesOk(m, n) && Lookup(Compare, m.Contents(), lnno) == Some(b) && c.Length == n == b.Length
    modifies b
    ensures LinesOk(m, n) && m.Contents() == old(m.Contents())
    ensures LinesOf(m) == Put(Compare, old(LinesOf(m)), lnno, Add(old(b[..]), old(c[..])))
  {
    hide Put, Lookup, Entries, Values, Refs, Rep, Distinct, Balanced, TotalOrder, Sorted, Unshared, WordFM.Valid;
    HeldFacts(m, n);
    ghost var s, was := m.Contents(), Values(m.Contents());
    OneLine(s, lnno, b, Own(m), n);
    LookupValues(s, lnno);
    assert allocated(Own(m));
    AddCounts(b, c);
    ghost var now := Values(s);
    assert forall i :: 0 <= i < |s| ==> now[i] == if was[i].0 == lnno then (lnno, b[..]) else was[i];
    SortedValues(s);
    PutAtKey(Compare, was, now, lnno, b[..]);
  }

  /** `addCountsToMap`; the block is kept for a new line only. */
  method AddCountsToMap(m: LineMap, lnno: int, newCounts: Block, ghost n: nat) returns (found: bool)
    requires LinesOk(m, n) && newCounts.Length == n && newCounts !in Footprint(m)
    modifies Footprint(m)
    ensures LinesOk(m, n) && LinesOf(m) == AddLine(old(LinesOf(m)), lnno, newCounts[..])
    ensures found <==> Lookup(Compare, old(LinesOf(m)), lnno).Some?
    ensures forall o :: o in Footprint(m) ==> o in old(Footprint(m)) || (!found && o == newCounts) || fresh(o)
  {
    hide Put, Lookup, Entries, Values, Refs, Rep, Distinct, Balanced, TotalOrder, Sorted, Unshared, WordFM.Valid;
    HeldFacts(m, n);
    LookupValues(m.Contents(), lnno);
    assert allocated(Footprint(m));
    var oldCounts;
    found, oldCounts := m.LookupFM(lnno);
    if found {
      OneLine(m.Contents(), lnno, oldCounts.value, Own(m), n);
      AddToBlock(m, lnno, oldCounts.value, newCounts, n);
    } else {
      BindBlock(m, lnno, newCounts, n);
    }
  }

  /** One line of the source map is merged; only a new line is copied. */
  method MergeLine(doVal: LineMap, siKey: int, siVal: Block, ghost n: nat)
    requires LinesOk(doVal, n) && siVal.Length == n && siVal !in Footprint(doVal)
    modifies Footprint(doVal)
    ensures LinesOk(doVal, n) && LinesOf(doVal) == AddLine(old(LinesOf(doVal)), siKey, siVal[..])
    ensures forall o :: o in Footprint(doVal) ==> o in old(Footprint(doVal)) || fresh(o)
  {
    hide Put, Lookup, Entries, Values, Refs, Rep, Distinct, Balanced, TotalOrder, Sorted, Unshared, WordFM.Valid;
    HeldFacts(doVal, n);
    LookupValues(doVal.Contents(), siKey);
    assert allocated(Footprint(doVal));
    var found, diVal := doVal.LookupFM(siKey);
    if !found {
      ghost var was := LinesOf(doVal);
      var copy := DopyCounts(siVal);
      assert LinesOk(doVal, n) && LinesOf(doVal) == was;
      BindBlock(doVal, siKey, copy, n);
    } else {
      OneLine(doVal.Contents(), siKey, diVal.value, Own(doVal), n);
      AddToBlock(doVal, siKey, diVal.value, siVal, n);
    }
  }

  /** An iteration over the lines `s` is at position `j`. */
  ghost predicate LinesRead(m: LineMap, s: seq<(int, Block)>, j: nat, r: Option<(int, Block)>, n: nat)
    reads m, m.nodeStack, m.numStack, Refs(m.tree)
  {
    m.Reading(s, j, r) && m.kCmp == Compare && Unshared(s, Own(m), n)
  }

  lemma AllRead(m: LineMap, s: seq<(int, Block)>, j: nat, n: nat)
    requires LinesRead(m, s, j, None, n)
    ensures LinesOk(m, n) && m.Contents() == s && LinesOf(m) == Values(s) && j == |s|
  {
  }

  method FirstLine(m: LineMap, ghost n: nat) returns (r: Option<(int, Block)>)
    requires LinesOk(m, n) && Iter.LeftDepth(m.tree) <= Iter.STACK_MAX
    modifies m`stackTop, m`frames, m.nodeStack, m.numStack
    ensures LinesRead(m, old(m.Contents()), 0, r, n) && Values(old(m.Contents())) == old(LinesOf(m)) && Own(m) == old(Own(m))
  {
    hide Entries, Refs, WordFM.Valid, WordFM.Reading, Unshared, Values;
    HeldFacts(m, n);
    assert allocated(Footprint(m)) && allocated(Own(m)) && allocated(Blocks(m.Contents()));
    r := m.FirstBinding();
  }

  lemma ReadAt(m: LineMap, s: seq<(int, Block)>, j: nat, r: (int, Block), n: nat)
    requires LinesRead(m, s, j, Some(r), n)
    ensures j < |s| && s[j] == r && r.1 in Blocks(s) && r.1.Length == n && Values(s)[j] == (r.0, r.1[..])
  {
    assert s[j] in s;
  }

  method NextLine(m: LineMap, ghost s: seq<(int, Block)>, ghost j: nat, r0: (int, Block), ghost n: nat)
      returns (r: Option<(int, Block)>)
    requires LinesRead(m, s, j, Some(r0), n)
    modifies m`stackTop, m`frames, m.nodeStack, m.numStack
    ensures LinesRead(m, s, j + 1, r, n) && Values(s) == old(Values(s)) && Own(m) == old(Own(m))
  {
    hide Entries, Refs, WordFM.Valid, WordFM.Reading, Values;
    m.ReadingFacts(s, j, Some(r0));
    assert allocated(Own(m)) && allocated(Blocks(s));
    r := m.NextBinding(s, j, Some(r0));
  }

  /** The lines `s` of `soVal` are being merged into `doVal`, up to position `j`. */
  ghost predicate Merging(doVal: LineMap, soVal: LineMap, s: seq<(int, Block)>, j: nat, r: Option<(int, Block)>, n: nat)
    reads doVal, Footprint(doVal), soVal, soVal.nodeStack, soVal.numStack, Refs(soVal.tree)
  {
    && LinesOk(doVal, n) && LinesRead(soVal, s, j, r, n)
    && Footprint(doVal) !! Own(soVal) && Footprint(doVal) !! Blocks(s)
  }

  lemma Merged(doVal: LineMap, soVal: LineMap, s: seq<(int, Block)>, j: nat, n: nat)
    requires Merging(doVal, soVal, s, j, None, n)
    ensures LinesOk(doVal, n) && LinesOk(soVal, n) && soVal.Contents() == s && j == |s|
    ensures LinesOf(soVal) == Values(s)
    ensures MergeInner(LinesOf(doVal), Values(s)[j..]) == LinesOf(doVal)
  {
    AllRead(soVal, s, j, n);
  }

  lemma MergeInnerStep(d: Inner, s: Inner, j: nat)
    requires j < |s|
    ensures MergeInner(d, s[j..]) == MergeInner(AddLine(d, s[j].0, s[j].1), s[j + 1..])
  {
    assert s[j..][1..] == s[j + 1..];
  }

  method MergeOne(doVal: LineMap, soVal: LineMap, ghost s: seq<(int, Block)>, ghost j: nat, r0: (int, Block), ghost n: nat)
      returns (r: Option<(int, Block)>)
    requires Merging(doVal, soVal, s, j, Some(r0), n)
    modifies Footprint(doVal), soVal`stackTop, soVal`frames, soVal.nodeStack, soVal.numStack
    ensures Merging(doVal, soVal, s, j + 1, r, n) && Own(soVal) == old(Own(soVal)) && Values(s) == old(Values(s))
    ensures j < |s| && LinesOf(doVal) == AddLine(old(LinesOf(doVal)), s[j].0, Values(s)[j].1)
    ensures forall o :: o in Footprint(doVal) ==> o in old(Footprint(doVal)) || fresh(o)
  {
    hide AddLine, Values, Refs, LinesRead, LinesOf, LinesOk, Unshared;
    ReadAt(soVal, s, j, r0, n);
    assert allocated(Footprint(doVal)) && allocated(Own(soVal)) && allocated(Blocks(s));
    MergeLine(doVal, r0.0, r0.1, n);
    assert allocated(Footprint(doVal));
    r := NextLine(soVal, s, j, r0, n);
  }

  method MergeFirst(doVal: LineMap, soVal: LineMap, ghost n: nat) returns (r: Option<(int, Block)>)
    requires LinesOk(doVal, n) && LinesOk(soVal, n) && Footprint(doVal) !! Footprint(soVal)
    requires Iter.LeftDepth(soVal.tree) <= Iter.STACK_MAX
    modifies soVal`stackTop, soVal`frames, soVal.nodeStack, soVal.numStack
    ensures Merging(doVal, soVal, old(soVal.Contents()), 0, r, n) && LinesOf(doVal) == old(LinesOf(doVal))
    ensures Footprint(doVal) == old(Footprint(doVal)) && Own(soVal) == old(Own(soVal))
    ensures Values(old(soVal.Contents())) == old(LinesOf(soVal))
  {
    hide LinesOk, LinesRead, Values, Refs;
    assert allocated(Footprint(doVal)) && allocated(Footprint(soVal));
    r := FirstLine(soVal, n);
  }

  /** `merge_CacheProfInfo` for the lines of one function. */
  method MergeLines(doVal: LineMap, soVal: LineMap, ghost n: nat)
    requires LinesOk(doVal, n) && LinesOk(soVal, n) && Footprint(doVal) !! Footprint(soVal)
    requires Iter.LeftDepth(soVal.tree) <= Iter.STACK_MAX
    modifies Footprint(doVal), soVal`stackTop, soVal`frames, soVal.nodeStack, soVal.numStack
    ensures LinesOk(doVal, n) && LinesOf(doVal) == MergeInner(old(LinesOf(doVal)), old(LinesOf(soVal)))
    ensures LinesOk(soVal, n) && LinesOf(soVal) == old(LinesOf(soVal))
    ensures forall o :: o in Footprint(doVal) ==> o in old(Footprint(doVal)) || fresh(o)
  {
    hide *;
    ghost var s, own, ls, cells := soVal.Contents(), Own(soVal), LinesOf(soVal), Footprint(doVal);
    ghost var goal := MergeInner(LinesOf(doVal), ls);
    var r := MergeFirst(doVal, soVal, n);
    ghost var j := 0;
    while r.Some?
      invariant Merging(doVal, soVal, s, j, r, n) && Own(soVal) == own && Values(s) == ls
      invariant j <= |s| && MergeInner(LinesOf(doVal), ls[j..]) == goal
      invariant forall o :: o in Footprint(doVal) ==> o in cells || fresh(o)
      decreases |s| - j
    {
      ghost var d := LinesOf(doVal);
      r := MergeOne(doVal, soVal, s, j, r.value, n);
      MergeInnerStep(d, ls, j);
      j := j + 1;
    }
    Merged(doVal, soVal, s, j, n);
  }

  method NewLineMap(ghost n: nat) returns (m: LineMap)
    ensures LinesOk(m, n) && LinesOf(m) == [] && fresh(Footprint(m))
  {
    LineOrder();
    m := new WordFM(Compare);
  }

  // ---------------------------------------------------------------- copying

  /** The same tree, with other nodes and blocks. */
  ghost predicate SameShape<R, K, V, W>(t: Tree<R, K, V>, t': Tree<R, K, W>) {
    if t.Leaf? then t'.Leaf?
    else t'.Node? && t'.key == t.key && t'.bal == t.bal && SameShape(t.left, t'.left) && SameShape(t.right, t'.right)
  }

  lemma {:induction false} ShapeFacts<R, K(!new), V, W>(cmp: (K, K) -> int, t: Tree<R, K, V>, t': Tree<R, K, W>)
    requires SameShape(t, t')
    ensures Height(t') == Height(t) && (Balanced(t) ==> Balanced(t'))
    ensures |Entries(t')| == |Entries(t)| && forall i :: 0 <= i < |Entries(t)| ==> Entries(t')[i].0 == Entries(t)[i].0
    ensures Ordered(cmp, t) ==> Ordered(cmp, t')
  {
    if t.Node? {
      ShapeFacts(cmp, t.left, t'.left);
      ShapeFacts(cmp, t.right, t'.right);
    }
  }

  lemma JoinValues(a: seq<(int, Block)>, x: (int, Block), b: seq<(int, Block)>)
    ensures Values(a + [x] + b) == Values(a) + [(x.0, x.1[..])] + Values(b)
  {
  }

  ghost predicate BlocksCopied(t: Tree<AvlNode<int, Block>, int, Block>, t': Tree<AvlNode<int, Block>, int, Block>)
    reads Blocks(Entries(t)), Blocks(Entries(t'))
  {
    SameShape(t, t') && Values(Entries(t')) == Values(Entries(t)) && Apart(Entries(t'))
  }

  lemma ApartJoin(l: seq<(int, Block)>, x: (int, Block), r: seq<(int, Block)>)
    requires Apart(l) && Apart(r) && Blocks(l) !! Blocks(r) && x.1 !in Blocks(l) && x.1 !in Blocks(r)
    ensures Apart(l + [x] + r) && Blocks(l + [x] + r) == Blocks(l) + {x.1} + Blocks(r)
  {
    var s := l + [x] + r;
    assert forall e :: e in s <==> e in l || e == x || e in r;
    forall e, f | e in s && f in s && e.0 != f.0 ensures e.1 != f.1 {
      assert e in l ==> e.1 in Blocks(l);
      assert f in l ==> f.1 in Blocks(l);
      assert e in r ==> e.1 in Blocks(r);
      assert f in r ==> f.1 in Blocks(r);
    }
  }

  lemma DopyJoin(t: Tree<AvlNode<int, Block>, int, Block>, t': Tree<AvlNode<int, Block>, int, Block>)
    requires t.Node? && t'.Node? && t.key == t'.key && t.bal == t'.bal && t.val[..] == t'.val[..]
    requires BlocksCopied(t.left, t'.left) && BlocksCopied(t.right, t'.right)
    requires Blocks(Entries(t'.left)) !! Blocks(Entries(t'.right))
    requires t'.val !in Blocks(Entries(t'.left)) && t'.val !in Blocks(Entries(t'.right))
    ensures BlocksCopied(t, t') && Refs(t') == Refs(t'.left) + {t'.ref} + Refs(t'.right)
    ensures Blocks(Entries(t')) == Blocks(Entries(t'.left)) + {t'.val} + Blocks(Entries(t'.right))
  {
    hide Values, Apart, Blocks;
    JoinValues(Entries(t'.left), (t.key, t'.val), Entries(t'.right));
    JoinValues(Entries(t.left), (t.key, t.val), Entries(t.right));
    ApartJoin(Entries(t'.left), (t'.key, t'.val), Entries(t'.right));
  }

  lemma RepNode<K, V>(n: AvlNode?<K, V>, t: Tree<AvlNode<K, V>, K, V>)
    requires Rep(n, t)
    ensures n == null <==> t.Leaf?
    ensures n != null ==> n == t.ref && n.key == t.key && n.val == t.val && n.balance == t.bal
  {
  }

  lemma DopyLeaf(t: Tree<AvlNode<int, Block>, int, Block>, t': Tree<AvlNode<int, Block>, int, Block>)
    requires t.Leaf? && t'.Leaf?
    ensures BlocksCopied(t, t') && Distinct(t') && Refs(t') == {} && Entries(t') == [] && Rep(null, t')
    ensures Blocks(Entries(t')) == {}
  {
  }

  lemma CopiedFacts(m: LineMap, t': Tree<AvlNode<int, Block>, int, Block>, n: nat)
    requires LinesOk(m, n) && BlocksCopied(m.tree, t')
    ensures Ordered(Compare, t') && Balanced(t') && Apart(Entries(t')) && Values(Entries(t')) == LinesOf(m)
    ensures forall e :: e in Entries(t') ==> e.1.Length == n
  {
    var s, s' := m.Contents(), Entries(t');
    ShapeFacts(Compare, m.tree, t');
    forall i | 0 <= i < |s'| ensures s'[i].1.Length == n {
      assert s[i] in s && Values(s)[i].1 == Values(s')[i].1;
    }
  }

  /** `avl_dopy` with `dopy_Counts` as its callback. */
  method DopyBlocks(nd: AvlNode?<int, Block>, ghost t: Tree<AvlNode<int, Block>, int, Block>)
      returns (nyu: AvlNode?<int, Block>, ghost t': Tree<AvlNode<int, Block>, int, Block>)
    requires Rep(nd, t)
    ensures Rep(nyu, t') && Distinct(t') && fresh(Refs(t'))
    ensures BlocksCopied(t, t') && fresh(Blocks(Entries(t')))
    decreases t, 1
  {
    hide *;
    RepNode(nd, t);
    t' := Leaf;
    if nd == null {
      DopyLeaf(t, t');
      return null, t';
    }
    assert allocated(Refs(t)) && allocated(Blocks(Entries(t.left))) && allocated(Blocks(Entries(t.right)));
    var val := DopyCounts(nd.val);
    assert allocated(val);
    var left, right, l, r := DopySides(nd, t);
    assert allocated(Refs(l)) && allocated(Refs(r)) && allocated(Blocks(Entries(l))) && allocated(Blocks(Entries(r)));
    var node := Assemble(left, nd.key, val, nd.balance, right, l, r);
    nyu, t' := node, Node(l, node, nd.key, val, nd.balance, r);
    DopyJoin(t, t');
  }

  method DopySides(nd: AvlNode<int, Block>, ghost t: Tree<AvlNode<int, Block>, int, Block>)
      returns (left: AvlNode?<int, Block>, right: AvlNode?<int, Block>,
               ghost l: Tree<AvlNode<int, Block>, int, Block>, ghost r: Tree<AvlNode<int, Block>, int, Block>)
    requires Rep(nd, t) && t.Node?
    ensures Rep(left, l) && Distinct(l) && Rep(right, r) && Distinct(r) && Refs(l) !! Refs(r)
    ensures fresh(Refs(l)) && fresh(Refs(r)) && fresh(Blocks(Entries(l))) && fresh(Blocks(Entries(r)))
    ensures Blocks(Entries(l)) !! Blocks(Entries(r))
    ensures BlocksCopied(t.left, l) && BlocksCopied(t.right, r)
    decreases t, 0
  {
    hide BlocksCopied, Entries, Distinct, Blocks;
    assert allocated(Refs(t)) && allocated(Blocks(Entries(t.left))) && allocated(Blocks(Entries(t.right)));
    left, l := DopyBlocks(nd.left, t.left);
    assert allocated(Refs(l)) && allocated(Blocks(Entries(l)));
    right, r := DopyBlocks(nd.right, t.right);
  }

  /** A map around the nodes of a tree. */
  method LineMapOf(r: AvlNode?<int, Block>, ghost t: Tree<AvlNode<int, Block>, int, Block>, ghost n: nat) returns (m: LineMap)
    requires Ordered(Compare, t) && Balanced(t) && Distinct(t) && Rep(r, t)
    requires Apart(Entries(t)) && forall e :: e in Entries(t) ==> e.1.Length == n
    ensures LinesOk(m, n) && m.tree == t && fresh(m) && fresh(m.nodeStack) && fresh(m.numStack)
  {
    hide Refs, Rep, Distinct, Balanced, Ordered, Sorted, Apart, Unshared, TotalOrder, WordFM.Valid;
    LineOrder();
    assert allocated(Refs(t)) && allocated(Blocks(Entries(t)));
    m := new WordFM(Compare);
    m.SetTree(r, t);
    HeldParts(m, n);
  }

  /** `dopy_InnerMap` */
  method DopyInnerMap(innerMap: LineMap, ghost n: nat) returns (nyu: LineMap)
    requires LinesOk(innerMap, n)
    ensures LinesOk(nyu, n) && fresh(Footprint(nyu)) && LinesOf(nyu) == LinesOf(innerMap)
  {
    hide *;
    HeldFacts(innerMap, n);
    assert allocated(Footprint(innerMap)) && allocated(Refs(innerMap.tree));
    var r, t' := DopyBlocks(innerMap.root, innerMap.tree);
    assert allocated(Refs(t')) && allocated(Blocks(Entries(t')));
    CopiedFacts(innerMap, t', n);
    nyu := LineMapOf(r, t', n);
    CellsOf(nyu);
  }

  // ---------------------------------------------------------------- showing

  lemma ShowStep(out: seq<string>, m: Inner, j: nat)
    requires Fits(m) && j < |m|
    ensures Wide(m[j].1) && 0 <= m[j].0 < ULONG
    ensures out + InnerLines(m[j..]) == out + [Row(m[j].0, m[j].1)] + InnerLines(m[j + 1..])
  {
    assert m[j..][1..] == m[j + 1..];
  }

  lemma FitsFrom(m: Inner, j: nat)
    requires Fits(m) && j <= |m|
    ensures Fits(m[j..]) && (j == |m| ==> InnerLines(m[j..]) == [])
  {
  }

  /** The lines of one function, as `show_CacheProfFile` writes them. */
  method ShowLines(m: LineMap, ghost n: nat) returns (out: seq<string>)
    requires LinesOk(m, n) && Iter.LeftDepth(m.tree) <= Iter.STACK_MAX && Fits(LinesOf(m))
    modifies m`stackTop, m`frames, m.nodeStack, m.numStack
    ensures LinesOk(m, n) && LinesOf(m) == old(LinesOf(m)) && out == InnerLines(old(LinesOf(m)))
  {
    hide *;
    ghost var s, ls := m.Contents(), LinesOf(m);
    var r := FirstLine(m, n);
    out := [];
    ghost var j := 0;
    FitsFrom(ls, j);
    assert ls[0..] == ls && [] + InnerLines(ls) == InnerLines(ls);
    while r.Some?
      invariant LinesRead(m, s, j, r, n) && Values(s) == ls && j <= |s|
      invariant Fits(ls[j..]) && out + InnerLines(ls[j..]) == InnerLines(ls)
      decreases |s| - j
    {
      ReadAt(m, s, j, r.value, n);
      ShowStep(out, ls, j);
      out := out + [Row(r.value.0, r.value.1[..])];
      r := NextLine(m, s, j, r.value, n);
      j := j + 1;
      FitsFrom(ls, j);
    }
    AllRead(m, s, j, n);
    FitsFrom(ls, j);
    assert out + [] == out;
  }
}
