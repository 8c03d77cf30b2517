/**
 The outer map of a profile (`cg_merge.c`) as it is in memory: a WordFM from file and function
 names to WordFMs of counts.  Nothing is reachable along two ways.
*/
module ProfileFiles {
  import opened Common
  import opened AvlTree
  import opened AvlMap
  import opened ProfileText
  import opened ProfileModel
  import opened ProfileSums
  import opened WordFm
  import opened WordFmApi
  import opened ProfileLines
  import Iter = WordFmIter

  type FileMap = WordFM<FileFn, LineMap>

  // ---------------------------------------------------------------- footprints and values

  ghost function Maps(s: seq<(FileFn, LineMap)>): set<LineMap> {
    set e | e in s :: e.1
  }

  /** Everything the inner maps consist of. */
  ghost function Inside(s: seq<(FileFn, LineMap)>): set<object>
    reads Maps(s)`tree
  {
    set e, o | e in s && o in Footprint(e.1) :: o
  }

  ghost function Stacks(s: seq<(FileFn, LineMap)>): set<object> {
    (set e | e in s :: e.1.nodeStack) + (set e | e in s :: e.1.numStack)
  }

  ghost function FileValues(s: seq<(FileFn, LineMap)>): (r: Outer)
    reads Maps(s), Inside(s)
    ensures |r| == |s| && forall i :: 0 <= i < |s| ==> r[i] == (s[i].0, LinesOf(s[i].1))
  {
    seq(|s|, i requires 0 <= i < |s| reads Maps(s), Inside(s) => FileValue(s, i))
  }

  ghost function FileValue(s: seq<(FileFn, LineMap)>, i: nat): (r: (FileFn, Inner))
    requires i < |s|
    reads Maps(s), Inside(s)
    ensures r == (s[i].0, LinesOf(s[i].1))
  {
    hide Footprint;
    assert s[i] in s && s[i].1 in Maps(s) && forall o :: o in Footprint(s[i].1) ==> o in Inside(s);
    (s[i].0, LinesOf(s[i].1))
  }

  /** The inner maps are in order, and share nothing with each other or with the objects of `top`. */
  ghost predicate Separate(s: seq<(FileFn, LineMap)>, top: set<object>, n: nat)
    reads Maps(s), Inside(s)
  {
    && (forall e :: e in s ==> LinesOk(e.1, n) && Footprint(e.1) !! top)
    && (forall e, f :: e in s && f in s && e.0 != f.0 ==> Footprint(e.1) !! Footprint(f.1))
  }

  /** The objects of the outer map itself. */
  ghost function Top(m: FileMap): set<object>
    reads m`tree
  {
    {m, m.nodeStack, m.numStack} + Refs(m.tree)
  }

  ghost function AllCells(m: FileMap): set<object>
    reads m`tree, Maps(m.Contents())`tree
  {
    Top(m) + Inside(m.Contents())
  }

  ghost predicate FilesOk(m: FileMap, n: nat)
    reads m, Maps(m.Contents()), AllCells(m)
  {
    m.Valid() && m.kCmp == CmpFileFn && m.stackTop == 0 && Separate(m.Contents(), Top(m), n)
  }

  ghost function Files(m: FileMap): Outer
    reads m, Maps(m.Contents()), AllCells(m)
  {
    FileValues(m.Contents())
  }

  lemma FirstFileValue(s: seq<(FileFn, LineMap)>)
    requires s != []
    ensures FileValues(s)[0] == (s[0].0, LinesOf(s[0].1)) && FileValues(s)[1..] == FileValues(s[1..])
  {
    hide LinesOf;
  }

  lemma Rejoined<T>(s: seq<T>)
    ensures s != [] ==> s == [s[0]] + s[1..]
  {
  }

  lemma {:induction false} PutFileValues(s: seq<(FileFn, LineMap)>, k: FileFn, m: LineMap)
    ensures FileValues(Put(CmpFileFn, s, k, m)) == Put(CmpFileFn, FileValues(s), k, LinesOf(m))
  {
    hide LinesOf, CmpFileFn;
    var r := Put(CmpFileFn, s, k, m);
    FirstFileValue(r);
    if s != [] {
      FirstFileValue(s);
      PutFileValues(s[1..], k, m);
      assert r[1..] == if CmpFileFn(s[0].0, k) < 0 then Put(CmpFileFn, s[1..], k, m) else r[1..];
      Rejoined(FileValues(s));
    }
    Rejoined(FileValues(r));
  }

  lemma {:induction false} LookupFileValues(s: seq<(FileFn, LineMap)>, k: FileFn)
    requires TotalOrder(CmpFileFn)
    ensures match Lookup(CmpFileFn, s, k)
      case None => Lookup(CmpFileFn, FileValues(s), k) == None
      case Some(m) => (k, m) in s && m in Maps(s) && Lookup(CmpFileFn, FileValues(s), k) == Some(LinesOf(m))
  {
    if s != [] {
      assert CmpFileFn(s[0].0, k) == 0 <==> s[0].0 == k;
      hide LinesOf, TotalOrder, CmpFileFn;
      FirstFileValue(s);
      LookupFileValues(s[1..], k);
    }
  }

  // ---------------------------------------------------------------- changing one inner map

  /** The map has taken in nothing but new objects and some of `extra`. */
  twostate predicate Grown(m: LineMap, new extra: set<object>)
    reads m
  {
    forall o :: o in Footprint(m) ==> o in old(Footprint(m)) || o in extra || fresh(o)
  }

  /** The other inner maps are as they were. */
  twostate lemma OthersKept(s: seq<(FileFn, LineMap)>, new top: set<object>, new k: FileFn, new d: LineMap, new n: nat,
                             new e: (FileFn, LineMap))
    requires (k, d) in s && e in s && e.0 != k
    requires old(allocated(top)) && old(allocated(Inside(s))) && old(Separate(s, top, n))
    requires unchanged(old(Inside(s)) - old(Footprint(d)))
    ensures LinesOk(e.1, n) && LinesOf(e.1) == old(LinesOf(e.1)) && Footprint(e.1) == old(Footprint(e.1))
    ensures old(Footprint(e.1)) <= old(Inside(s))
  {
    hide LinesOk, LinesOf, Refs, Blocks, WordFM.Contents, TotalOrder, Sorted;
    assert old(Footprint(e.1) !! Footprint(d));
    assert forall o :: o in old(Footprint(e.1)) ==> o in old(Inside(s));
    assert e.1 in old(Footprint(e.1));
  }

  lemma OnlyOne(s: seq<(FileFn, LineMap)>, k: FileFn, d: LineMap, e: (FileFn, LineMap))
    requires TotalOrder(CmpFileFn) && Sorted(CmpFileFn, s) && (k, d) in s && e in s && e.0 == k
    ensures e.1 == d
  {
    var i :| 0 <= i < |s| && s[i] == (k, d);
    var j :| 0 <= j < |s| && s[j] == e;
    assert CmpFileFn(k, k) == 0;
  }

  twostate predicate Kept(k: FileFn, new d: LineMap, new extra: set<object>, n: nat, e: (FileFn, LineMap))
    reads e.1, Footprint(e.1)
  {
    && LinesOk(e.1, n) && Grown(e.1, extra)
    && (e.0 == k ==> e.1 == d)
    && (e.0 != k ==> LinesOf(e.1) == old(LinesOf(e.1)) && Footprint(e.1) == old(Footprint(e.1)))
  }

  twostate lemma OneKept(s: seq<(FileFn, LineMap)>, new top: set<object>, new k: FileFn, new d: LineMap, new extra: set<object>, new n: nat,
                             new e: (FileFn, LineMap))
    requires TotalOrder(CmpFileFn) && Sorted(CmpFileFn, s) && (k, d) in s && e in s
    requires old(allocated(top)) && old(allocated(Inside(s))) && old(Separate(s, top, n))
    requires unchanged(old(Inside(s)) - old(Footprint(d))) && LinesOk(d, n)
    requires forall o :: o in Footprint(d) ==> o in old(Footprint(d)) || o in extra || fresh(o)
    ensures Kept(k, d, extra, n, e) && old(Footprint(e.1)) <= old(Inside(s))
  {
    hide LinesOk, LinesOf, Refs, Footprint;
    if e.0 == k {
      OnlyOne(s, k, d, e);
    } else {
      OthersKept(s, top, k, d, n, e);
    }
  }

  /** Changing one of the inner maps, where it keeps to its own and to new objects, keeps all apart. */
  twostate lemma ChangedOne(s: seq<(FileFn, LineMap)>, new top: set<object>, new k: FileFn, new d: LineMap, new extra: set<object>, new n: nat)
    requires TotalOrder(CmpFileFn) && Sorted(CmpFileFn, s) && (k, d) in s
    requires old(allocated(top)) && old(allocated(Inside(s))) && old(Separate(s, top, n))
    requires unchanged(old(Inside(s)) - old(Footprint(d))) && LinesOk(d, n)
    requires forall o :: o in Footprint(d) ==> o in old(Footprint(d)) || o in extra || fresh(o)
    requires extra !! top && extra !! old(Inside(s))
    ensures Separate(s, top, n)
    ensures forall e :: e in s ==> e.0 == k || LinesOf(e.1) == old(LinesOf(e.1))
    ensures forall e :: e in s && e.0 == k ==> e.1 == d
    ensures forall o :: o in Inside(s) ==> o in old(Inside(s)) || o in extra || fresh(o)
  {
    hide LinesOk, LinesOf, Refs, Footprint;
    forall e | e in s ensures Kept(k, d, extra, n, e) && old(Footprint(e.1)) <= old(Inside(s)) {
      OneKept(s, top, k, d, extra, n, e);
    }
    forall e, f | e in s && f in s && e.0 != f.0 ensures Footprint(e.1) !! Footprint(f.1) {
      assert old(Footprint(e.1) !! Footprint(f.1));
      assert Kept(k, d, extra, n, e) && Kept(k, d, extra, n, f);
    }
  }

  lemma InFootprint(m: LineMap)
    ensures m in Footprint(m)
  {
  }

  // ---------------------------------------------------------------- operations

  lemma Parts(m: FileMap)
    ensures Top(m) == {m, m.nodeStack, m.numStack} + Refs(m.tree) && m.Contents() == Entries(m.tree)
    ensures AllCells(m) == Top(m) + Inside(m.Contents()) && Maps(m.Contents()) <= Inside(m.Contents())
    ensures Files(m) == FileValues(m.Contents()) && Stacks(m.Contents()) <= Inside(m.Contents())
  {
    hide Refs, Entries;
    forall d | d in Maps(m.Contents())
      ensures d in Inside(m.Contents()) && d.nodeStack in Inside(m.Contents()) && d.numStack in Inside(m.Contents())
    {
      assert d in Footprint(d) && d.nodeStack in Footprint(d) && d.numStack in Footprint(d);
    }
  }

  lemma FilesFacts(m: FileMap, n: nat)
    requires FilesOk(m, n)
    ensures m.Valid() && m.kCmp == CmpFileFn && TotalOrder(CmpFileFn) && Sorted(CmpFileFn, m.Contents())
    ensures m.stackTop == 0 && Separate(m.Contents(), Top(m), n) && Inside(m.Contents()) !! Top(m)
  {
    hide LinesOk, Footprint, Refs;
  }

  lemma FilesFrom(m: FileMap, n: nat)
    requires m.Valid() && m.kCmp == CmpFileFn && m.stackTop == 0 && Separate(m.Contents(), Top(m), n)
    ensures FilesOk(m, n)
  {
  }

  lemma PutFileAtKey(s: seq<(FileFn, LineMap)>, was: Outer, now: Outer, k: FileFn, v: Inner)
    requires TotalOrder(CmpFileFn) && Sorted(CmpFileFn, s) && Lookup(CmpFileFn, was, k).Some?
    requires |s| == |was| == |now| && forall i :: 0 <= i < |s| ==> was[i].0 == s[i].0
    requires forall i :: 0 <= i < |s| ==> now[i] == if s[i].0 == k then (k, v) else was[i]
    ensures now == Put(CmpFileFn, was, k, v)
  {
    PutAtKey(CmpFileFn, was, now, k, v);
  }

  lemma InsideOf(s: seq<(FileFn, LineMap)>, k: FileFn, d: LineMap, top: set<object>, n: nat)
    requires Separate(s, top, n) && (k, d) in s
    ensures LinesOk(d, n) && Footprint(d) <= Inside(s) && Footprint(d) !! top
  {
  }

  lemma SeparatePut(s: seq<(FileFn, LineMap)>, k: FileFn, inner: LineMap, top: set<object>, top': set<object>, n: nat)
    requires TotalOrder(CmpFileFn) && Sorted(CmpFileFn, s) && Lookup(CmpFileFn, s, k) == None
    requires Separate(s, top, n) && Inside(s) !! top'
    requires LinesOk(inner, n) && Footprint(inner) !! top' && Footprint(inner) !! Inside(s)
    ensures Separate(Put(CmpFileFn, s, k, inner), top', n)
    ensures Inside(Put(CmpFileFn, s, k, inner)) <= Inside(s) + Footprint(inner)
  {
    hide LinesOk, Footprint, Lookup, Put, CmpFileFn;
    PutSorted(CmpFileFn, s, k, inner);
    forall e | e in s ensures Footprint(e.1) <= Inside(s) {
    }
  }

  /** A new file and function gets the map `inner` itself. */
  method BindMap(m: FileMap, key: FileFn, inner: LineMap, ghost n: nat)
    requires FilesOk(m, n) && LinesOk(inner, n) && Footprint(inner) !! AllCells(m)
    requires Lookup(CmpFileFn, m.Contents(), key) == None
    modifies m`root, m`tree, Refs(m.tree)
    ensures FilesOk(m, n) && m.Contents() == Put(CmpFileFn, old(m.Contents()), key, inner)
    ensures Files(m) == Put(CmpFileFn, old(Files(m)), key, old(LinesOf(inner)))
    ensures forall o :: o in AllCells(m) ==> o in old(AllCells(m)) || o in old(Footprint(inner)) || fresh(o)
  {
    hide *;
    FilesFacts(m, n);
    Parts(m);
    ghost var s, top := m.Contents(), Top(m);
    assert allocated(top) && allocated(Inside(s)) && allocated(Maps(s)) && allocated(Footprint(inner)) && allocated(Refs(m.tree));
    InFootprint(inner);
    m.AddToFM(key, inner);
    Parts(m);
    assert Separate(s, top, n) && LinesOk(inner, n) && Footprint(inner) == old(Footprint(inner));
    assert forall o :: o in Top(m) ==> o in top || fresh(o);
    PutFileValues(s, key, inner);
    SeparatePut(s, key, inner, top, Top(m), n);
    FilesFrom(m, n);
  }

  /** `addCountsToMap` for the map of `key`. */
  method AddToMap(m: FileMap, key: FileFn, countsMap: LineMap, lnno: int, newCounts: Block, ghost n: nat) returns (found: bool)
    requires FilesOk(m, n) && Lookup(CmpFileFn, m.Contents(), key) == Some(countsMap)
    requires newCounts.Length == n && newCounts !in AllCells(m)
    modifies Inside(m.Contents())
    ensures FilesOk(m, n) && m.Contents() == old(m.Contents())
    ensures var o := Lookup(CmpFileFn, old(Files(m)), key);
      o.Some? && Files(m) == Put(CmpFileFn, old(Files(m)), key, AddLine(o.value, lnno, newCounts[..]))
    ensures forall o :: o in AllCells(m) ==> o in old(AllCells(m)) || (!found && o == newCounts) || fresh(o)
  {
    hide *;
    FilesFacts(m, n);
    Parts(m);
    ghost var s, top, was := m.Contents(), Top(m), FileValues(m.Contents());
    LookupFileValues(s, key);
    InsideOf(s, key, countsMap, top, n);
    assert allocated(top) && allocated(Inside(s)) && allocated(Maps(s)) && allocated(Refs(m.tree));
    found := AddCountsToMap(countsMap, lnno, newCounts, n);
    ChangedOne(s, top, key, countsMap, if found then {} else {newCounts}, n);
    PutFileAtKey(s, was, FileValues(s), key, LinesOf(countsMap));
    FilesFrom(m, n);
    Parts(m);
  }

  lemma {:induction false} PutPut<K(!new), V>(cmp: (K, K) -> int, s: seq<(K, V)>, k: K, v: V, w: V)
    requires TotalOrder(cmp)
    ensures Lookup(cmp, Put(cmp, s, k, v), k) == Some(v)
    ensures Put(cmp, Put(cmp, s, k, v), k, w) == Put(cmp, s, k, w)
  {
    assert cmp(k, k) == 0;
    if s != [] && cmp(s[0].0, k) < 0 {
      PutPut(cmp, s[1..], k, v, w);
      assert Put(cmp, s, k, v)[1..] == Put(cmp, s[1..], k, v);
    }
  }

  /** What `handle_counts` does to the maps.  The block may be freed if it was not taken into them. */
  method AddRowTo(m: FileMap, topKey: FileFn, lnno: int, newCounts: Block, ghost n: nat) returns (freeNewCounts: bool)
    requires FilesOk(m, n) && newCounts.Length == n && newCounts !in AllCells(m)
    modifies AllCells(m)
    ensures FilesOk(m, n) && Files(m) == AddRow(old(Files(m)), topKey, lnno, newCounts[..])
    ensures forall o :: o in AllCells(m) ==> o in old(AllCells(m)) || (!freeNewCounts && o == newCounts) || fresh(o)
  {
    hide *;
    FilesFacts(m, n);
    Parts(m);
    LookupFileValues(m.Contents(), topKey);
    ghost var was := Files(m);
    assert allocated(AllCells(m)) && allocated(Inside(m.Contents()));
    var found, countsMap := m.LookupFM(topKey);
    assert FilesOk(m, n);
    if found {
      freeNewCounts := AddToMap(m, topKey, countsMap.value, lnno, newCounts, n);
    } else {
      var nyu := NewLineMap(n);
      assert FilesOk(m, n);
      BindMap(m, topKey, nyu, n);
      Parts(m);
      PutPut(CmpFileFn, old(m.Contents()), topKey, nyu, nyu);
      PutPut(CmpFileFn, was, topKey, [], AddLine([], lnno, newCounts[..]));
      freeNewCounts := AddToMap(m, topKey, nyu, lnno, newCounts, n);
    }
    RowAdded(was, topKey, lnno, newCounts[..]);
  }

  lemma RowAdded(m: Outer, k: FileFn, line: int, c: Counts)
    ensures Lookup(CmpFileFn, m, k) == None ==> AddRow(m, k, line, c) == Put(CmpFileFn, m, k, AddLine([], line, c))
    ensures Lookup(CmpFileFn, m, k).Some? ==>
      AddRow(m, k, line, c) == Put(CmpFileFn, m, k, AddLine(Lookup(CmpFileFn, m, k).value, line, c))
  {
  }

  // ---------------------------------------------------------------- iterating

  /** No inner map is too deep for its iterator. */
  ghost predicate Shallow(s: seq<(FileFn, LineMap)>)
    reads Maps(s)`tree
  {
    forall e :: e in s ==> Iter.LeftDepth(e.1.tree) <= Iter.STACK_MAX
  }

  /** An iteration over the files and functions `s` is at position `j`. */
  ghost predicate FilesRead(m: FileMap, s: seq<(FileFn, LineMap)>, j: nat, r: Option<(FileFn, LineMap)>, n: nat)
    reads m, m.nodeStack, m.numStack, Refs(m.tree), Maps(s), Inside(s)
  {
    m.Reading(s, j, r) && m.kCmp == CmpFileFn && Separate(s, Top(m), n) && Shallow(s)
  }

  lemma ReadParts(m: FileMap, s: seq<(FileFn, LineMap)>, j: nat, r: Option<(FileFn, LineMap)>, n: nat)
    requires FilesRead(m, s, j, r, n)
    ensures m.Reading(s, j, r) && m.Contents() == s && m.kCmp == CmpFileFn && Separate(s, Top(m), n) && Shallow(s)
  {
  }

  lemma FilesReadFrom(m: FileMap, s: seq<(FileFn, LineMap)>, j: nat, r: Option<(FileFn, LineMap)>, n: nat)
    requires m.Reading(s, j, r) && m.kCmp == CmpFileFn && Separate(s, Top(m), n) && Shallow(s)
    ensures FilesRead(m, s, j, r, n)
  {
  }

  lemma FileAt(m: FileMap, s: seq<(FileFn, LineMap)>, j: nat, r: (FileFn, LineMap), n: nat)
    requires FilesRead(m, s, j, Some(r), n)
    ensures j < |s| && s[j] == r && r in s && LinesOk(r.1, n) && Iter.LeftDepth(r.1.tree) <= Iter.STACK_MAX
    ensures Footprint(r.1) <= Inside(s) && FileValues(s)[j] == (r.0, LinesOf(r.1))
    ensures TotalOrder(CmpFileFn) && Sorted(CmpFileFn, s) && Separate(s, Top(m), n) && Inside(s) !! Top(m)
    ensures r.1 in Maps(s) && r.1.nodeStack in Stacks(s) && r.1.numStack in Stacks(s)
  {
    hide LinesOk, Footprint, LinesOf, Refs;
    assert s[j] in s;
  }

  lemma AllFilesRead(m: FileMap, s: seq<(FileFn, LineMap)>, j: nat, n: nat)
    requires FilesRead(m, s, j, None, n)
    ensures FilesOk(m, n) && m.Contents() == s && Files(m) == FileValues(s) && j == |s|
  {
    hide Separate, FileValues;
  }

  method FirstFile(m: FileMap, ghost n: nat) returns (r: Option<(FileFn, LineMap)>)
    requires FilesOk(m, n) && Iter.LeftDepth(m.tree) <= Iter.STACK_MAX && Shallow(m.Contents())
    modifies m`stackTop, m`frames, m.nodeStack, m.numStack
    ensures FilesRead(m, old(m.Contents()), 0, r, n) && FileValues(old(m.Contents())) == old(Files(m))
    ensures Inside(m.Contents()) == old(Inside(m.Contents()))
  {
    hide Refs, WordFM.Valid, WordFM.Reading, Separate, FileValues, Shallow, Inside;
    FilesFacts(m, n);
    Parts(m);
    assert allocated(Top(m)) && allocated(Inside(m.Contents())) && allocated(Maps(m.Contents()));
    r := m.FirstBinding();
  }

  method NextFile(m: FileMap, ghost s: seq<(FileFn, LineMap)>, ghost j: nat, r0: (FileFn, LineMap), ghost n: nat)
      returns (r: Option<(FileFn, LineMap)>)
    requires FilesRead(m, s, j, Some(r0), n)
    modifies m`stackTop, m`frames, m.nodeStack, m.numStack
    ensures FilesRead(m, s, j + 1, r, n) && FileValues(s) == old(FileValues(s)) && Inside(s) == old(Inside(s))
  {
    hide *;
    ReadParts(m, s, j, Some(r0), n);
    Parts(m);
    FileAt(m, s, j, r0, n);
    assert allocated(Top(m)) && allocated(Inside(s)) && allocated(Maps(s));
    r := m.NextBinding(s, j, Some(r0));
    Parts(m);
    FilesReadFrom(m, s, j + 1, r, n);
  }

  // ---------------------------------------------------------------- merging

  /** `merge_CacheProfInfo` for a file and function that both maps have. */
  method MergeIntoMap(dst: FileMap, soKey: FileFn, doVal: LineMap, soVal: LineMap, ghost n: nat)
    requires FilesOk(dst, n) && Lookup(CmpFileFn, dst.Contents(), soKey) == Some(doVal)
    requires LinesOk(soVal, n) && AllCells(dst) !! Footprint(soVal) && Iter.LeftDepth(soVal.tree) <= Iter.STACK_MAX
    modifies Inside(dst.Contents()), soVal`stackTop, soVal`frames, soVal.nodeStack, soVal.numStack
    ensures FilesOk(dst, n) && Files(dst) == MergeFile(old(Files(dst)), soKey, old(LinesOf(soVal)))
    ensures LinesOk(soVal, n) && LinesOf(soVal) == old(LinesOf(soVal))
    ensures forall o :: o in AllCells(dst) ==> o in old(AllCells(dst)) || fresh(o)
  {
    hide *;
    FilesFacts(dst, n);
    Parts(dst);
    ghost var s, top, was, ls := dst.Contents(), Top(dst), FileValues(dst.Contents()), LinesOf(soVal);
    LookupFileValues(s, soKey);
    InsideOf(s, soKey, doVal, top, n);
    StackInFootprint(soVal);
    assert allocated(top) && allocated(Inside(s)) && allocated(Maps(s)) && allocated(Refs(dst.tree));
    MergeLines(doVal, soVal, n);
    ChangedOne(s, top, soKey, doVal, {}, n);
    PutFileAtKey(s, was, FileValues(s), soKey, LinesOf(doVal));
    FilesFrom(dst, n);
    Parts(dst);
    FileMerged(was, soKey, ls);
  }

  lemma StackInFootprint(m: LineMap)
    ensures m in Footprint(m) && m.nodeStack in Footprint(m) && m.numStack in Footprint(m)
  {
  }

  lemma FileMerged(d: Outer, k: FileFn, m: Inner)
    ensures Lookup(CmpFileFn, d, k) == None ==> MergeFile(d, k, m) == Put(CmpFileFn, d, k, m)
    ensures Lookup(CmpFileFn, d, k).Some? ==>
      MergeFile(d, k, m) == Put(CmpFileFn, d, k, MergeInner(Lookup(CmpFileFn, d, k).value, m))
  {
  }

  /** `merge_CacheProfInfo` for one file and function of the source map; a new one is copied with its counts. */
  method MergeMap(dst: FileMap, soKey: FileFn, soVal: LineMap, ghost n: nat)
    requires FilesOk(dst, n) && LinesOk(soVal, n) && AllCells(dst) !! Footprint(soVal)
    requires Iter.LeftDepth(soVal.tree) <= Iter.STACK_MAX
    modifies AllCells(dst), soVal`stackTop, soVal`frames, soVal.nodeStack, soVal.numStack
    ensures FilesOk(dst, n) && Files(dst) == MergeFile(old(Files(dst)), soKey, old(LinesOf(soVal)))
    ensures LinesOk(soVal, n) && LinesOf(soVal) == old(LinesOf(soVal))
    ensures forall o :: o in AllCells(dst) ==> o in old(AllCells(dst)) || fresh(o)
  {
    hide *;
    FilesFacts(dst, n);
    Parts(dst);
    LookupFileValues(dst.Contents(), soKey);
    StackInFootprint(soVal);
    ghost var was, ls := Files(dst), LinesOf(soVal);
    assert allocated(AllCells(dst)) && allocated(Inside(dst.Contents())) && allocated(Footprint(soVal));
    var found, doVal := dst.LookupFM(soKey);
    if !found {
      var copy := DopyInnerMap(soVal, n);
      assert FilesOk(dst, n) && Files(dst) == was && LinesOk(soVal, n) && LinesOf(soVal) == ls;
      assert allocated(Footprint(soVal));
      BindMap(dst, soKey, copy, n);
    } else {
      MergeIntoMap(dst, soKey, doVal.value, soVal, n);
    }
    FileMerged(was, soKey, ls);
  }

  /** The files and functions `s` of `src` are being merged into `dst`, up to position `j`. */
  ghost predicate MergingMaps(dst: FileMap, src: FileMap, s: seq<(FileFn, LineMap)>, j: nat, r: Option<(FileFn, LineMap)>, n: nat)
    reads dst, Maps(dst.Contents()), AllCells(dst)
    reads src, src.nodeStack, src.numStack, Refs(src.tree), Maps(s), Inside(s)
  {
    FilesOk(dst, n) && FilesRead(src, s, j, r, n) && AllCells(dst) !! Top(src) && AllCells(dst) !! Inside(s)
  }

  lemma MergingParts(dst: FileMap, src: FileMap, s: seq<(FileFn, LineMap)>, j: nat, r: Option<(FileFn, LineMap)>, n: nat)
    ensures MergingMaps(dst, src, s, j, r, n) <==>
      FilesOk(dst, n) && FilesRead(src, s, j, r, n) && AllCells(dst) !! Top(src) && AllCells(dst) !! Inside(s)
  {
  }

  method MergeNextMap(dst: FileMap, src: FileMap, ghost s: seq<(FileFn, LineMap)>, ghost j: nat, r0: (FileFn, LineMap),
                      ghost n: nat)
      returns (r: Option<(FileFn, LineMap)>)
    requires MergingMaps(dst, src, s, j, Some(r0), n)
    modifies AllCells(dst), src`stackTop, src`frames, src.nodeStack, src.numStack
    modifies Maps(s)`stackTop, Maps(s)`frames, Stacks(s)
    ensures MergingMaps(dst, src, s, j + 1, r, n) && FileValues(s) == old(FileValues(s)) && Inside(s) == old(Inside(s))
    ensures j < |s| && Files(dst) == MergeFile(old(Files(dst)), s[j].0, FileValues(s)[j].1) && Top(src) == old(Top(src))
    ensures forall o :: o in AllCells(dst) ==> o in old(AllCells(dst)) || fresh(o)
  {
    hide *;
    MergingParts(dst, src, s, j, Some(r0), n);
    FileAt(src, s, j, r0, n);
    ReadParts(src, s, j, Some(r0), n);
    Parts(src);
    StackInFootprint(r0.1);
    ghost var top, inside, was := Top(src), Inside(s), FileValues(s);
    assert allocated(top) && allocated(inside) && allocated(Maps(s)) && allocated(AllCells(dst)) && allocated(Refs(src.tree));
    MergeMap(dst, r0.0, r0.1, n);
    ChangedOne(s, top, r0.0, r0.1, {}, n);
    assert FileValues(s) == was;
    Parts(src);
    FilesReadFrom(src, s, j, Some(r0), n);
    Parts(dst);
    assert allocated(AllCells(dst)) && allocated(Maps(dst.Contents())) && allocated(Inside(dst.Contents()));
    r := NextFile(src, s, j, r0, n);
    assert Inside(s) == inside && Top(src) == top;
    MergingParts(dst, src, s, j + 1, r, n);
  }

  lemma MergeOuterStep(d: Outer, s: Outer, j: nat)
    requires j < |s|
    ensures MergeOuter(d, s[j..]) == MergeOuter(MergeFile(d, s[j].0, s[j].1), s[j + 1..])
  {
    assert s[j..][1..] == s[j + 1..];
  }

  lemma NothingLeft(d: Outer, s: Outer)
    ensures MergeOuter(d, s[|s|..]) == d && s[0..] == s
  {
  }

  /** The loops of `merge_CacheProfInfo`.  The maps still have nothing in common, and of the source only iterators
      have been touched. */
  method MergeMaps(dst: FileMap, src: FileMap, ghost n: nat)
    requires FilesOk(dst, n) && FilesOk(src, n) && AllCells(dst) !! AllCells(src)
    requires Iter.LeftDepth(src.tree) <= Iter.STACK_MAX && Shallow(src.Contents())
    modifies AllCells(dst), src`stackTop, src`frames, src.nodeStack, src.numStack
    modifies Maps(src.Contents())`stackTop, Maps(src.Contents())`frames, Stacks(src.Contents())
    ensures FilesOk(dst, n) && Files(dst) == MergeOuter(old(Files(dst)), old(Files(src)))
    ensures FilesOk(src, n) && Files(src) == old(Files(src))
    ensures AllCells(dst) !! AllCells(src) && AllCells(src) == old(AllCells(src))
    ensures forall o :: o in AllCells(dst) ==> o in old(AllCells(dst)) || fresh(o)
  {
    hide *;
    Parts(src);
    Parts(dst);
    ghost var s, top, inside, fs, cells := src.Contents(), Top(src), Inside(src.Contents()), Files(src), AllCells(dst);
    ghost var goal := MergeOuter(Files(dst), fs);
    assert allocated(cells) && allocated(Maps(dst.Contents())) && allocated(Inside(dst.Contents()));
    var r := FirstFile(src, n);
    ghost var j := 0;
    NothingLeft(Files(dst), fs);
    MergingParts(dst, src, s, j, r, n);
    while r.Some?
      invariant MergingMaps(dst, src, s, j, r, n) && FileValues(s) == fs && Inside(s) == inside && Top(src) == top
      invariant j <= |s| && MergeOuter(Files(dst), fs[j..]) == goal
      invariant forall o :: o in AllCells(dst) ==> o in cells || fresh(o)
      decreases |s| - j
    {
      ghost var d := Files(dst);
      r := MergeNextMap(dst, src, s, j, r.value, n);
      MergeOuterStep(d, fs, j);
      j := j + 1;
    }
    MergingParts(dst, src, s, j, None, n);
    AllFilesRead(src, s, j, n);
    NothingLeft(Files(dst), fs);
    Parts(src);
  }

  method NewFileMap(ghost n: nat) returns (m: FileMap)
    ensures FilesOk(m, n) && Files(m) == [] && fresh(AllCells(m)) && m.Contents() == []
  {
    hide *;
    FileFnOrder();
    m := new WordFM(CmpFileFn);
    EmptyFiles(m, n);
  }

  lemma EmptyFiles(m: FileMap, n: nat)
    requires m.Valid() && m.kCmp == CmpFileFn && m.stackTop == 0 && m.Contents() == []
    ensures FilesOk(m, n) && Files(m) == [] && AllCells(m) == {m, m.nodeStack, m.numStack} + Refs(m.tree)
  {
    hide LinesOk, LinesOf, Footprint, Refs, WordFM.Valid, WordFM.Contents, CmpFileFn;
  }

  // ---------------------------------------------------------------- showing

  lemma OuterStep(out: seq<string>, m: Outer, j: nat)
    requires OuterFits(m) && j < |m|
    ensures Fits(m[j].1) && OuterFits(m[j..]) && OuterFits(m[j + 1..])
    ensures out + OuterLines(m[j..])
         == out + ["fl=" + m[j].0.file, "fn=" + m[j].0.fn] + InnerLines(m[j].1) + OuterLines(m[j + 1..])
  {
    assert m[j..][1..] == m[j + 1..];
    assert out + (["fl=" + m[j].0.file, "fn=" + m[j].0.fn] + InnerLines(m[j].1) + OuterLines(m[j + 1..]))
        == out + ["fl=" + m[j].0.file, "fn=" + m[j].0.fn] + InnerLines(m[j].1) + OuterLines(m[j + 1..]);
  }

  lemma OuterEnds(out: seq<string>, m: Outer)
    requires OuterFits(m)
    ensures OuterFits(m[|m|..]) && out + OuterLines(m[|m|..]) == out && m[0..] == m
  {
  }

  method ShowNextMap(m: FileMap, ghost s: seq<(FileFn, LineMap)>, ghost j: nat, r0: (FileFn, LineMap), ghost n: nat)
      returns (out: seq<string>, r: Option<(FileFn, LineMap)>)
    requires FilesRead(m, s, j, Some(r0), n) && Fits(LinesOf(r0.1))
    modifies m`stackTop, m`frames, m.nodeStack, m.numStack, Maps(s)`stackTop, Maps(s)`frames, Stacks(s)
    ensures FilesRead(m, s, j + 1, r, n) && FileValues(s) == old(FileValues(s)) && Inside(s) == old(Inside(s))
    ensures Top(m) == old(Top(m))
    ensures j < |s| && out == ["fl=" + s[j].0.file, "fn=" + s[j].0.fn] + InnerLines(FileValues(s)[j].1)
  {
    hide *;
    FileAt(m, s, j, r0, n);
    ReadParts(m, s, j, Some(r0), n);
    Parts(m);
    StackInFootprint(r0.1);
    ghost var top, was := Top(m), FileValues(s);
    assert allocated(top) && allocated(Inside(s)) && allocated(Maps(s)) && allocated(Refs(m.tree));
    out := ShowLines(r0.1, n);
    out := ["fl=" + r0.0.file, "fn=" + r0.0.fn] + out;
    ChangedOne(s, top, r0.0, r0.1, {}, n);
    assert FileValues(s) == was;
    Parts(m);
    FilesReadFrom(m, s, j, Some(r0), n);
    r := NextFile(m, s, j, r0, n);
  }

  /** The loops of `show_CacheProfFile`. */
  method ShowMaps(m: FileMap, ghost n: nat) returns (out: seq<string>)
    requires FilesOk(m, n) && Iter.LeftDepth(m.tree) <= Iter.STACK_MAX && Shallow(m.Contents()) && OuterFits(Files(m))
    modifies m`stackTop, m`frames, m.nodeStack, m.numStack
    modifies Maps(m.Contents())`stackTop, Maps(m.Contents())`frames, Stacks(m.Contents())
    ensures FilesOk(m, n) && Files(m) == old(Files(m)) && AllCells(m) == old(AllCells(m))
    ensures out == OuterLines(old(Files(m)))
  {
    hide *;
    Parts(m);
    ghost var s, fs, inside, top := m.Contents(), Files(m), Inside(m.Contents()), Top(m);
    var r := FirstFile(m, n);
    out := [];
    ghost var j := 0;
    OuterEnds(out, fs);
    assert [] + OuterLines(fs) == OuterLines(fs);
    while r.Some?
      invariant FilesRead(m, s, j, r, n) && FileValues(s) == fs && Inside(s) == inside && Top(m) == top && j <= |s|
      invariant OuterFits(fs[j..]) && out + OuterLines(fs[j..]) == OuterLines(fs)
      decreases |s| - j
    {
      FileAt(m, s, j, r.value, n);
      OuterStep(out, fs, j);
      var shown;
      shown, r := ShowNextMap(m, s, j, r.value, n);
      assert out + ["fl=" + s[j].0.file, "fn=" + s[j].0.fn] + InnerLines(fs[j].1) == out + shown;
      out := out + shown;
      j := j + 1;
    }
    AllFilesRead(m, s, j, n);
    Parts(m);
    OuterEnds(out, fs);
  }
}
