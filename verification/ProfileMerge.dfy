/**
 Merging adds counts point by point, so its result does not depend on the order of the
 files.
*/
module ProfileMerge {
  import opened Common
  import opened AvlTree
  import opened AvlMap
  import opened ProfileText
  import opened ProfileModel
  import opened ProfileSums

  lemma Differ<K(!new), V>(cmp: (K, K) -> int, a: seq<(K, V)>, b: seq<(K, V)>) returns (k: K)
    requires TotalOrder(cmp) && Sorted(cmp, a) && Sorted(cmp, b)
    requires (a == []) != (b == []) || (a != [] && b != [] && a[0].0 != b[0].0)
    ensures Lookup(cmp, a, k) != Lookup(cmp, b, k)
  {
    if a == [] || (b != [] && cmp(b[0].0, a[0].0) < 0) {
      k := b[0].0;
      Absent(cmp, a, k);
    } else {
      k := a[0].0;
      Absent(cmp, b, k);
    }
  }

  /** Two sorted lists with the same bindings are the same. */
  lemma {:induction false} SameLookups<K(!new), V>(cmp: (K, K) -> int, a: seq<(K, V)>, b: seq<(K, V)>)
    requires TotalOrder(cmp) && Sorted(cmp, a) && Sorted(cmp, b)
    requires forall k :: Lookup(cmp, a, k) == Lookup(cmp, b, k)
    ensures a == b
  {
    if (a == []) != (b == []) || (a != [] && b != [] && a[0].0 != b[0].0) {
      var k := Differ(cmp, a, b);
      assert false;
    } else if a != [] {
      HeadLookup(cmp, a);
      HeadLookup(cmp, b);
      hide Lookup, Sorted, TotalOrder;
      assert Lookup(cmp, a, a[0].0) == Lookup(cmp, b, a[0].0);
      forall k ensures Lookup(cmp, a[1..], k) == Lookup(cmp, b[1..], k) {
        TailLookup(cmp, a, k);
        TailLookup(cmp, b, k);
      }
      SameLookups(cmp, a[1..], b[1..]);
      assert a == [a[0]] + a[1..] && b == [b[0]] + b[1..];
    }
  }

  lemma HeadLookup<K(!new), V>(cmp: (K, K) -> int, m: seq<(K, V)>)
    requires TotalOrder(cmp) && Sorted(cmp, m) && m != []
    ensures Lookup(cmp, m, m[0].0) == Some(m[0].1) && Sorted(cmp, m[1..])
  {
    assert cmp(m[0].0, m[0].0) == 0;
  }

  lemma TailLookup<K(!new), V>(cmp: (K, K) -> int, m: seq<(K, V)>, k: K)
    requires TotalOrder(cmp) && Sorted(cmp, m) && m != []
    ensures Lookup(cmp, m[1..], k) == if k == m[0].0 then None else Lookup(cmp, m, k)
  {
    if k == m[0].0 {
      if |m| > 1 {
        assert cmp(m[0].0, m[1].0) < 0;
      }
      Absent(cmp, m[1..], k);
    }
  }

  // ---------------------------------------------------------------- point by point

  function Plus(a: Option<Counts>, b: Option<Counts>): Option<Counts> {
    if a.None? then b
    else if b.None? then a
    else if |a.value| == |b.value| then Some(Add(a.value, b.value)) else a
  }

  lemma AddLineAt(d: Inner, l: nat, c: Counts, n: nat, line: int)
    requires InnerOk(d, n) && |c| == n && Wide(c) && l < ULONG
    ensures InnerOk(AddLine(d, l, c), n)
    ensures Lookup(Compare, AddLine(d, l, c), line)
         == if line == l then Plus(Lookup(Compare, d, line), Some(c)) else Lookup(Compare, d, line)
  {
    LineOrder();
    AddLineTotal(d, l, c, n);
    hide Put, Total, Sum;
    LookupPut(Compare, d, l, c, line);
    if Lookup(Compare, d, l).Some? {
      LookupOk(d, n, l);
      LookupPut(Compare, d, l, Add(Lookup(Compare, d, l).value, c), line);
    }
  }

  lemma InnerHead(s: Inner, n: nat)
    requires InnerOk(s, n) && s != []
    ensures |s[0].1| == n && Wide(s[0].1) && 0 <= s[0].0 < ULONG && InnerOk(s[1..], n)
  {
  }

  lemma LookupOk(m: Inner, n: nat, line: int)
    requires InnerOk(m, n) && Lookup(Compare, m, line).Some?
    ensures |Lookup(Compare, m, line).value| == n
  {
    LineOrder();
    var i := LookupIn(Compare, m, line);
  }

  /** The counts of a line after a merge are the sum of those before. */
  lemma {:induction false} MergeInnerAt(d: Inner, s: Inner, n: nat, line: int)
    requires InnerOk(d, n) && InnerOk(s, n)
    ensures Lookup(Compare, MergeInner(d, s), line) == Plus(Lookup(Compare, d, line), Lookup(Compare, s, line))
    decreases |s|
  {
    if s != [] {
      var l, c := s[0].0, s[0].1;
      LineOrder();
      assert Sorted(Compare, s);
      InnerHead(s, n);
      hide AddLine, Add, InnerOk, Sorted, Put;
      AddLineAt(d, l, c, n, line);
      MergeInnerAt(AddLine(d, l, c), s[1..], n, line);
      TailLookup(Compare, s, line);
    }
  }

  function PlusInner(a: Option<Inner>, b: Option<Inner>): Option<Inner> {
    if a.None? then b else if b.None? then a else Some(MergeInner(a.value, b.value))
  }

  lemma {:induction false} MergeOuterAt(d: Outer, s: Outer, n: nat, k: FileFn)
    requires OuterOk(d, n) && OuterOk(s, n)
    ensures Lookup(CmpFileFn, MergeOuter(d, s), k) == PlusInner(Lookup(CmpFileFn, d, k), Lookup(CmpFileFn, s, k))
    decreases |s|
  {
    if s != [] {
      FileFnOrder();
      assert Sorted(CmpFileFn, s);
      OuterHead(s, n);
      hide MergeInner, OuterOk, InnerOk, Sorted, Put, CmpFileFn;
      MergeFileAt(d, s[0].0, s[0].1, n, k);
      MergeOuterAt(MergeFile(d, s[0].0, s[0].1), s[1..], n, k);
      TailLookup(CmpFileFn, s, k);
    }
  }

  lemma OuterHead(s: Outer, n: nat)
    requires OuterOk(s, n) && s != []
    ensures s[0].1 != [] && InnerOk(s[0].1, n) && OuterOk(s[1..], n)
  {
  }

  lemma MergeFileAt(d: Outer, f: FileFn, i: Inner, n: nat, k: FileFn)
    requires OuterOk(d, n) && InnerOk(i, n) && i != []
    ensures OuterOk(MergeFile(d, f, i), n)
    ensures Lookup(CmpFileFn, MergeFile(d, f, i), k)
         == if k == f then PlusInner(Lookup(CmpFileFn, d, k), Some(i)) else Lookup(CmpFileFn, d, k)
  {
    FileFnOrder();
    assert Sorted(CmpFileFn, d);
    hide MergeInner, OuterOk, InnerOk, Sorted, Put, CmpFileFn;
    var o := Lookup(CmpFileFn, d, f);
    var inner := if o.Some? then MergeInner(o.value, i) else i;
    if o.Some? {
      FoundOk(d, f, n);
      MergeInnerTotal(o.value, i, n);
    }
    OuterPut(d, f, inner, n);
    LookupPut(CmpFileFn, d, f, inner, k);
  }

  /** The counts of a line of a function of a file. */
  function At(m: Outer, k: FileFn, line: int): Option<Counts> {
    match Lookup(CmpFileFn, m, k)
    case None => None
    case Some(inner) => Lookup(Compare, inner, line)
  }

  /** Merging adds counts for each file, function, line and event, and loses none. */
  lemma MergeAdds(d: Profile, s: Profile, k: FileFn, line: int)
    requires ProfileOk(d) && ProfileOk(s) && d.eventsLine == s.eventsLine
    ensures Merge(d, s).Ok?
    ensures At(Merge(d, s).value.outer, k, line) == Plus(At(d.outer, k, line), At(s.outer, k, line))
  {
    MergeOuterAt(d.outer, s.outer, d.nEvents, k);
    var a, b := Lookup(CmpFileFn, d.outer, k), Lookup(CmpFileFn, s.outer, k);
    if a.Some? && b.Some? {
      FoundOk(d.outer, k, d.nEvents);
      FoundOk(s.outer, k, d.nEvents);
      MergeInnerAt(a.value, b.value, d.nEvents, line);
    }
  }

  // ---------------------------------------------------------------- order

  lemma InnerCommutes(a: Inner, b: Inner, n: nat)
    requires InnerOk(a, n) && InnerOk(b, n)
    ensures MergeInner(a, b) == MergeInner(b, a)
  {
    LineOrder();
    MergeInnerTotal(a, b, n);
    MergeInnerTotal(b, a, n);
    forall line ensures Lookup(Compare, MergeInner(a, b), line) == Lookup(Compare, MergeInner(b, a), line) {
      MergeInnerAt(a, b, n, line);
      MergeInnerAt(b, a, n, line);
      var x, y := Lookup(Compare, a, line), Lookup(Compare, b, line);
      if x.Some? && y.Some? {
        LookupOk(a, n, line);
        LookupOk(b, n, line);
        AddCommutes(x.value, y.value);
      }
    }
    SameLookups(Compare, MergeInner(a, b), MergeInner(b, a));
  }

  lemma InnerAssociates(a: Inner, b: Inner, c: Inner, n: nat)
    requires InnerOk(a, n) && InnerOk(b, n) && InnerOk(c, n)
    ensures MergeInner(MergeInner(a, b), c) == MergeInner(a, MergeInner(b, c))
  {
    LineOrder();
    MergeInnerTotal(a, b, n);
    MergeInnerTotal(b, c, n);
    var l, r := MergeInner(MergeInner(a, b), c), MergeInner(a, MergeInner(b, c));
    MergeInnerTotal(MergeInner(a, b), c, n);
    MergeInnerTotal(a, MergeInner(b, c), n);
    forall line ensures Lookup(Compare, l, line) == Lookup(Compare, r, line) {
      MergeInnerAt(a, b, n, line);
      MergeInnerAt(b, c, n, line);
      MergeInnerAt(MergeInner(a, b), c, n, line);
      MergeInnerAt(a, MergeInner(b, c), n, line);
      PlusAssociates(a, b, c, n, line);
    }
    SameLookups(Compare, l, r);
  }

  lemma PlusAssociates(a: Inner, b: Inner, c: Inner, n: nat, line: int)
    requires InnerOk(a, n) && InnerOk(b, n) && InnerOk(c, n)
    ensures var x, y, z := Lookup(Compare, a, line), Lookup(Compare, b, line), Lookup(Compare, c, line);
      Plus(Plus(x, y), z) == Plus(x, Plus(y, z))
  {
    var x, y, z := Lookup(Compare, a, line), Lookup(Compare, b, line), Lookup(Compare, c, line);
    if x.Some? {
      LookupOk(a, n, line);
    }
    if y.Some? {
      LookupOk(b, n, line);
    }
    if z.Some? {
      LookupOk(c, n, line);
    }
    if x.Some? && y.Some? && z.Some? {
      AddAssociates(x.value, y.value, z.value);
    }
  }

  lemma OuterCommutes(a: Outer, b: Outer, n: nat)
    requires OuterOk(a, n) && OuterOk(b, n)
    ensures MergeOuter(a, b) == MergeOuter(b, a)
  {
    FileFnOrder();
    MergeOuterTotal(a, b, n);
    MergeOuterTotal(b, a, n);
    forall k ensures Lookup(CmpFileFn, MergeOuter(a, b), k) == Lookup(CmpFileFn, MergeOuter(b, a), k) {
      MergeOuterAt(a, b, n, k);
      MergeOuterAt(b, a, n, k);
      var x, y := Lookup(CmpFileFn, a, k), Lookup(CmpFileFn, b, k);
      if x.Some? && y.Some? {
        FoundOk(a, k, n);
        FoundOk(b, k, n);
        InnerCommutes(x.value, y.value, n);
      }
    }
    SameLookups(CmpFileFn, MergeOuter(a, b), MergeOuter(b, a));
  }

  lemma OuterAssociates(a: Outer, b: Outer, c: Outer, n: nat)
    requires OuterOk(a, n) && OuterOk(b, n) && OuterOk(c, n)
    ensures MergeOuter(MergeOuter(a, b), c) == MergeOuter(a, MergeOuter(b, c))
  {
    FileFnOrder();
    MergeOuterTotal(a, b, n);
    MergeOuterTotal(b, c, n);
    var l, r := MergeOuter(MergeOuter(a, b), c), MergeOuter(a, MergeOuter(b, c));
    MergeOuterTotal(MergeOuter(a, b), c, n);
    MergeOuterTotal(a, MergeOuter(b, c), n);
    forall k ensures Lookup(CmpFileFn, l, k) == Lookup(CmpFileFn, r, k) {
      MergeOuterAt(a, b, n, k);
      MergeOuterAt(b, c, n, k);
      MergeOuterAt(MergeOuter(a, b), c, n, k);
      MergeOuterAt(a, MergeOuter(b, c), n, k);
      var x, y, z := Lookup(CmpFileFn, a, k), Lookup(CmpFileFn, b, k), Lookup(CmpFileFn, c, k);
      if x.Some? && y.Some? && z.Some? {
        FoundOk(a, k, n);
        FoundOk(b, k, n);
        FoundOk(c, k, n);
        InnerAssociates(x.value, y.value, z.value, n);
      }
    }
    SameLookups(CmpFileFn, l, r);
  }

  lemma MergeEmpty(m: Outer, n: nat)
    requires OuterOk(m, n)
    ensures MergeOuter([], m) == m && MergeOuter(m, []) == m
  {
    OuterCommutes([], m, n);
  }

  /** Merging a list of files, the first one into nothing. */
  function MergeAll(ms: seq<Outer>): Outer {
    if ms == [] then [] else MergeOuter(MergeAll(ms[..|ms| - 1]), ms[|ms| - 1])
  }

  lemma {:induction false} MergeAllOk(ms: seq<Outer>, n: nat)
    requires forall i :: 0 <= i < |ms| ==> OuterOk(ms[i], n)
    ensures OuterOk(MergeAll(ms), n)
  {
    if ms != [] {
      MergeAllOk(ms[..|ms| - 1], n);
      MergeOuterTotal(MergeAll(ms[..|ms| - 1]), ms[|ms| - 1], n);
    }
  }

  /** Taking one of the files out of a list and merging it last. */
  lemma {:induction false} MergeLast(ms: seq<Outer>, i: nat, n: nat)
    requires i < |ms| && forall j :: 0 <= j < |ms| ==> OuterOk(ms[j], n)
    ensures MergeAll(ms) == MergeOuter(MergeAll(ms[..i] + ms[i + 1..]), ms[i])
  {
    hide MergeOuter;
    var last := |ms| - 1;
    var rest := ms[..i] + ms[i + 1..];
    if i == last {
      assert rest == ms[..last];
    } else {
      var front := ms[..last];
      var front' := front[..i] + front[i + 1..];
      MergeLast(front, i, n);
      assert rest == front' + [ms[last]];
      assert rest[..|front'|] == front';
      assert forall j :: 0 <= j < |front'| ==> front'[j] in ms;
      MergeAllOk(front', n);
      Exchange(MergeAll(front'), ms[i], ms[last], n);
    }
  }

  lemma Exchange(m: Outer, a: Outer, b: Outer, n: nat)
    requires OuterOk(m, n) && OuterOk(a, n) && OuterOk(b, n)
    ensures MergeOuter(MergeOuter(m, a), b) == MergeOuter(MergeOuter(m, b), a)
  {
    OuterAssociates(m, a, b, n);
    OuterCommutes(a, b, n);
    OuterAssociates(m, b, a, n);
  }

  lemma Without<T>(s: seq<T>, i: nat)
    requires i < |s|
    ensures multiset(s[..i] + s[i + 1..]) == multiset(s) - multiset{s[i]}
  {
    assert s == s[..i] + [s[i]] + s[i + 1..];
  }

  /** The order in which files are merged does not matter. */
  lemma {:induction false} AnyOrder(a: seq<Outer>, b: seq<Outer>, n: nat)
    requires multiset(a) == multiset(b)
    requires forall i :: 0 <= i < |a| ==> OuterOk(a[i], n)
    ensures MergeAll(a) == MergeAll(b)
    decreases |a|
  {
    if a == [] {
      assert |multiset(b)| == |b|;
    } else {
      var x, last := a[|a| - 1], |a| - 1;
      assert x in multiset(a);
      var i :| 0 <= i < |b| && b[i] == x;
      var b' := b[..i] + b[i + 1..];
      Without(a, last);
      Without(b, i);
      assert a[..last] + a[last + 1..] == a[..last];
      forall j | 0 <= j < |b| ensures OuterOk(b[j], n) {
        assert b[j] in multiset(b);
        assert b[j] in a;
      }
      AnyOrder(a[..last], b', n);
      MergeLast(b, i, n);
    }
  }
}
