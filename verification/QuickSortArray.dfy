/**
 The quicksort as it runs, in place on a part of an array.
*/
module QuickSortArray {
  import opened QuickSort

  /** The `n` entries from `lo` on. */
  ghost function View<T>(a: array<T>, lo: nat, n: nat): (s: seq<T>)
    requires lo + n <= a.Length
    reads a
    ensures |s| == n
  {
    a[lo..lo + n]
  }

  lemma ViewAt<T>(a: array<T>, lo: nat, n: nat, i: nat)
    requires lo + n <= a.Length && i < n
    ensures View(a, lo, n)[i] == a[lo + i]
  {
  }

  /** Nothing has changed but the `n` entries from `lo` on. */
  twostate predicate Around<T>(a: array<T>, lo: nat, n: nat)
    requires lo + n <= a.Length
    reads a
  {
    a[..lo] == old(a[..lo]) && a[lo + n..] == old(a[lo + n..])
  }

  method SwapAt<T>(a: array<T>, lo: nat, n: nat, i: nat, j: nat)
    requires lo + n <= a.Length && i < n && j < n
    modifies a
    ensures View(a, lo, n) == Swap(old(View(a, lo, n)), i, j) && Around(a, lo, n)
  {
    a[lo + i], a[lo + j] := a[lo + j], a[lo + i];
  }

  method InsertionSort<T>(a: array<T>, lo: nat, n: nat, key: T -> int)
    requires lo + n <= a.Length && n > 0
    modifies a
    ensures View(a, lo, n) == InsertFrom(old(View(a, lo, n)), 1, key) && Around(a, lo, n)
  {
    hide Swap;
    var pm := 1;
    while pm < n
      invariant 1 <= pm <= n && Around(a, lo, n)
      invariant InsertFrom(View(a, lo, n), pm, key) == InsertFrom(old(View(a, lo, n)), 1, key)
    {
      var pl := pm;
      ghost var s := View(a, lo, n);
      while pl > 0 && key(a[lo + pl - 1]) > key(a[lo + pl])
        invariant pl <= pm && Around(a, lo, n) && Sink(View(a, lo, n), pl, key) == Sink(s, pm, key)
      {
        SwapAt(a, lo, n, pl, pl - 1);
        pl := pl - 1;
      }
      pm := pm + 1;
    }
  }

  /** One round of the scan upwards. */
  lemma UpStep<T>(p: Part<T>, v: int, key: T -> int)
    requires p.InRange()
    ensures var r := Up(p, v, key);
      if p.pb > p.pc || key(p.s[p.pb]) > v then r == p
      else if key(p.s[p.pb]) == v then r == Up(p.(s := Swap(p.s, p.pa, p.pb), pa := p.pa + 1, pb := p.pb + 1), v, key)
      else r == Up(p.(pb := p.pb + 1), v, key)
  {
  }

  lemma DownStep<T>(p: Part<T>, v: int, key: T -> int)
    requires p.InRange()
    ensures var r := Down(p, v, key);
      if p.pb > p.pc || key(p.s[p.pc]) < v then r == p
      else if key(p.s[p.pc]) == v then r == Down(p.(s := Swap(p.s, p.pc, p.pd), pd := p.pd - 1, pc := p.pc - 1), v, key)
      else r == Down(p.(pc := p.pc - 1), v, key)
  {
  }

  method ScanUp<T>(a: array<T>, lo: nat, n: nat, pa0: nat, pb0: nat, pc: int, v: int, key: T -> int, ghost pd: int)
      returns (pa: nat, pb: nat)
    requires lo + n <= a.Length && pa0 <= pb0 <= pc + 1 <= pd + 1 <= n
    modifies a
    ensures Part(View(a, lo, n), pa, pb, pc, pd) == Up(Part(old(View(a, lo, n)), pa0, pb0, pc, pd), v, key)
    ensures Around(a, lo, n)
  {
    hide Swap, View, Up;
    pa, pb := pa0, pb0;
    while pb <= pc && key(a[lo + pb]) <= v
      invariant pa <= pb <= pc + 1 && Around(a, lo, n)
      invariant Up(Part(View(a, lo, n), pa, pb, pc, pd), v, key) == Up(Part(old(View(a, lo, n)), pa0, pb0, pc, pd), v, key)
      decreases pc + 1 - pb
    {
      ViewAt(a, lo, n, pb);
      UpStep(Part(View(a, lo, n), pa, pb, pc, pd), v, key);
      if key(a[lo + pb]) == v {
        SwapAt(a, lo, n, pa, pb);
        pa := pa + 1;
      }
      pb := pb + 1;
    }
    UpStep(Part(View(a, lo, n), pa, pb, pc, pd), v, key);
    if pb <= pc { ViewAt(a, lo, n, pb); }
  }

  method ScanDown<T>(a: array<T>, lo: nat, n: nat, pb: nat, pc0: int, pd0: int, v: int, key: T -> int, ghost pa: int)
      returns (pc: int, pd: int)
    requires lo + n <= a.Length && 0 <= pa <= pb <= pc0 + 1 <= pd0 + 1 <= n
    modifies a
    ensures Part(View(a, lo, n), pa, pb, pc, pd) == Down(Part(old(View(a, lo, n)), pa, pb, pc0, pd0), v, key)
    ensures Around(a, lo, n)
  {
    hide Swap, View, Down;
    pc, pd := pc0, pd0;
    while pb <= pc && key(a[lo + pc]) >= v
      invariant pb <= pc + 1 <= pd + 1 <= n && Around(a, lo, n)
      invariant Down(Part(View(a, lo, n), pa, pb, pc, pd), v, key) == Down(Part(old(View(a, lo, n)), pa, pb, pc0, pd0), v, key)
      decreases pc + 1 - pb
    {
      ViewAt(a, lo, n, pc);
      DownStep(Part(View(a, lo, n), pa, pb, pc, pd), v, key);
      if key(a[lo + pc]) == v {
        SwapAt(a, lo, n, pc, pd);
        pd := pd - 1;
      }
      pc := pc - 1;
    }
    DownStep(Part(View(a, lo, n), pa, pb, pc, pd), v, key);
    if pb <= pc { ViewAt(a, lo, n, pc); }
  }

  lemma PartitionStep<T>(p: Part<T>, v: int, key: T -> int)
    requires p.InRange()
    ensures var r, d := Partition(p, v, key), Down(Up(p, v, key), v, key);
      && p.pb <= d.pb && d.pc <= p.pc && d.InRange()
      && if d.pb > d.pc then r == d
         else d.pb < d.pc && r == Partition(d.(s := Swap(d.s, d.pb, d.pc), pb := d.pb + 1, pc := d.pc - 1), v, key)
  {
    hide Swap, Up, Down;
  }

  method PartitionInPlace<T>(a: array<T>, lo: nat, n: nat, v: int, key: T -> int)
      returns (pa: nat, pb: nat, pc: int, pd: int)
    requires lo + n <= a.Length && n > 0
    modifies a
    ensures Part(View(a, lo, n), pa, pb, pc, pd) == Partition(Part(old(View(a, lo, n)), 0, 0, n - 1, n - 1), v, key)
    ensures Around(a, lo, n)
  {
    hide Swap, Up, Down, Partition, View;
    pa, pb, pc, pd := 0, 0, n - 1, n - 1;
    while true
      invariant Part(View(a, lo, n), pa, pb, pc, pd).InRange() && Around(a, lo, n)
      invariant Partition(Part(View(a, lo, n), pa, pb, pc, pd), v, key)
             == Partition(Part(old(View(a, lo, n)), 0, 0, n - 1, n - 1), v, key)
      decreases pc + 1 - pb
    {
      PartitionStep(Part(View(a, lo, n), pa, pb, pc, pd), v, key);
      pa, pb := ScanUp(a, lo, n, pa, pb, pc, v, key, pd);
      pc, pd := ScanDown(a, lo, n, pb, pc, pd, v, key, pa);
      if pb > pc {
        return;
      }
      SwapAt(a, lo, n, pb, pc);
      pb := pb + 1;
      pc := pc - 1;
    }
  }

  method SwapRange<T>(a: array<T>, lo: nat, n: nat, i: nat, j: nat, s: nat)
    requires lo + n <= a.Length && i + s <= n && j + s <= n
    modifies a
    ensures View(a, lo, n) == SwapBlocks(old(View(a, lo, n)), i, j, 0, s) && Around(a, lo, n)
  {
    hide Swap;
    var r := 0;
    while r < s
      invariant r <= s && Around(a, lo, n)
      invariant SwapBlocks(View(a, lo, n), i, j, r, s) == SwapBlocks(old(View(a, lo, n)), i, j, 0, s)
    {
      SwapAt(a, lo, n, i + r, j + r);
      r := r + 1;
    }
  }

  /** The sort permutes the `n` entries from `lo` on, touches nothing else, and sorts exactly fair inputs. */
  method QSort<T>(a: array<T>, lo: nat, n: nat, key: T -> int)
    requires lo + n <= a.Length
    modifies a
    ensures View(a, lo, n) == Sort(old(View(a, lo, n)), key) && Around(a, lo, n)
    ensures multiset(View(a, lo, n)) == multiset(old(View(a, lo, n)))
    ensures SortedBy(View(a, lo, n), key) <==> Fair(old(View(a, lo, n)), key)
    decreases n, 1
  {
    ghost var s := View(a, lo, n);
    SortPermutes(s, key);
    SortsIfFair(s, key);
    if n == 0 {
    } else if n < 7 {
      InsertionSort(a, lo, n, key);
    } else {
      QSortBig(a, lo, n, key);
    }
  }

  method Level<T>(a: array<T>, lo: nat, n: nat, key: T -> int) returns (m: nat, u: nat)
    requires lo + n <= a.Length && n >= 7
    modifies a
    ensures var p := Parted(old(View(a, lo, n)), key); View(a, lo, n) == Gathered(p) && m == Smaller(p) && u == Larger(p)
    ensures Around(a, lo, n)
  {
    hide Partition, SwapBlocks, Pivot;
    var pivot := Pivot(a[lo..lo + n], key);
    var v := key(a[lo + pivot]);
    ghost var s := View(a, lo, n);
    var pa, pb, pc, pd := PartitionInPlace(a, lo, n, v, key);
    assert Part(View(a, lo, n), pa, pb, pc, pd) == Parted(s, key);
    PartsShorter(s, key);
    m, u := pb - pa, pd - pc;
    SwapRange(a, lo, n, 0, m, pa);
    SwapRange(a, lo, n, pb, pd + 1, n - 1 - pd);
  }

  method QSortBig<T>(a: array<T>, lo: nat, n: nat, key: T -> int)
    requires lo + n <= a.Length && n >= 7
    modifies a
    ensures View(a, lo, n) == Sort(old(View(a, lo, n)), key) && Around(a, lo, n)
    decreases n, 0
  {
    hide View, Sort, SortPart, Parted, Gathered, Smaller, Larger;
    ghost var s := View(a, lo, n);
    BigIs(s, key);
    var m, u := Level(a, lo, n, key);
    ghost var t := View(a, lo, n);
    PartLength(t[..m], key);
    PartLength(t[n - u..], key);
    QSortPart(a, lo, n, 0, m, key);
    ghost var t1 := View(a, lo, n);
    QSortPart(a, lo, n, n - u, u, key);
    Assembled(t, t1, View(a, lo, n), SortPart(t[..m], key), m, u, key);
  }

  lemma BigIs<T>(s: seq<T>, key: T -> int)
    requires |s| >= 7
    ensures var p := Parted(s, key); var m, u, t := Smaller(p), Larger(p), Gathered(p);
      && 0 <= m && 0 <= u && m + u < |s| == |t|
      && Sort(s, key) == SortPart(t[..m], key) + t[m..|s| - u] + SortPart(t[|s| - u..], key)
  {
    hide Parted, Gathered, SortPart, Smaller, Larger;
    PartsShorter(s, key);
  }

  lemma Assembled<T>(t: seq<T>, t1: seq<T>, t2: seq<T>, l: seq<T>, m: nat, u: nat, key: T -> int)
    requires m + u <= |t| == |t1| && |l| == m && l == SortPart(t[..m], key)
    requires t1 == t[..0] + SortPart(t[0..0 + m], key) + t[0 + m..]
    requires t2 == t1[..|t| - u] + SortPart(t1[|t| - u..|t| - u + u], key) + t1[|t| - u + u..]
    ensures t2 == l + t[m..|t| - u] + SortPart(t[|t| - u..], key)
  {
    hide SortPart;
    var h := |t| - u;
    assert t[0..0 + m] == t[..m];
    assert t1 == l + t[m..];
    assert t1[..h] == l + t[m..h] && t1[h..h + u] == t[h..] && t1[h + u..] == [];
  }

  lemma PartLength<T>(s: seq<T>, key: T -> int)
    ensures |SortPart(s, key)| == |s|
  {
    SortPartPermutes(s, key);
    assert |multiset(s)| == |s| && |multiset(SortPart(s, key))| == |SortPart(s, key)|;
  }

  /** Sorts the `m` entries from `i` on of those from `lo` on. */
  method QSortPart<T>(a: array<T>, lo: nat, n: nat, i: nat, m: nat, key: T -> int)
    requires lo + n <= a.Length && i + m <= n && m < n
    modifies a
    ensures var s := old(View(a, lo, n)); View(a, lo, n) == s[..i] + SortPart(s[i..i + m], key) + s[i + m..]
    ensures Around(a, lo, n)
    decreases m, 2
  {
    hide Sort, Fair;
    ghost var s := a[..];
    if m > 1 {
      QSort(a, lo + i, m, key);
    }
    ghost var r := a[..];
    Nested(s, lo, n, i, m);
    Middle(s, r, lo, n, i, m);
  }

  lemma Nested<T>(s: seq<T>, lo: nat, n: nat, i: nat, m: nat)
    requires lo + n <= |s| && i + m <= n
    ensures s[lo..lo + n][i..i + m] == s[lo + i..lo + i + m]
  {
    var t := s[lo..lo + n];
    var a, b := t[i..i + m], s[lo + i..lo + i + m];
    forall k | 0 <= k < m ensures a[k] == b[k] {
      assert a[k] == t[i + k];
    }
  }

  /** What a change of the middle leaves. */
  lemma Middle<T>(s: seq<T>, r: seq<T>, lo: nat, n: nat, i: nat, m: nat)
    requires lo + n <= |s| == |r| && i + m <= n
    requires r[..lo + i] == s[..lo + i] && r[lo + i + m..] == s[lo + i + m..]
    ensures r[..lo] == s[..lo] && r[lo + n..] == s[lo + n..]
    ensures r[lo..lo + n] == s[lo..lo + n][..i] + r[lo + i..lo + i + m] + s[lo..lo + n][i + m..]
  {
    assert r[..lo] == r[..lo + i][..lo] && s[..lo] == s[..lo + i][..lo];
    assert r[lo + n..] == r[lo + i + m..][n - i - m..] && s[lo + n..] == s[lo + i + m..][n - i - m..];
    assert r[lo..lo + i] == r[..lo + i][lo..] && s[lo..lo + n][..i] == s[..lo + i][lo..];
    assert r[lo + i + m..lo + n] == r[lo + i + m..][..n - i - m];
    assert s[lo..lo + n][i + m..] == s[lo + i + m..][..n - i - m];
    assert r[lo..lo + n] == r[lo..lo + i] + r[lo + i..lo + i + m] + r[lo + i + m..lo + n];
  }
}
