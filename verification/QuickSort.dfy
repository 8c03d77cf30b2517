/**
 The quicksort of Callgrind's dumping code (`dump.c`), step by step on sequences.  `key`
 ranks the entries as the comparison function orders them.
*/
module QuickSort {
  function Swap<T>(s: seq<T>, i: nat, j: nat): (r: seq<T>)
    requires i < |s| && j < |s|
    ensures |r| == |s| && r[i] == s[j] && r[j] == s[i]
    ensures forall k :: 0 <= k < |s| && k != i && k != j ==> r[k] == s[k]
  {
    s[i := s[j]][j := s[i]]
  }

  lemma SwapPermutes<T>(s: seq<T>, i: nat, j: nat)
    requires i < |s| && j < |s|
    ensures multiset(Swap(s, i, j)) == multiset(s)
  {
  }

  ghost predicate SortedBy<T>(s: seq<T>, key: T -> int) {
    forall i, j :: 0 <= i < j < |s| ==> key(s[i]) <= key(s[j])
  }

  // ---------------------------------------------------------------- small arrays

  /** The inner loop of the insertion sort. */
  function Sink<T>(s: seq<T>, pl: nat, key: T -> int): (r: seq<T>)
    requires pl < |s|
    ensures |r| == |s|
    decreases pl
  {
    if pl > 0 && key(s[pl - 1]) > key(s[pl]) then Sink(Swap(s, pl, pl - 1), pl - 1, key) else s
  }

  function InsertFrom<T>(s: seq<T>, pm: nat, key: T -> int): (r: seq<T>)
    requires pm <= |s|
    ensures |r| == |s|
    decreases |s| - pm
  {
    if pm < |s| then InsertFrom(Sink(s, pm, key), pm + 1, key) else s
  }

  /** The entries with key `v`, in order. */
  function WithKey<T>(s: seq<T>, v: int, key: T -> int): seq<T> {
    if s == [] then [] else (if key(s[0]) == v then [s[0]] else []) + WithKey(s[1..], v, key)
  }

  lemma {:induction false} WithKeySplit<T>(a: seq<T>, b: seq<T>, v: int, key: T -> int)
    ensures WithKey(a + b, v, key) == WithKey(a, v, key) + WithKey(b, v, key)
  {
    hide *;
    if a == [] {
      WithKeyNone(v, key);
      assert a + b == b;
    } else {
      assert (a + b)[1..] == a[1..] + b && (a + b)[0] == a[0];
      WithKeySplit(a[1..], b, v, key);
      WithKeyFirst(a, v, key);
      WithKeyFirst(a + b, v, key);
    }
  }

  lemma WithKeyNone<T>(v: int, key: T -> int)
    ensures WithKey([], v, key) == []
  {
  }

  lemma WithKeyFirst<T>(s: seq<T>, v: int, key: T -> int)
    requires s != []
    ensures key(s[0]) == v ==> WithKey(s, v, key) == [s[0]] + WithKey(s[1..], v, key)
    ensures key(s[0]) != v ==> WithKey(s, v, key) == WithKey(s[1..], v, key)
  {
  }

  lemma WithKeyTwo<T>(x: T, y: T, v: int, key: T -> int)
    requires key(x) != key(y)
    ensures WithKey([x, y], v, key) == WithKey([y, x], v, key)
  {
    assert [x, y][1..] == [y] && [y, x][1..] == [x] && [x][1..] == [] && [y][1..] == [];
  }

  lemma Exchanged<T>(s: seq<T>, i: nat)
    requires i + 1 < |s|
    ensures s == s[..i] + ([s[i], s[i + 1]] + s[i + 2..])
    ensures Swap(s, i + 1, i) == s[..i] + ([s[i + 1], s[i]] + s[i + 2..])
  {
  }

  lemma SwapNext<T>(s: seq<T>, i: nat, v: int, key: T -> int)
    requires i + 1 < |s| && key(s[i]) != key(s[i + 1])
    ensures WithKey(Swap(s, i + 1, i), v, key) == WithKey(s, v, key)
  {
    hide *;
    var a, b := s[..i], s[i + 2..];
    var x, y := s[i], s[i + 1];
    Exchanged(s, i);
    WithKeySplit(a, [x, y] + b, v, key);
    WithKeySplit([x, y], b, v, key);
    WithKeySplit(a, [y, x] + b, v, key);
    WithKeySplit([y, x], b, v, key);
    WithKeyTwo(x, y, v, key);
  }

  lemma {:induction false} SinkStable<T>(s: seq<T>, pl: nat, v: int, key: T -> int)
    requires pl < |s|
    ensures WithKey(Sink(s, pl, key), v, key) == WithKey(s, v, key)
    decreases pl
  {
    hide WithKey, Swap;
    if pl > 0 && key(s[pl - 1]) > key(s[pl]) {
      SwapNext(s, pl - 1, v, key);
      SinkStable(Swap(s, pl, pl - 1), pl - 1, v, key);
    }
  }

  /** Insertion leaves entries that compare equal in their order. */
  lemma {:induction false} InsertStable<T>(s: seq<T>, pm: nat, v: int, key: T -> int)
    requires pm <= |s|
    ensures WithKey(InsertFrom(s, pm, key), v, key) == WithKey(s, v, key)
    decreases |s| - pm
  {
    hide WithKey, Sink;
    if pm < |s| {
      SinkStable(s, pm, v, key);
      InsertStable(Sink(s, pm, key), pm + 1, v, key);
    }
  }

  // ---------------------------------------------------------------- the pivot

  function Med3<T>(s: seq<T>, a: nat, b: nat, c: nat, key: T -> int): (r: nat)
    requires a < |s| && b < |s| && c < |s|
    ensures r == a || r == b || r == c
    ensures key(s[a]) <= key(s[r]) <= key(s[c]) || key(s[c]) <= key(s[r]) <= key(s[a])
         || key(s[b]) <= key(s[r]) <= key(s[c]) || key(s[c]) <= key(s[r]) <= key(s[b])
  {
    if key(s[a]) < key(s[b]) then
      (if key(s[b]) < key(s[c]) then b else if key(s[a]) < key(s[c]) then c else a)
    else
      (if key(s[b]) > key(s[c]) then b else if key(s[a]) > key(s[c]) then c else a)
  }

  function Pivot<T>(s: seq<T>, key: T -> int): (p: nat)
    requires |s| >= 7
    ensures p < |s|
  {
    var n := |s|;
    if n == 7 then n / 2
    else if n <= 40 then Med3(s, 0, n / 2, n - 1, key)
    else
      var d := n / 8;
      Med3(s, Med3(s, 0, d, 2 * d, key), Med3(s, n / 2 - d, n / 2, n / 2 + d, key),
           Med3(s, n - 1 - 2 * d, n - 1 - d, n - 1, key), key)
  }

  /** Where a long sequence is sampled: at three places at its start, three in the middle and three at its end. */
  function AtStart(n: nat): seq<nat> { [0, n / 8, n / 8 + n / 8] }

  function InMiddle(n: nat): seq<nat>
    requires n > 40
  {
    [n / 2 - n / 8, n / 2, n / 2 + n / 8]
  }

  function AtEnd(n: nat): seq<nat>
    requires n > 40
  {
    [n - 1 - n / 8 - n / 8, n - 1 - n / 8, n - 1]
  }

  ghost predicate Three<T>(s: seq<T>, ps: seq<nat>) { |ps| == 3 && forall i :: 0 <= i < 3 ==> ps[i] < |s| }

  function Samples(n: nat): (ps: seq<nat>)
    requires n > 40
    ensures |ps| == 9 && forall i :: 0 <= i < 9 ==> ps[i] < n
  {
    AtStart(n) + (InMiddle(n) + AtEnd(n))
  }

  /** How many of the places have a key that is not above `v`, and not below it. */
  function AtMost<T>(s: seq<T>, ps: seq<nat>, v: int, key: T -> int): nat
    requires forall i :: 0 <= i < |ps| ==> ps[i] < |s|
  {
    if ps == [] then 0 else (if key(s[ps[0]]) <= v then 1 else 0) + AtMost(s, ps[1..], v, key)
  }

  function AtLeast<T>(s: seq<T>, ps: seq<nat>, v: int, key: T -> int): nat
    requires forall i :: 0 <= i < |ps| ==> ps[i] < |s|
  {
    if ps == [] then 0 else (if key(s[ps[0]]) >= v then 1 else 0) + AtLeast(s, ps[1..], v, key)
  }

  lemma Med3Is<T>(s: seq<T>, a: nat, b: nat, c: nat, key: T -> int)
    requires a < |s| && b < |s| && c < |s|
    ensures var v := key(s[Med3(s, a, b, c, key)]);
      AtMost(s, [a, b, c], v, key) >= 2 && AtLeast(s, [a, b, c], v, key) >= 2
  {
    var v := key(s[Med3(s, a, b, c, key)]);
    assert [a, b, c][1..] == [b, c] && [b, c][1..] == [c] && [c][1..] == [];
    assert AtMost(s, [c], v, key) == if key(s[c]) <= v then 1 else 0;
    assert AtLeast(s, [c], v, key) == if key(s[c]) >= v then 1 else 0;
    assert AtMost(s, [b, c], v, key) == (if key(s[b]) <= v then 1 else 0) + AtMost(s, [c], v, key);
    assert AtLeast(s, [b, c], v, key) == (if key(s[b]) >= v then 1 else 0) + AtLeast(s, [c], v, key);
  }

  lemma {:induction false} SamplesSplit<T>(s: seq<T>, a: seq<nat>, b: seq<nat>, v: int, key: T -> int)
    requires forall i :: 0 <= i < |a + b| ==> (a + b)[i] < |s|
    ensures forall i :: 0 <= i < |a| ==> a[i] == (a + b)[i]
    ensures forall i :: 0 <= i < |b| ==> b[i] == (a + b)[|a| + i]
    ensures AtMost(s, a + b, v, key) == AtMost(s, a, v, key) + AtMost(s, b, v, key)
    ensures AtLeast(s, a + b, v, key) == AtLeast(s, a, v, key) + AtLeast(s, b, v, key)
    decreases |a|
  {
    if a == [] {
      assert a + b == b;
    } else {
      assert (a + b)[1..] == a[1..] + b;
      SamplesSplit(s, a[1..], b, v, key);
    }
  }

  lemma {:induction false} MoreBelow<T>(s: seq<T>, ps: seq<nat>, u: int, v: int, key: T -> int)
    requires u <= v && forall i :: 0 <= i < |ps| ==> ps[i] < |s|
    ensures AtMost(s, ps, u, key) <= AtMost(s, ps, v, key) && AtLeast(s, ps, v, key) <= AtLeast(s, ps, u, key)
    decreases |ps|
  {
    if ps != [] {
      MoreBelow(s, ps[1..], u, v, key);
    }
  }

  /** The pivot: the middle one of seven entries, the median of three up to forty, and beyond that an entry from nine
      places with at least four of them on either side. */
  lemma PivotIs<T>(s: seq<T>, key: T -> int)
    requires |s| >= 7
    ensures |s| == 7 ==> Pivot(s, key) == 3
    ensures 7 < |s| <= 40 ==>
      var ps, v := [0, |s| / 2, |s| - 1], key(s[Pivot(s, key)]);
      Pivot(s, key) in ps && AtMost(s, ps, v, key) >= 2 && AtLeast(s, ps, v, key) >= 2
    ensures |s| > 40 ==>
      var ps, v := Samples(|s|), key(s[Pivot(s, key)]);
      Pivot(s, key) in ps && AtMost(s, ps, v, key) >= 4 && AtLeast(s, ps, v, key) >= 4
  {
    hide AtMost, AtLeast;
    var n := |s|;
    if 7 < n <= 40 {
      Med3Is(s, 0, n / 2, n - 1, key);
    } else if n > 40 {
      Ninther(s, key);
    }
  }

  lemma Ninther<T>(s: seq<T>, key: T -> int)
    requires |s| > 40
    ensures var ps, v := Samples(|s|), key(s[Pivot(s, key)]);
      Pivot(s, key) in ps && AtMost(s, ps, v, key) >= 4 && AtLeast(s, ps, v, key) >= 4
  {
    hide *;
    var a, b, c := AtStart(|s|), InMiddle(|s|), AtEnd(|s|);
    Groups(s);
    MedianOf(s, a, key);
    MedianOf(s, b, key);
    MedianOf(s, c, key);
    NintherIs(s, key);
    var p, q, r := Med3(s, a[0], a[1], a[2], key), Med3(s, b[0], b[1], b[2], key), Med3(s, c[0], c[1], c[2], key);
    Middle(s, p, q, r, key);
    OfNine(s, a, b, c, key(s[p]), key(s[q]), key(s[r]), key(s[Pivot(s, key)]), key);
  }

  lemma Groups<T>(s: seq<T>)
    requires |s| > 40
    ensures Three(s, AtStart(|s|)) && Three(s, InMiddle(|s|)) && Three(s, AtEnd(|s|))
    ensures |AtStart(|s|)| == |InMiddle(|s|)| == |AtEnd(|s|)| == 3
    ensures AtStart(|s|)[0] < |s| && AtStart(|s|)[1] < |s| && AtStart(|s|)[2] < |s|
    ensures InMiddle(|s|)[0] < |s| && InMiddle(|s|)[1] < |s| && InMiddle(|s|)[2] < |s|
    ensures AtEnd(|s|)[0] < |s| && AtEnd(|s|)[1] < |s| && AtEnd(|s|)[2] < |s|
    ensures Samples(|s|) == AtStart(|s|) + (InMiddle(|s|) + AtEnd(|s|))
  {
  }

  lemma MedianOf<T>(s: seq<T>, ps: seq<nat>, key: T -> int)
    requires Three(s, ps)
    ensures |ps| == 3 && ps[0] < |s| && ps[1] < |s| && ps[2] < |s| && forall i :: 0 <= i < |ps| ==> ps[i] < |s|
    ensures var m := Med3(s, ps[0], ps[1], ps[2], key);
      m in ps && AtMost(s, ps, key(s[m]), key) >= 2 && AtLeast(s, ps, key(s[m]), key) >= 2
  {
    hide AtMost, AtLeast, Med3;
    Med3Is(s, ps[0], ps[1], ps[2], key);
    assert ps == [ps[0], ps[1], ps[2]];
  }

  lemma NintherIs<T>(s: seq<T>, key: T -> int)
    requires |s| > 40
    ensures var a, b, c := AtStart(|s|), InMiddle(|s|), AtEnd(|s|);
      && Three(s, a) && Three(s, b) && Three(s, c)
      && Pivot(s, key) == Med3(s, Med3(s, a[0], a[1], a[2], key), Med3(s, b[0], b[1], b[2], key),
                               Med3(s, c[0], c[1], c[2], key), key)
  {
    hide Med3;
    Doubled(|s|);
  }

  lemma Doubled(n: nat)
    ensures 2 * (n / 8) == n / 8 + n / 8
  {
  }

  /** Two of three groups have their median on the same side. */
  lemma OfNine<T>(s: seq<T>, a: seq<nat>, b: seq<nat>, c: seq<nat>, x: int, y: int, z: int, v: int, key: T -> int)
    requires forall i :: 0 <= i < |a + (b + c)| ==> (a + (b + c))[i] < |s|
    requires forall i :: 0 <= i < |a| ==> a[i] < |s|
    requires forall i :: 0 <= i < |b| ==> b[i] < |s|
    requires forall i :: 0 <= i < |c| ==> c[i] < |s|
    requires AtMost(s, a, x, key) >= 2 && AtLeast(s, a, x, key) >= 2
    requires AtMost(s, b, y, key) >= 2 && AtLeast(s, b, y, key) >= 2
    requires AtMost(s, c, z, key) >= 2 && AtLeast(s, c, z, key) >= 2
    requires (x <= v && y <= v) || (x <= v && z <= v) || (y <= v && z <= v)
    requires (x >= v && y >= v) || (x >= v && z >= v) || (y >= v && z >= v)
    ensures AtMost(s, a + (b + c), v, key) >= 4 && AtLeast(s, a + (b + c), v, key) >= 4
  {
    hide AtMost, AtLeast;
    SamplesSplit(s, a, b + c, v, key);
    SamplesSplit(s, b, c, v, key);
    Either(s, a, x, v, key);
    Either(s, b, y, v, key);
    Either(s, c, z, v, key);
  }

  /** A group whose median is not above `v` has two entries that are not. */
  lemma Either<T>(s: seq<T>, ps: seq<nat>, u: int, v: int, key: T -> int)
    requires forall i :: 0 <= i < |ps| ==> ps[i] < |s|
    requires AtMost(s, ps, u, key) >= 2 && AtLeast(s, ps, u, key) >= 2
    ensures u <= v ==> AtMost(s, ps, v, key) >= 2
    ensures u >= v ==> AtLeast(s, ps, v, key) >= 2
  {
    hide AtMost, AtLeast;
    if u <= v {
      MoreBelow(s, ps, u, v, key);
    }
    if v <= u {
      MoreBelow(s, ps, v, u, key);
    }
  }

  lemma Middle<T>(s: seq<T>, a: nat, b: nat, c: nat, key: T -> int)
    requires a < |s| && b < |s| && c < |s|
    ensures var v, x, y, z := key(s[Med3(s, a, b, c, key)]), key(s[a]), key(s[b]), key(s[c]);
      && ((x <= v && y <= v) || (x <= v && z <= v) || (y <= v && z <= v))
      && ((x >= v && y >= v) || (x >= v && z >= v) || (y >= v && z >= v))
  {
  }

  // ---------------------------------------------------------------- the partition

  /** The four pointers.  Keys equal to the pivot are gathered below `pa` and above `pd`. */
  datatype Part<T> = Part(s: seq<T>, pa: int, pb: int, pc: int, pd: int)
  {
    predicate InRange() {
      0 <= pa <= pb <= pc + 1 <= pd + 1 <= |s|
    }
  }

  /** What has been partitioned: equal, smaller, not looked at, larger, equal. */
  ghost predicate PartOk<T>(p: Part<T>, v: int, key: T -> int) {
    && p.InRange()
    && (forall i :: 0 <= i < p.pa ==> key(p.s[i]) == v)
    && (forall i :: p.pa <= i < p.pb ==> key(p.s[i]) < v)
    && (forall i :: p.pc < i <= p.pd ==> key(p.s[i]) > v)
    && (forall i :: p.pd < i < |p.s| ==> key(p.s[i]) == v)
  }

  function Up<T>(p: Part<T>, v: int, key: T -> int): (r: Part<T>)
    requires p.InRange()
    ensures r.InRange() && r.pc == p.pc && r.pd == p.pd && |r.s| == |p.s|
    ensures r.pb >= p.pb && (r.pb <= r.pc ==> key(r.s[r.pb]) > v)
    decreases p.pc - p.pb + 1
  {
    if p.pb <= p.pc && key(p.s[p.pb]) <= v then
      if key(p.s[p.pb]) == v then Up(p.(s := Swap(p.s, p.pa, p.pb), pa := p.pa + 1, pb := p.pb + 1), v, key)
      else Up(p.(pb := p.pb + 1), v, key)
    else p
  }

  function Down<T>(p: Part<T>, v: int, key: T -> int): (r: Part<T>)
    requires p.InRange()
    ensures r.InRange() && r.pa == p.pa && r.pb == p.pb && |r.s| == |p.s|
    ensures r.pc <= p.pc && (r.pb <= r.pc ==> key(r.s[r.pc]) < v)
    ensures r.pb <= r.pc ==> r.s[r.pb] == p.s[r.pb]
    decreases p.pc - p.pb + 1
  {
    if p.pb <= p.pc && key(p.s[p.pc]) >= v then
      if key(p.s[p.pc]) == v then Down(p.(s := Swap(p.s, p.pc, p.pd), pd := p.pd - 1, pc := p.pc - 1), v, key)
      else Down(p.(pc := p.pc - 1), v, key)
    else p
  }

  function Partition<T>(p: Part<T>, v: int, key: T -> int): (r: Part<T>)
    requires p.InRange()
    ensures r.InRange() && r.pb == r.pc + 1 && |r.s| == |p.s|
    decreases p.pc - p.pb + 1
  {
    var d := Down(Up(p, v, key), v, key);
    if d.pb > d.pc then d
    else if d.pb == d.pc then assert false; d
    else Partition(d.(s := Swap(d.s, d.pb, d.pc), pb := d.pb + 1, pc := d.pc - 1), v, key)
  }

  /** The entry at `pb` is passed over, at the start if it is equal to the pivot. */
  lemma PassUp<T>(p: Part<T>, v: int, key: T -> int)
    requires PartOk(p, v, key) && p.pb <= p.pc && key(p.s[p.pb]) <= v
    ensures key(p.s[p.pb]) < v ==> PartOk(p.(pb := p.pb + 1), v, key)
    ensures key(p.s[p.pb]) == v ==> PartOk(p.(s := Swap(p.s, p.pa, p.pb), pa := p.pa + 1, pb := p.pb + 1), v, key)
  {
    hide Swap;
  }

  lemma PassDown<T>(p: Part<T>, v: int, key: T -> int)
    requires PartOk(p, v, key) && p.pb <= p.pc && key(p.s[p.pc]) >= v
    ensures key(p.s[p.pc]) > v ==> PartOk(p.(pc := p.pc - 1), v, key)
    ensures key(p.s[p.pc]) == v ==> PartOk(p.(s := Swap(p.s, p.pc, p.pd), pd := p.pd - 1, pc := p.pc - 1), v, key)
  {
    hide Swap;
  }

  lemma PassBoth<T>(p: Part<T>, v: int, key: T -> int)
    requires PartOk(p, v, key) && p.pb < p.pc && key(p.s[p.pb]) > v > key(p.s[p.pc])
    ensures PartOk(p.(s := Swap(p.s, p.pb, p.pc), pb := p.pb + 1, pc := p.pc - 1), v, key)
  {
    hide Swap;
  }

  lemma {:induction false} UpOk<T>(p: Part<T>, v: int, key: T -> int)
    requires PartOk(p, v, key)
    ensures p.InRange() && PartOk(Up(p, v, key), v, key)
    decreases p.pc - p.pb + 1
  {
    hide Swap, PartOk;
    PartInRange(p, v, key);
    if p.pb <= p.pc && key(p.s[p.pb]) <= v {
      PassUp(p, v, key);
      if key(p.s[p.pb]) == v {
        UpOk(p.(s := Swap(p.s, p.pa, p.pb), pa := p.pa + 1, pb := p.pb + 1), v, key);
      } else {
        UpOk(p.(pb := p.pb + 1), v, key);
      }
    }
  }

  lemma {:induction false} DownOk<T>(p: Part<T>, v: int, key: T -> int)
    requires PartOk(p, v, key)
    ensures p.InRange() && PartOk(Down(p, v, key), v, key)
    decreases p.pc - p.pb + 1
  {
    hide Swap, PartOk;
    PartInRange(p, v, key);
    if p.pb <= p.pc && key(p.s[p.pc]) >= v {
      PassDown(p, v, key);
      if key(p.s[p.pc]) == v {
        DownOk(p.(s := Swap(p.s, p.pc, p.pd), pd := p.pd - 1, pc := p.pc - 1), v, key);
      } else {
        DownOk(p.(pc := p.pc - 1), v, key);
      }
    }
  }

  lemma PartInRange<T>(p: Part<T>, v: int, key: T -> int)
    requires PartOk(p, v, key)
    ensures p.InRange()
  {
  }

  lemma {:induction false} PartitionOk<T>(p: Part<T>, v: int, key: T -> int)
    requires PartOk(p, v, key)
    ensures p.InRange() && PartOk(Partition(p, v, key), v, key)
    decreases p.pc - p.pb + 1
  {
    hide Swap, Up, Down, PartOk;
    PartInRange(p, v, key);
    var d := Down(Up(p, v, key), v, key);
    UpOk(p, v, key);
    DownOk(Up(p, v, key), v, key);
    if d.pb < d.pc {
      PassBoth(d, v, key);
      PartitionOk(d.(s := Swap(d.s, d.pb, d.pc), pb := d.pb + 1, pc := d.pc - 1), v, key);
    }
  }

  // ---------------------------------------------------------------- moving the equal keys to the middle

  /** `for (r...) swap(i + r, j + r)`, from `r` on. */
  function SwapBlocks<T>(s: seq<T>, i: nat, j: nat, r: nat, count: nat): (t: seq<T>)
    requires r <= count && i + count <= |s| && j + count <= |s|
    ensures |t| == |s|
    decreases count - r
  {
    if r < count then SwapBlocks(Swap(s, i + r, j + r), i, j, r + 1, count) else s
  }

  /** Blocks that do not overlap are exchanged. */
  lemma {:induction false} BlocksApart<T>(s: seq<T>, i: nat, j: nat, r: nat, count: nat)
    requires r <= count && i + count <= j && j + count <= |s|
    ensures var t := SwapBlocks(s, i, j, r, count);
      && (forall k :: i + r <= k < i + count ==> t[k] == s[k + j - i])
      && (forall k :: j + r <= k < j + count ==> t[k] == s[k + i - j])
      && (forall k :: 0 <= k < i + r || i + count <= k < j + r || j + count <= k < |s| ==> t[k] == s[k])
    decreases count - r
  {
    hide Swap;
    if r < count {
      BlocksApart(Swap(s, i + r, j + r), i, j, r + 1, count);
    }
  }

  /** If they overlap, the upper one moves down, and what was below it ends up above, in some order. */
  lemma {:induction false} BlocksOverlap<T>(s: seq<T>, i: nat, j: nat, r: nat, count: nat, v: int, key: T -> int)
    requires r <= count && i < j < i + count && j + count <= |s|
    requires forall k :: i + r <= k < j + r ==> key(s[k]) == v
    ensures var t := SwapBlocks(s, i, j, r, count);
      && (forall k :: 0 <= k < i + r || j + count <= k < |s| ==> t[k] == s[k])
      && (forall k :: i + r <= k < i + count ==> t[k] == s[k + j - i])
      && (forall k :: i + count <= k < j + count ==> key(t[k]) == v)
    decreases count - r
  {
    hide Swap;
    if r < count {
      BlocksOverlap(Swap(s, i + r, j + r), i, j, r + 1, count, v, key);
    }
  }

  // ---------------------------------------------------------------- one level of the sort

  /** The partition of an array that is not small. */
  function Parted<T>(s: seq<T>, key: T -> int): (p: Part<T>)
    requires |s| >= 7
    ensures p.InRange() && p.pb == p.pc + 1 && |p.s| == |s|
  {
    Partition(Part(s, 0, 0, |s| - 1, |s| - 1), key(s[Pivot(s, key)]), key)
  }

  /** How many keys are smaller than the pivot, and how many are larger. */
  function Smaller<T>(p: Part<T>): int { p.pb - p.pa }

  function Larger<T>(p: Part<T>): int { p.pd - p.pc }

  /** The keys equal to the pivot are swapped into the middle, from the start and from the end. */
  function Gathered<T>(p: Part<T>): (t: seq<T>)
    requires p.InRange() && p.pb == p.pc + 1
    ensures |t| == |p.s|
  {
    var n := |p.s|;
    SwapBlocks(SwapBlocks(p.s, 0, Smaller(p), 0, p.pa), p.pb, p.pd + 1, 0, n - 1 - p.pd)
  }

  lemma {:induction false} BlocksPermute<T>(s: seq<T>, i: nat, j: nat, r: nat, count: nat)
    requires r <= count && i + count <= |s| && j + count <= |s|
    ensures multiset(SwapBlocks(s, i, j, r, count)) == multiset(s)
    decreases count - r
  {
    hide Swap;
    if r < count {
      SwapPermutes(s, i + r, j + r);
      BlocksPermute(Swap(s, i + r, j + r), i, j, r + 1, count);
    }
  }

  lemma {:induction false} UpPermutes<T>(p: Part<T>, v: int, key: T -> int)
    requires p.InRange()
    ensures multiset(Up(p, v, key).s) == multiset(p.s)
    decreases p.pc - p.pb + 1
  {
    hide Swap;
    if p.pb <= p.pc && key(p.s[p.pb]) <= v {
      if key(p.s[p.pb]) == v {
        SwapPermutes(p.s, p.pa, p.pb);
        UpPermutes(p.(s := Swap(p.s, p.pa, p.pb), pa := p.pa + 1, pb := p.pb + 1), v, key);
      } else {
        UpPermutes(p.(pb := p.pb + 1), v, key);
      }
    }
  }

  lemma {:induction false} DownPermutes<T>(p: Part<T>, v: int, key: T -> int)
    requires p.InRange()
    ensures multiset(Down(p, v, key).s) == multiset(p.s)
    decreases p.pc - p.pb + 1
  {
    hide Swap;
    if p.pb <= p.pc && key(p.s[p.pc]) >= v {
      if key(p.s[p.pc]) == v {
        SwapPermutes(p.s, p.pc, p.pd);
        DownPermutes(p.(s := Swap(p.s, p.pc, p.pd), pd := p.pd - 1, pc := p.pc - 1), v, key);
      } else {
        DownPermutes(p.(pc := p.pc - 1), v, key);
      }
    }
  }

  lemma {:induction false} PartitionPermutes<T>(p: Part<T>, v: int, key: T -> int)
    requires p.InRange()
    ensures multiset(Partition(p, v, key).s) == multiset(p.s)
    decreases p.pc - p.pb + 1
  {
    hide Swap, Up, Down;
    var d := Down(Up(p, v, key), v, key);
    UpPermutes(p, v, key);
    DownPermutes(Up(p, v, key), v, key);
    if d.pb < d.pc {
      SwapPermutes(d.s, d.pb, d.pc);
      PartitionPermutes(d.(s := Swap(d.s, d.pb, d.pc), pb := d.pb + 1, pc := d.pc - 1), v, key);
    }
  }

  lemma PartedPermutes<T>(s: seq<T>, key: T -> int)
    requires |s| >= 7
    ensures multiset(Parted(s, key).s) == multiset(s)
    ensures PartOk(Parted(s, key), key(s[Pivot(s, key)]), key)
  {
    PartitionPermutes(Part(s, 0, 0, |s| - 1, |s| - 1), key(s[Pivot(s, key)]), key);
    PartitionOk(Part(s, 0, 0, |s| - 1, |s| - 1), key(s[Pivot(s, key)]), key);
  }

  lemma GatheredPermutes<T>(p: Part<T>)
    requires p.InRange() && p.pb == p.pc + 1
    ensures multiset(Gathered(p)) == multiset(p.s)
  {
    hide SwapBlocks;
    var n := |p.s|;
    BlocksPermute(p.s, 0, Smaller(p), 0, p.pa);
    BlocksPermute(SwapBlocks(p.s, 0, Smaller(p), 0, p.pa), p.pb, p.pd + 1, 0, n - 1 - p.pd);
  }

  /** The pivot is in neither of the parts that are sorted next, so both are shorter. */
  lemma PartsShorter<T>(s: seq<T>, key: T -> int)
    requires |s| >= 7
    ensures var p := Parted(s, key); 0 <= Smaller(p) && 0 <= Larger(p) && Smaller(p) + Larger(p) < |s|
  {
    var p, x := Parted(s, key), s[Pivot(s, key)];
    PartedPermutes(s, key);
    assert x in multiset(s);
    assert x in multiset(p.s);
    var i :| 0 <= i < |p.s| && p.s[i] == x;
  }

  // ---------------------------------------------------------------- the sort

  /** The keys smaller than the pivot, those equal to it, and those larger, after one level. */
  function Left<T>(s: seq<T>, key: T -> int): (l: seq<T>)
    requires |s| >= 7
    ensures |l| < |s|
  {
    PartsShorter(s, key);
    Gathered(Parted(s, key))[..Smaller(Parted(s, key))]
  }

  function Mid<T>(s: seq<T>, key: T -> int): seq<T>
    requires |s| >= 7
  {
    PartsShorter(s, key);
    var p := Parted(s, key);
    Gathered(p)[Smaller(p)..|s| - Larger(p)]
  }

  function Right<T>(s: seq<T>, key: T -> int): (r: seq<T>)
    requires |s| >= 7
    ensures |r| < |s|
  {
    PartsShorter(s, key);
    Gathered(Parted(s, key))[|s| - Larger(Parted(s, key))..]
  }

  function Sort<T>(s: seq<T>, key: T -> int): seq<T>
    decreases |s|, 0
  {
    if |s| == 0 then s
    else if |s| < 7 then InsertFrom(s, 1, key)
    else SortPart(Left(s, key), key) + Mid(s, key) + SortPart(Right(s, key), key)
  }

  /** One part of a level is sorted if it has more than one entry. */
  function SortPart<T>(s: seq<T>, key: T -> int): seq<T>
    decreases |s|, 1
  {
    if |s| > 1 then Sort(s, key) else s
  }

  /** No more keys equal to the pivot have been gathered at the start than are smaller, or none is smaller. */
  predicate FairHere<T>(s: seq<T>, key: T -> int)
    requires |s| >= 7
  {
    var p := Parted(s, key);
    Smaller(p) == 0 || p.pa <= Smaller(p)
  }

  /** All partitions that the sort meets are fair. */
  predicate Fair<T>(s: seq<T>, key: T -> int)
    decreases |s|
  {
    |s| < 7 || (FairHere(s, key) && Fair(Left(s, key), key) && Fair(Right(s, key), key))
  }

  lemma {:induction false} SinkPermutes<T>(s: seq<T>, pl: nat, key: T -> int)
    requires pl < |s|
    ensures multiset(Sink(s, pl, key)) == multiset(s)
    decreases pl
  {
    if pl > 0 && key(s[pl - 1]) > key(s[pl]) {
      SwapPermutes(s, pl, pl - 1);
      SinkPermutes(Swap(s, pl, pl - 1), pl - 1, key);
    }
  }

  lemma {:induction false} InsertPermutes<T>(s: seq<T>, pm: nat, key: T -> int)
    requires pm <= |s|
    ensures multiset(InsertFrom(s, pm, key)) == multiset(s)
    decreases |s| - pm
  {
    if pm < |s| {
      SinkPermutes(s, pm, key);
      InsertPermutes(Sink(s, pm, key), pm + 1, key);
    }
  }

  /** All but the entry at `pl`, up to `pm`, are in order, and it is not larger than those after it. */
  lemma {:induction false} SinkSorts<T>(s: seq<T>, pl: nat, pm: nat, key: T -> int)
    requires pl <= pm < |s|
    requires forall i, j :: 0 <= i < j <= pm && i != pl && j != pl ==> key(s[i]) <= key(s[j])
    requires forall j :: pl < j <= pm ==> key(s[pl]) <= key(s[j])
    ensures SortedBy(Sink(s, pl, key)[..pm + 1], key)
    ensures forall k :: pm < k < |s| ==> Sink(s, pl, key)[k] == s[k]
    decreases pl
  {
    hide Swap;
    if pl > 0 && key(s[pl - 1]) > key(s[pl]) {
      SinkSorts(Swap(s, pl, pl - 1), pl - 1, pm, key);
    }
  }

  lemma {:induction false} InsertSorts<T>(s: seq<T>, pm: nat, key: T -> int)
    requires pm <= |s| && SortedBy(s[..pm], key)
    ensures SortedBy(InsertFrom(s, pm, key), key)
    decreases |s| - pm
  {
    if pm < |s| {
      forall i, j | 0 <= i < j < pm ensures key(s[i]) <= key(s[j]) {
        assert s[..pm][i] == s[i] && s[..pm][j] == s[j];
      }
      SinkSorts(s, pm, pm, key);
      InsertSorts(Sink(s, pm, key), pm + 1, key);
    } else {
      assert s[..pm] == s;
    }
  }

  lemma LevelPermutes<T>(s: seq<T>, key: T -> int)
    requires |s| >= 7
    ensures multiset(Left(s, key) + Mid(s, key) + Right(s, key)) == multiset(s)
  {
    hide Parted, Gathered;
    PartsShorter(s, key);
    PartedPermutes(s, key);
    var p := Parted(s, key);
    GatheredPermutes(p);
    var t, m, h := Gathered(p), Smaller(p), |s| - Larger(p);
    assert t == t[..m] + t[m..h] + t[h..];
  }

  lemma Pieces<T>(l: seq<T>, l': seq<T>, e: seq<T>, g: seq<T>, g': seq<T>)
    requires multiset(l) == multiset(l') && multiset(g) == multiset(g')
    ensures multiset(l + e + g) == multiset(l' + e + g')
  {
  }

  /** The sort always permutes its input. */
  lemma {:induction false} SortPermutes<T>(s: seq<T>, key: T -> int)
    ensures multiset(Sort(s, key)) == multiset(s)
    decreases |s|, 0
  {
    if |s| < 7 {
      if |s| > 0 {
        InsertPermutes(s, 1, key);
      }
    } else {
      hide SortPart, Left, Mid, Right;
      var l, e, g := Left(s, key), Mid(s, key), Right(s, key);
      LevelPermutes(s, key);
      SortPartPermutes(l, key);
      SortPartPermutes(g, key);
      Pieces(SortPart(l, key), l, e, SortPart(g, key), g);
    }
  }

  lemma {:induction false} SortPartPermutes<T>(s: seq<T>, key: T -> int)
    ensures multiset(SortPart(s, key)) == multiset(s)
    decreases |s|, 1
  {
    if |s| > 1 {
      SortPermutes(s, key);
    }
  }

  // ---------------------------------------------------------------- when it sorts

  ghost predicate Lt<T>(s: seq<T>, lo: int, hi: int, v: int, key: T -> int) {
    0 <= lo <= hi <= |s| && forall k :: lo <= k < hi ==> key(s[k]) < v
  }

  ghost predicate Eq<T>(s: seq<T>, lo: int, hi: int, v: int, key: T -> int) {
    0 <= lo <= hi <= |s| && forall k :: lo <= k < hi ==> key(s[k]) == v
  }

  ghost predicate Gt<T>(s: seq<T>, lo: int, hi: int, v: int, key: T -> int) {
    0 <= lo <= hi <= |s| && forall k :: lo <= k < hi ==> key(s[k]) > v
  }

  lemma {:induction false} BlocksSame<T>(s: seq<T>, i: nat, r: nat, count: nat)
    requires r <= count && i + count <= |s|
    ensures SwapBlocks(s, i, i, r, count) == s
    decreases count - r
  {
    if r < count {
      assert Swap(s, i + r, i + r) == s;
      BlocksSame(s, i, r + 1, count);
    }
  }

  /** No more equal keys at the start than smaller ones: the equal ones move behind them. */
  lemma StartFair<T>(s: seq<T>, m: nat, c: nat, v: int, key: T -> int)
    requires (m == 0 || c <= m) && Eq(s, 0, c, v, key) && Lt(s, c, c + m, v, key)
    ensures var t := SwapBlocks(s, 0, m, 0, c);
      Lt(t, 0, m, v, key) && Eq(t, m, m + c, v, key) && forall k :: m + c <= k < |s| ==> t[k] == s[k]
  {
    hide SwapBlocks;
    if m == 0 {
      BlocksSame(s, 0, 0, c);
    } else {
      BlocksApart(s, 0, m, 0, c);
    }
  }

  /** More of them, and some smaller: the smaller ones end up between equal ones. */
  lemma StartUnfair<T>(s: seq<T>, m: nat, c: nat, v: int, key: T -> int)
    requires 0 < m < c && Eq(s, 0, c, v, key) && Lt(s, c, c + m, v, key)
    ensures var t := SwapBlocks(s, 0, m, 0, c);
      Eq(t, 0, c - m, v, key) && Lt(t, c - m, c, v, key) && forall k :: m + c <= k < |s| ==> t[k] == s[k]
  {
    hide SwapBlocks;
    BlocksOverlap(s, 0, m, 0, c, v, key);
  }

  /** At the end of an array the equal keys always move before the larger ones. */
  lemma EndAny<T>(s: seq<T>, i: nat, u: nat, c: nat, v: int, key: T -> int)
    requires i + u + c == |s| && Gt(s, i, i + u, v, key) && Eq(s, i + u, i + u + c, v, key)
    ensures var t := SwapBlocks(s, i, i + u, 0, c);
      Eq(t, i, i + c, v, key) && Gt(t, i + c, |s|, v, key) && forall k :: 0 <= k < i ==> t[k] == s[k]
  {
    hide SwapBlocks;
    if u == 0 {
      BlocksSame(s, i, 0, c);
    } else if c <= u {
      BlocksApart(s, i, i + u, 0, c);
    } else {
      BlocksOverlapAbove(s, i, i + u, 0, c, v, key);
    }
  }

  lemma {:induction false} BlocksOverlapAbove<T>(s: seq<T>, i: nat, j: nat, r: nat, count: nat, v: int, key: T -> int)
    requires r <= count && i < j < i + count && j + count <= |s|
    requires forall k :: i + r <= k < j + r ==> key(s[k]) > v
    ensures var t := SwapBlocks(s, i, j, r, count);
      && (forall k :: 0 <= k < i + r || j + count <= k < |s| ==> t[k] == s[k])
      && (forall k :: i + r <= k < i + count ==> t[k] == s[k + j - i])
      && (forall k :: i + count <= k < j + count ==> key(t[k]) > v)
    decreases count - r
  {
    hide Swap;
    if r < count {
      BlocksOverlapAbove(Swap(s, i + r, j + r), i, j, r + 1, count, v, key);
    }
  }

  /** The partition in terms of pieces. */
  lemma PartedPieces<T>(s: seq<T>, key: T -> int)
    requires |s| >= 7
    ensures var p, v := Parted(s, key), key(s[Pivot(s, key)]);
      && 0 <= p.pa <= p.pb == p.pc + 1 <= p.pd + 1 <= |s|
      && Eq(p.s, 0, p.pa, v, key) && Lt(p.s, p.pa, p.pb, v, key)
      && Gt(p.s, p.pb, p.pd + 1, v, key) && Eq(p.s, p.pd + 1, |s|, v, key)
  {
    hide Parted;
    PartedPermutes(s, key);
  }

  lemma Kept<T>(s: seq<T>, t: seq<T>, lo: int, hi: int, v: int, key: T -> int)
    requires 0 <= lo <= hi <= |s| == |t| && forall k :: lo <= k < hi ==> t[k] == s[k]
    ensures Lt(s, lo, hi, v, key) ==> Lt(t, lo, hi, v, key)
    ensures Eq(s, lo, hi, v, key) ==> Eq(t, lo, hi, v, key)
    ensures Gt(s, lo, hi, v, key) ==> Gt(t, lo, hi, v, key)
  {
  }

  /** One level in terms of the partition. */
  lemma LevelIs<T>(s: seq<T>, key: T -> int)
    requires |s| >= 7
    ensures var p := Parted(s, key); var m, u, t := p.pb - p.pa, p.pd - p.pc, Gathered(p);
      && 0 <= m && 0 <= u && m + u < |s| == |p.s| == |t| && p.InRange() && p.pb == p.pc + 1
      && Left(s, key) == t[..m] && Mid(s, key) == t[m..|s| - u] && Right(s, key) == t[|s| - u..]
      && t == SwapBlocks(SwapBlocks(p.s, 0, m, 0, p.pa), p.pb, p.pd + 1, 0, |s| - 1 - p.pd)
      && (FairHere(s, key) <==> m == 0 || p.pa <= m)
  {
    hide Parted, SwapBlocks;
    PartsShorter(s, key);
  }

  /** An equal key in the part before `m`, and a smaller one before `h`. */
  lemma BetweenEqual<T>(t: seq<T>, m: int, a: int, h: int, v: int, key: T -> int)
    requires 0 < m < a <= h <= |t| && Eq(t, 0, a - m, v, key) && Lt(t, a - m, a, v, key)
    ensures key(t[..m][0]) == v && exists i :: 0 <= i < |t[m..h]| && key(t[m..h][i]) < v
  {
    assert t[m..h][a - 1 - m] == t[a - 1];
  }

  /** A fair level: smaller, equal and larger keys, one after the other. */
  lemma LevelFair<T>(s: seq<T>, key: T -> int)
    requires |s| >= 7 && FairHere(s, key)
    ensures var l, e, g, v := Left(s, key), Mid(s, key), Right(s, key), key(s[Pivot(s, key)]);
      Lt(l, 0, |l|, v, key) && Eq(e, 0, |e|, v, key) && Gt(g, 0, |g|, v, key)
  {
    hide *;
    LevelIs(s, key);
    PartedPieces(s, key);
    var p, v := Parted(s, key), key(s[Pivot(s, key)]);
    var m, u := p.pb - p.pa, p.pd - p.pc;
    var t1, t := SwapBlocks(p.s, 0, m, 0, p.pa), Gathered(p);
    StartFair(p.s, m, p.pa, v, key);
    Kept(p.s, t1, p.pb, p.pd + 1, v, key);
    Kept(p.s, t1, p.pd + 1, |s|, v, key);
    EndAny(t1, p.pb, u, |s| - 1 - p.pd, v, key);
    Kept(t1, t, 0, m, v, key);
    Kept(t1, t, m, p.pb, v, key);
    Adjacent(t, m, p.pb, |s| - u, v, key);
    Slices(t, m, |s| - u, v, key);
  }

  lemma Adjacent<T>(s: seq<T>, lo: int, mid: int, hi: int, v: int, key: T -> int)
    requires Eq(s, lo, mid, v, key) && Eq(s, mid, hi, v, key)
    ensures Eq(s, lo, hi, v, key)
  {
  }

  lemma Slices<T>(t: seq<T>, m: int, h: int, v: int, key: T -> int)
    requires Lt(t, 0, m, v, key) && Eq(t, m, h, v, key) && Gt(t, h, |t|, v, key)
    ensures Lt(t[..m], 0, m, v, key) && Eq(t[m..h], 0, h - m, v, key) && Gt(t[h..], 0, |t| - h, v, key)
  {
  }

  /** An unfair level: a key equal to the pivot is in the part that is sorted next, and a smaller one behind
      that part. */
  lemma LevelUnfair<T>(s: seq<T>, key: T -> int)
    requires |s| >= 7 && !FairHere(s, key)
    ensures var l, e, v := Left(s, key), Mid(s, key), key(s[Pivot(s, key)]);
      |l| > 0 && key(l[0]) == v && exists i :: 0 <= i < |e| && key(e[i]) < v
  {
    hide *;
    LevelIs(s, key);
    PartedPieces(s, key);
    var p, v := Parted(s, key), key(s[Pivot(s, key)]);
    var m, u := p.pb - p.pa, p.pd - p.pc;
    var t1, t := SwapBlocks(p.s, 0, m, 0, p.pa), Gathered(p);
    StartUnfair(p.s, m, p.pa, v, key);
    Kept(p.s, t1, p.pb, p.pd + 1, v, key);
    Kept(p.s, t1, p.pd + 1, |s|, v, key);
    EndAny(t1, p.pb, u, |s| - 1 - p.pd, v, key);
    Kept(t1, t, 0, p.pa - m, v, key);
    Kept(t1, t, p.pa - m, p.pa, v, key);
    BetweenEqual(t, m, p.pa, |s| - u, v, key);
    var e := Mid(s, key);
    assert e == t[m..|s| - u];
    SameSmaller(e, t[m..|s| - u], v, key);
  }

  lemma SameSmaller<T>(e: seq<T>, f: seq<T>, v: int, key: T -> int)
    requires e == f
    ensures (exists i :: 0 <= i < |f| && key(f[i]) < v) ==> exists i :: 0 <= i < |e| && key(e[i]) < v
  {
  }

  /** A permutation of a piece keeps what is true of all its keys. */
  lemma Permuted<T>(a: seq<T>, b: seq<T>, v: int, key: T -> int)
    requires multiset(a) == multiset(b)
    ensures Lt(a, 0, |a|, v, key) ==> Lt(b, 0, |b|, v, key)
    ensures Gt(a, 0, |a|, v, key) ==> Gt(b, 0, |b|, v, key)
  {
    forall k | 0 <= k < |b| ensures exists i :: 0 <= i < |a| && a[i] == b[k] {
      assert b[k] in multiset(b);
      assert b[k] in a;
    }
  }

  /** Smaller, equal and larger pieces make a sorted whole exactly if they are sorted. */
  lemma JoinSorted<T>(l: seq<T>, e: seq<T>, g: seq<T>, v: int, key: T -> int)
    requires Lt(l, 0, |l|, v, key) && Eq(e, 0, |e|, v, key) && Gt(g, 0, |g|, v, key)
    ensures SortedBy(l + e + g, key) <==> SortedBy(l, key) && SortedBy(g, key)
  {
    var r := l + e + g;
    if SortedBy(r, key) {
      forall i, j | 0 <= i < j < |l| ensures key(l[i]) <= key(l[j]) {
        assert r[i] == l[i] && r[j] == l[j];
      }
      forall i, j | 0 <= i < j < |g| ensures key(g[i]) <= key(g[j]) {
        assert r[i + |l| + |e|] == g[i] && r[j + |l| + |e|] == g[j];
      }
    }
  }

  /** The sort sorts exactly if it meets no partition in which more keys equal to the pivot are gathered at
      the start than are smaller than it, some being smaller. */
  lemma {:induction false} SortsIfFair<T>(s: seq<T>, key: T -> int)
    ensures SortedBy(Sort(s, key), key) <==> Fair(s, key)
    decreases |s|, 2
  {
    if |s| < 7 {
      if |s| > 0 {
        InsertSorts(s, 1, key);
      }
    } else {
      if FairHere(s, key) {
        FairLevel(s, key);
      } else {
        UnfairLevel(s, key);
      }
    }
  }

  lemma {:induction false} PartSortsIfFair<T>(s: seq<T>, key: T -> int)
    ensures SortedBy(SortPart(s, key), key) <==> Fair(s, key)
    decreases |s|, 3
  {
    if |s| > 1 {
      SortsIfFair(s, key);
    }
  }

  lemma {:induction false} FairLevel<T>(s: seq<T>, key: T -> int)
    requires |s| >= 7 && FairHere(s, key)
    ensures SortedBy(Sort(s, key), key) <==> Fair(s, key)
    decreases |s|, 1
  {
    hide Left, Mid, Right, SortPart, SortedBy, Lt, Eq, Gt;
    LevelFair(s, key);
    var l, e, g, v := Left(s, key), Mid(s, key), Right(s, key), key(s[Pivot(s, key)]);
    PartSortsIfFair(l, key);
    PartSortsIfFair(g, key);
    SortPartPermutes(l, key);
    SortPartPermutes(g, key);
    Permuted(l, SortPart(l, key), v, key);
    Permuted(g, SortPart(g, key), v, key);
    JoinSorted(SortPart(l, key), e, SortPart(g, key), v, key);
  }

  /** An unfair partition leaves a key equal to the pivot before a smaller one. */
  lemma UnfairLevel<T>(s: seq<T>, key: T -> int)
    requires |s| >= 7 && !FairHere(s, key)
    ensures !SortedBy(Sort(s, key), key)
  {
    hide Left, Mid, Right, SortPart, SortedBy;
    LevelUnfair(s, key);
    var l, e, g := Left(s, key), Mid(s, key), Right(s, key);
    SortPartPermutes(l, key);
    var i := StillThere(l, SortPart(l, key), l[0]);
    var j :| 0 <= j < |e| && key(e[j]) < key(l[0]);
    OutOfOrder(SortPart(l, key), e, SortPart(g, key), i, j, key);
  }

  lemma StillThere<T>(a: seq<T>, b: seq<T>, x: T) returns (i: nat)
    requires multiset(a) == multiset(b) && x in a
    ensures i < |b| && b[i] == x
  {
    assert x in multiset(a);
    assert x in b;
    i :| 0 <= i < |b| && b[i] == x;
  }

  lemma OutOfOrder<T>(l: seq<T>, e: seq<T>, g: seq<T>, i: nat, j: nat, key: T -> int)
    requires i < |l| && j < |e| && key(e[j]) < key(l[i])
    ensures !SortedBy(l + e + g, key)
  {
    var r := l + e + g;
    assert r[i] == l[i] && r[|l| + j] == e[j];
  }

  // ---------------------------------------------------------------- entries that differ

  ghost predicate Distinct<T>(s: seq<T>, key: T -> int) {
    forall i, j :: 0 <= i < j < |s| ==> key(s[i]) != key(s[j])
  }

  lemma {:induction false} TwoCopies<T>(s: seq<T>, x: T) returns (i: nat, j: nat)
    requires multiset(s)[x] >= 2
    ensures i < j < |s| && s[i] == x && s[j] == x
  {
    var last := |s| - 1;
    assert s == s[..last] + [s[last]];
    if s[last] == x {
      assert x in multiset(s[..last]);
      i :| 0 <= i < last && s[..last][i] == x;
      j := last;
    } else {
      i, j := TwoCopies(s[..last], x);
    }
  }

  lemma DistinctPermuted<T>(a: seq<T>, b: seq<T>, key: T -> int)
    requires multiset(a) == multiset(b) && Distinct(a, key)
    ensures Distinct(b, key)
  {
    forall i, j | 0 <= i < j < |b| ensures key(b[i]) != key(b[j]) {
      if b[i] == b[j] {
        assert b == b[..i] + [b[i]] + b[i + 1..j] + [b[j]] + b[j + 1..];
        var k, l := TwoCopies(a, b[i]);
        assert false;
      } else {
        assert b[i] in multiset(b) && b[j] in multiset(b);
        assert b[i] in a && b[j] in a;
      }
    }
  }

  lemma DistinctLevel<T>(s: seq<T>, key: T -> int)
    requires Distinct(s, key) && |s| >= 7
    ensures FairHere(s, key) && Distinct(Left(s, key), key) && Distinct(Right(s, key), key)
  {
    hide Parted, Gathered;
    PartsShorter(s, key);
    var p := Parted(s, key);
    PartedPermutes(s, key);
    GatheredPermutes(p);
    DistinctPermuted(s, p.s, key);
    DistinctPermuted(s, Gathered(p), key);
    PartedPieces(s, key);
    assert key(p.s[0]) != key(p.s[1]);
  }

  /** Entries that compare pairwise different make no partition unfair. */
  lemma {:induction false} DistinctIsFair<T>(s: seq<T>, key: T -> int)
    requires Distinct(s, key)
    ensures Fair(s, key)
    decreases |s|
  {
    if |s| >= 7 {
      hide Left, Right, Distinct, FairHere;
      DistinctLevel(s, key);
      DistinctIsFair(Left(s, key), key);
      DistinctIsFair(Right(s, key), key);
    }
  }

  lemma SortsDistinct<T>(s: seq<T>, key: T -> int)
    requires Distinct(s, key)
    ensures SortedBy(Sort(s, key), key) && multiset(Sort(s, key)) == multiset(s)
  {
    DistinctIsFair(s, key);
    SortsIfFair(s, key);
    SortPermutes(s, key);
  }

  function Itself(x: int): int { x }

  lemma UpOnce(p: Part<int>)
    requires p.InRange() && p.pa == p.pb <= p.pc && p.s[p.pb] == 1
    ensures Up(p, 1, Itself) == Up(p.(pa := p.pa + 1, pb := p.pb + 1), 1, Itself)
  {
    assert Swap(p.s, p.pa, p.pb) == p.s;
  }

  lemma UpLast(p: Part<int>)
    requires p.InRange() && p.pb == p.pc && p.s[p.pb] < 1
    ensures Up(p, 1, Itself) == p.(pb := p.pb + 1)
  {
  }

  /** Equal entries can be left out of order. */
  lemma NotSorted()
    ensures !SortedBy(Sort([1, 1, 1, 1, 1, 1, 0], Itself), Itself)
  {
    var s := [1, 1, 1, 1, 1, 1, 0];
    var p := Part(s, 0, 0, 6, 6);
    hide Up;
    UpOnce(p);
    UpOnce(p.(pa := 1, pb := 1));
    UpOnce(p.(pa := 2, pb := 2));
    UpOnce(p.(pa := 3, pb := 3));
    UpOnce(p.(pa := 4, pb := 4));
    UpOnce(p.(pa := 5, pb := 5));
    UpLast(p.(pa := 6, pb := 6));
    assert Parted(s, Itself) == p.(pa := 6, pb := 7);
    UnfairLevel(s, Itself);
  }
}
