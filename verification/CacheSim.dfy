/**
 The cache simulator of Cachegrind (`cg_sim.c`): an array of sets, each an array of
 block tags kept most recently used first, where tag 0 also stands for "empty".

 Line sizes and set counts are powers of two (checked when the cache is configured), so
 the shifts and masks of the source are written as division and remainder here.
*/
module CacheSim {

  // ---------------------------------------------------------------- one set, as a value

  /** The first position of `b` in `s`, or |s|. */
  function IndexOf(s: seq<nat>, b: nat): (i: nat)
    ensures i <= |s| && (i < |s| ==> s[i] == b) && b !in s[..i]
  {
    if s == [] || s[0] == b then 0 else 1 + IndexOf(s[1..], b)
  }

  /** `s` with entries 0 to `i` moved down one place, the last of them dropped, and `b` in front. */
  function Shift(s: seq<nat>, i: nat, b: nat): (t: seq<nat>)
    requires i < |s|
    ensures |t| == |s| && t[0] == b
    ensures forall k :: 0 < k < |s| ==> t[k] == if k <= i then s[k - 1] else s[k]
  {
    [b] + s[..i] + s[i + 1..]
  }

  /** A reference to block `b`: the new set, most recent first, and whether it missed. */
  function SetRef(s: seq<nat>, b: nat): (r: (seq<nat>, bool))
    requires s != []
    ensures |r.0| == |s|
  {
    var i := IndexOf(s, b);
    if i < |s| then (Shift(s, i, b), false) else (Shift(s, |s| - 1, b), true)
  }

  // ---------------------------------------------------------------- what the tags mean

  function Touch(r: seq<nat>, b: nat): seq<nat> {
    var i := IndexOf(r, b);
    if i < |r| then Shift(r, i, b) else [b] + r
  }

  /** The distinct blocks of a trace, the most recently referenced first. */
  function Recent(trace: seq<nat>): seq<nat> {
    if trace == [] then [] else Touch(Recent(trace[..|trace| - 1]), trace[|trace| - 1])
  }

  /** `r` cut down or filled up with zeros to `n` entries. */
  function Padded(r: seq<nat>, n: nat): (s: seq<nat>)
    ensures |s| == n
  {
    seq(n, i requires 0 <= i < n => if i < |r| then r[i] else 0)
  }

  /** The tags of an initially empty n-way set after a trace of references to it. */
  function TagsAfter(n: nat, trace: seq<nat>): (s: seq<nat>)
    requires n > 0
    ensures |s| == n
  {
    if trace == [] then seq(n, _ => 0) else SetRef(TagsAfter(n, trace[..|trace| - 1]), trace[|trace| - 1]).0
  }

  lemma IndexOfFirst(s: seq<nat>, b: nat, i: nat)
    requires i <= |s| && b !in s[..i] && (i < |s| ==> s[i] == b)
    ensures IndexOf(s, b) == i
  {
    var j := IndexOf(s, b);
    assert forall k :: 0 <= k < i ==> s[k] == s[..i][k];
    assert forall k :: 0 <= k < j ==> s[k] == s[..j][k];
  }

  /** Where a block is in a padded list. */
  lemma IndexOfPadded(r: seq<nat>, n: nat, b: nat)
    ensures var i := IndexOf(r, b);
      IndexOf(Padded(r, n), b) == if i < n && (i < |r| || b == 0) then i else n
  {
    var p, i := Padded(r, n), IndexOf(r, b);
    var j := if i < n && (i < |r| || b == 0) then i else n;
    forall k | 0 <= k < j ensures p[k] != b {
      assert k < i ==> r[..i][k] == r[k];
    }
    IndexOfFirst(p, b, j);
  }

  lemma TouchPadded(r: seq<nat>, n: nat, b: nat)
    requires n > 0
    ensures SetRef(Padded(r, n), b).0 == Padded(Touch(r, b), n)
    ensures SetRef(Padded(r, n), b).1 <==> !(IndexOf(r, b) < n && (IndexOf(r, b) < |r| || b == 0))
  {
    IndexOfPadded(r, n, b);
    hide IndexOf;
    var p, i := Padded(r, n), IndexOf(r, b);
    if i < n && (i < |r| || b == 0) {
      ShiftPadded(r, n, i, b);
    } else {
      ShiftPadded(r, n, n - 1, b);
    }
  }

  /** Moving entries down before or after the padding. */
  lemma ShiftPadded(r: seq<nat>, n: nat, i: nat, b: nat)
    requires i < n
    ensures i < |r| ==> Shift(Padded(r, n), i, b) == Padded(Shift(r, i, b), n)
    ensures i >= |r| || i == n - 1 ==> Shift(Padded(r, n), i, b) == Padded([b] + r, n)
  {
    var s := Shift(Padded(r, n), i, b);
    if i < |r| {
      assert s == Padded(Shift(r, i, b), n);
    }
    if i >= |r| || i == n - 1 {
      assert s == Padded([b] + r, n);
    }
  }

  /** A set's tags are always its blocks, most recent first, padded with zeros and cut to its ways. */
  lemma {:induction false} TagsAreRecent(n: nat, trace: seq<nat>)
    requires n > 0
    ensures TagsAfter(n, trace) == Padded(Recent(trace), n)
  {
    if trace != [] {
      var t, b := trace[..|trace| - 1], trace[|trace| - 1];
      TagsAreRecent(n, t);
      TouchPadded(Recent(t), n, b);
    }
  }

  /** The blocks referenced after the last reference to `b`. */
  function Since(trace: seq<nat>, b: nat): set<nat> {
    if trace == [] || trace[|trace| - 1] == b then {}
    else {trace[|trace| - 1]} + Since(trace[..|trace| - 1], b)
  }

  ghost predicate NoDup(r: seq<nat>) {
    forall i, j :: 0 <= i < j < |r| ==> r[i] != r[j]
  }

  function Elems(r: seq<nat>): set<nat> {
    set x | x in r
  }

  lemma {:induction false} ElemsCount(r: seq<nat>)
    requires NoDup(r)
    ensures |Elems(r)| == |r|
  {
    if r != [] {
      var t, x := r[..|r| - 1], r[|r| - 1];
      ElemsCount(t);
      assert Elems(r) == Elems(t) + {x};
      assert x !in t;
    }
  }

  lemma TouchNoDup(r: seq<nat>, x: nat)
    requires NoDup(r)
    ensures NoDup(Touch(r, x))
  {
    var i, t := IndexOf(r, x), Touch(r, x);
    forall k | 0 < k < |t| ensures t[k] != x && t[k] == r[if k <= i then k - 1 else k] {
      assert k <= i ==> r[..i][k - 1] == r[k - 1];
    }
  }

  lemma TouchElems(r: seq<nat>, x: nat)
    ensures Elems(Touch(r, x)) == Elems(r) + {x}
  {
    var i, t := IndexOf(r, x), Touch(r, x);
    forall y | y in r && y != x ensures y in t {
      var k :| 0 <= k < |r| && r[k] == y;
      assert t[if k < i then k + 1 else k] == y;
    }
    forall y | y in t && y != x ensures y in r {
      var k :| 0 <= k < |t| && t[k] == y;
      assert r[if k <= i then k - 1 else k] == y;
    }
    assert t[0] == x;
  }

  lemma {:induction false} RecentFacts(trace: seq<nat>)
    ensures NoDup(Recent(trace)) && Elems(Recent(trace)) == Elems(trace)
  {
    if trace != [] {
      var t, x := trace[..|trace| - 1], trace[|trace| - 1];
      RecentFacts(t);
      TouchNoDup(Recent(t), x);
      TouchElems(Recent(t), x);
      assert trace == t + [x];
    }
  }

  /** The entries above `b`. */
  function Above(r: seq<nat>, b: nat): seq<nat> {
    r[..IndexOf(r, b)]
  }

  /** What lies above `b` in the recency list is what was referenced since `b`. */
  lemma {:induction false} AboveIsSince(trace: seq<nat>, b: nat)
    ensures Elems(Above(Recent(trace), b)) == if b in trace then Since(trace, b) else Elems(trace)
  {
    if trace != [] {
      var t, x := trace[..|trace| - 1], trace[|trace| - 1];
      AboveIsSince(t, b);
      RecentFacts(t);
      TouchAbove(Recent(t), x, b);
      assert trace == t + [x];
      assert b in trace <==> b in t || b == x;
    }
  }

  lemma TouchAbove(r: seq<nat>, x: nat, b: nat)
    requires NoDup(r)
    ensures Elems(Above(Touch(r, x), b)) == if x == b then {} else {x} + Elems(Above(r, b))
  {
    if x == b {
      IndexOfFirst(Touch(r, x), b, 0);
    } else {
      AboveTouch(r, x, b);
      TouchElems(Above(r, b), x);
    }
  }

  lemma AboveTouch(r: seq<nat>, x: nat, b: nat)
    requires NoDup(r) && x != b
    ensures Above(Touch(r, x), b) == Touch(Above(r, b), x)
  {
    hide IndexOf, Touch;
    IndexOfPrefix(r, IndexOf(r, b), x);
    if IndexOf(r, x) < IndexOf(r, b) {
      TouchHigher(r, x, b);
    } else {
      TouchLower(r, x, b);
    }
  }

  /** Touching an entry above `b` leaves `b` where it is; ... */
  lemma TouchHigher(r: seq<nat>, x: nat, b: nat)
    requires NoDup(r) && x != b && IndexOf(r, x) < IndexOf(r, b) && IndexOf(r[..IndexOf(r, b)], x) == IndexOf(r, x)
    ensures Above(Touch(r, x), b) == Touch(r[..IndexOf(r, b)], x)
  {
    var i, j := IndexOf(r, x), IndexOf(r, b);
    hide IndexOf;
    var r' := Shift(r, i, x);
    assert r'[..j] == Shift(r[..j], i, x);
    assert forall k :: 0 < k < j ==> r'[k] == r[..j][if k <= i then k - 1 else k];
    IndexOfFirst(r', b, j);
  }

  /** ... touching another one moves it down. */
  lemma TouchLower(r: seq<nat>, x: nat, b: nat)
    requires x != b && IndexOf(r, x) >= IndexOf(r, b) && IndexOf(r[..IndexOf(r, b)], x) == IndexOf(r, b)
    ensures Above(Touch(r, x), b) == Touch(r[..IndexOf(r, b)], x)
  {
    var j := IndexOf(r, b);
    hide IndexOf;
    var r' := Touch(r, x);
    assert r'[..j + 1] == [x] + r[..j];
    IndexOfFirst(r', b, j + 1);
  }

  lemma IndexOfPrefix(r: seq<nat>, j: nat, x: nat)
    requires j <= |r|
    ensures IndexOf(r[..j], x) == if IndexOf(r, x) < j then IndexOf(r, x) else j
  {
    var i := IndexOf(r, x);
    if i < j {
      assert r[..j][..i] == r[..i];
      IndexOfFirst(r[..j], x, i);
    } else {
      assert r[..j][..j] == r[..i][..j];
      IndexOfFirst(r[..j], x, j);
    }
  }

  /** A reference to a block misses exactly when it was never referenced, or when at least as many
      other blocks as there are ways were referenced since - except that block 0 hits an empty way. */
  lemma MissIffFarAway(n: nat, trace: seq<nat>, b: nat)
    requires n > 0
    ensures SetRef(TagsAfter(n, trace), b).1
      <==> (b in trace ==> |Since(trace, b)| >= n) && (b == 0 ==> |Elems(trace)| >= n)
  {
    TagsAreRecent(n, trace);
    TouchPadded(Recent(trace), n, b);
    AboveIsSince(trace, b);
    RecentFacts(trace);
    var r := Recent(trace);
    ElemsCount(r);
    ElemsCount(Above(r, b));
    assert b in Elems(trace) <==> b in Elems(r);
    SinceIsSome(trace, b);
  }

  lemma {:induction false} SinceIsSome(trace: seq<nat>, b: nat)
    ensures Since(trace, b) <= Elems(trace)
  {
    if trace != [] {
      SinceIsSome(trace[..|trace| - 1], b);
      assert forall x :: x in trace[..|trace| - 1] ==> x in trace;
    }
  }

  // ---------------------------------------------------------------- a whole cache, as a value

  type Tags = seq<seq<nat>>

  const ADDR_SPACE := 0x1_0000_0000_0000_0000

  ghost predicate Shaped(c: Tags) {
    c != [] && forall k :: 0 <= k < |c| ==> c[k] != []
  }

  predicate SameShape(c: Tags, d: Tags) {
    |c| == |d| && forall k :: 0 <= k < |c| ==> |c[k]| == |d[k]|
  }

  function BlockRef(c: Tags, block: nat): (r: (Tags, bool))
    requires Shaped(c)
    ensures Shaped(r.0) && SameShape(c, r.0)
  {
    var k := block % |c|;
    var (s, miss) := SetRef(c[k], block);
    (c[k := s], miss)
  }

  function FirstBlock(lineSize: nat, a: nat): nat
    requires lineSize > 0
  {
    a / lineSize
  }

  /** The block of the last byte; the address arithmetic is that of a 64-bit machine word. */
  function LastBlock(lineSize: nat, a: nat, size: nat): nat
    requires lineSize > 0
  {
    (a + size + ADDR_SPACE - 1) % ADDR_SPACE / lineSize
  }

  /** A reference that touches one block, or two neighbouring ones; the source panics on any other. */
  predicate RefOk(lineSize: nat, a: nat, size: nat)
    requires lineSize > 0
  {
    FirstBlock(lineSize, a) <= LastBlock(lineSize, a, size) <= FirstBlock(lineSize, a) + 1
  }

  function CacheRef(lineSize: nat, c: Tags, a: nat, size: nat): (r: (Tags, bool))
    requires Shaped(c) && lineSize > 0
    ensures Shaped(r.0) && SameShape(c, r.0)
  {
    var b1, b2 := FirstBlock(lineSize, a), LastBlock(lineSize, a, size);
    if b1 == b2 then BlockRef(c, b1)
    else if b1 + 1 == b2 then
      var (c1, miss1) := BlockRef(c, b1);
      var (c2, miss2) := BlockRef(c1, b2);
      (c2, miss1 || miss2)
    else (c, true)
  }

  /** Accesses no longer than a line, not wrapping around the address space, never panic. */
  lemma ShortRefsAreOk(lineSize: nat, a: nat, size: nat)
    requires 1 <= size <= lineSize && a + size <= ADDR_SPACE
    ensures RefOk(lineSize, a, size)
  {
    assert (a + size + ADDR_SPACE - 1) % ADDR_SPACE == a + size - 1;
    DivWithin(a, lineSize, size - 1);
  }

  lemma DivWithin(x: nat, d: nat, k: nat)
    requires k < d
    ensures x / d <= (x + k) / d <= x / d + 1
  {
    var q, r := x / d, x % d;
    if r + k < d {
      Quotient(x + k, d, q, r + k);
    } else {
      Quotient(x + k, d, q + 1, r + k - d);
    }
  }

  lemma Quotient(y: nat, d: nat, q: nat, r: nat)
    requires r < d && y == d * q + r
    ensures y / d == q
  {
    var p := y / d;
    assert d * (p - q) == r - y % d;
    if p < q {
      MulOrder(d, p - q, -1);
    } else if p > q {
      MulOrder(d, 1, p - q);
    }
  }

  lemma MulOrder(d: nat, x: int, y: int)
    ensures x <= y ==> d * x <= d * y
  {
  }

  // ---------------------------------------------------------------- traces of references

  type Trace = seq<(nat, nat)>

  function CacheAfter(lineSize: nat, c: Tags, trace: Trace): (d: Tags)
    requires Shaped(c) && lineSize > 0
    ensures Shaped(d) && SameShape(c, d)
  {
    if trace == [] then c
    else
      var (a, size) := trace[|trace| - 1];
      CacheRef(lineSize, CacheAfter(lineSize, c, trace[..|trace| - 1]), a, size).0
  }

  function Misses(lineSize: nat, c: Tags, trace: Trace): nat
    requires Shaped(c) && lineSize > 0
  {
    if trace == [] then 0
    else
      var (a, size) := trace[|trace| - 1];
      var t := trace[..|trace| - 1];
      Misses(lineSize, c, t) + if CacheRef(lineSize, CacheAfter(lineSize, c, t), a, size).1 then 1 else 0
  }

  /** `c` has the same sets as `d`, each cut down to its first ways. */
  ghost predicate Narrower(c: Tags, d: Tags) {
    |c| == |d| && forall k :: 0 <= k < |c| ==> |c[k]| <= |d[k]| && c[k] == d[k][..|c[k]|]
  }

  lemma SetRefNarrower(s: seq<nat>, l: seq<nat>, b: nat)
    requires 0 < |s| <= |l| && s == l[..|s|]
    ensures SetRef(s, b).0 == SetRef(l, b).0[..|s|]
    ensures SetRef(l, b).1 ==> SetRef(s, b).1
  {
    IndexOfPrefix(l, |s|, b);
  }

  lemma BlockRefNarrower(c: Tags, d: Tags, b: nat)
    requires Shaped(c) && Shaped(d) && Narrower(c, d)
    ensures Narrower(BlockRef(c, b).0, BlockRef(d, b).0)
    ensures BlockRef(d, b).1 ==> BlockRef(c, b).1
  {
    SetRefNarrower(c[b % |c|], d[b % |c|], b);
  }

  lemma CacheRefNarrower(lineSize: nat, c: Tags, d: Tags, a: nat, size: nat)
    requires Shaped(c) && Shaped(d) && Narrower(c, d) && lineSize > 0
    ensures Narrower(CacheRef(lineSize, c, a, size).0, CacheRef(lineSize, d, a, size).0)
    ensures CacheRef(lineSize, d, a, size).1 ==> CacheRef(lineSize, c, a, size).1
  {
    var b1, b2 := FirstBlock(lineSize, a), LastBlock(lineSize, a, size);
    BlockRefNarrower(c, d, b1);
    BlockRefNarrower(BlockRef(c, b1).0, BlockRef(d, b1).0, b2);
  }

  /** On every trace, a cache with the same sets and more ways keeps the narrower one as a prefix and
      never misses more often. */
  lemma {:induction false} MoreWaysNeverMissMore(lineSize: nat, c: Tags, d: Tags, trace: Trace)
    requires Shaped(c) && Shaped(d) && Narrower(c, d) && lineSize > 0
    ensures Narrower(CacheAfter(lineSize, c, trace), CacheAfter(lineSize, d, trace))
    ensures Misses(lineSize, d, trace) <= Misses(lineSize, c, trace)
  {
    if trace != [] {
      var (a, size) := trace[|trace| - 1];
      var t := trace[..|trace| - 1];
      MoreWaysNeverMissMore(lineSize, c, d, t);
      CacheRefNarrower(lineSize, CacheAfter(lineSize, c, t), CacheAfter(lineSize, d, t), a, size);
    }
  }

  function Empty(sets: nat, assoc: nat): (c: Tags)
    requires sets > 0 && assoc > 0
    ensures Shaped(c)
  {
    seq(sets, _ => seq(assoc, _ => 0))
  }

  /** The blocks that a trace refers to in set `k` of `sets`, in order. */
  function BlocksIn(lineSize: nat, sets: nat, k: nat, trace: Trace): seq<nat>
    requires lineSize > 0 && sets > 0
  {
    if trace == [] then []
    else
      var (a, size) := trace[|trace| - 1];
      BlocksOf(lineSize, sets, k, BlocksIn(lineSize, sets, k, trace[..|trace| - 1]), a, size)
  }

  function BlocksOf(lineSize: nat, sets: nat, k: nat, before: seq<nat>, a: nat, size: nat): seq<nat>
    requires lineSize > 0 && sets > 0
  {
    var b1, b2 := FirstBlock(lineSize, a), LastBlock(lineSize, a, size);
    if b1 != b2 && b1 + 1 != b2 then before
    else
      var one := if b1 % sets == k then before + [b1] else before;
      if b1 != b2 && b2 % sets == k then one + [b2] else one
  }

  lemma TagsAfterStep(n: nat, trace: seq<nat>, b: nat)
    requires n > 0
    ensures TagsAfter(n, trace + [b]) == SetRef(TagsAfter(n, trace), b).0
  {
    assert (trace + [b])[..|trace|] == trace;
  }

  /** After any trace of addresses, set `k` holds its own blocks, most recent first. */
  lemma {:induction false} CacheIsRecent(lineSize: nat, sets: nat, assoc: nat, k: nat, trace: Trace)
    requires lineSize > 0 && assoc > 0 && k < sets
    ensures CacheAfter(lineSize, Empty(sets, assoc), trace)[k]
         == Padded(Recent(BlocksIn(lineSize, sets, k, trace)), assoc)
    ensures |CacheAfter(lineSize, Empty(sets, assoc), trace)| == sets
  {
    CacheIsTags(lineSize, sets, assoc, k, trace);
    TagsAreRecent(assoc, BlocksIn(lineSize, sets, k, trace));
  }

  lemma {:induction false} CacheIsTags(lineSize: nat, sets: nat, assoc: nat, k: nat, trace: Trace)
    requires lineSize > 0 && assoc > 0 && k < sets
    ensures CacheAfter(lineSize, Empty(sets, assoc), trace)[k] == TagsAfter(assoc, BlocksIn(lineSize, sets, k, trace))
  {
    if trace != [] {
      var (a, size) := trace[|trace| - 1];
      var t := trace[..|trace| - 1];
      CacheIsTags(lineSize, sets, assoc, k, t);
      StepInSet(lineSize, CacheAfter(lineSize, Empty(sets, assoc), t), k, a, size, assoc, BlocksIn(lineSize, sets, k, t));
    }
  }

  /** One reference, seen from set `k`: zero, one or two of its blocks. */
  lemma StepInSet(lineSize: nat, c: Tags, k: nat, a: nat, size: nat, assoc: nat, bs: seq<nat>)
    requires Shaped(c) && lineSize > 0 && k < |c| && assoc > 0 && c[k] == TagsAfter(assoc, bs)
    ensures CacheRef(lineSize, c, a, size).0[k]
         == TagsAfter(assoc, BlocksOf(lineSize, |c|, k, bs, a, size))
  {
    hide SetRef, TagsAfter, FirstBlock, LastBlock;
    var b1, b2 := FirstBlock(lineSize, a), LastBlock(lineSize, a, size);
    TagsAfterStep(assoc, bs, b1);
    TagsAfterStep(assoc, bs, b2);
    TagsAfterStep(assoc, bs + [b1], b2);
  }

  /** A reference no longer than a line that does not wrap around. */
  predicate Short(lineSize: nat, x: (nat, nat)) { 1 <= x.1 <= lineSize && x.0 + x.1 <= 0x1_0000_0000_0000_0000 }

  /** Byte `j` of a reference lies in block `b`. */
  predicate ByteIn(lineSize: nat, x: (nat, nat), j: nat, b: nat)
    requires lineSize > 0
  {
    j < x.1 && (x.0 + j) / lineSize == b
  }

  lemma BlocksOfBytes(lineSize: nat, x: (nat, nat), b: nat)
    requires lineSize > 0 && Short(lineSize, x)
    ensures var b1, b2 := FirstBlock(lineSize, x.0), LastBlock(lineSize, x.0, x.1);
      && (b2 == b1 || b2 == b1 + 1)
      && (b == b1 || b == b2 <==> exists j: nat :: ByteIn(lineSize, x, j, b))
  {
    hide *;
    LastBlockIs(lineSize, x.0, x.1);
    EndBytes(lineSize, x, b);
    forall j: nat | ByteIn(lineSize, x, j, b) ensures b == x.0 / lineSize || b == (x.0 + x.1 - 1) / lineSize {
      ByteBetween(lineSize, x, j, b);
    }
  }

  lemma EndBytes(lineSize: nat, x: (nat, nat), b: nat)
    requires lineSize > 0 && Short(lineSize, x)
    ensures x.1 > 0 && (b == x.0 / lineSize ==> ByteIn(lineSize, x, 0, b))
    ensures b == (x.0 + x.1 - 1) / lineSize ==> ByteIn(lineSize, x, x.1 - 1, b)
  {
    assert x.0 + (x.1 - 1) == x.0 + x.1 - 1;
  }

  lemma ByteBetween(lineSize: nat, x: (nat, nat), j: nat, b: nat)
    requires lineSize > 0 && Short(lineSize, x) && ByteIn(lineSize, x, j, b)
    ensures b == x.0 / lineSize || b == (x.0 + x.1 - 1) / lineSize
  {
    DivWithin(x.0, lineSize, x.1 - 1);
    DivWithin(x.0, lineSize, j);
    DivWithin(x.0 + j, lineSize, x.1 - 1 - j);
    assert x.0 + j + (x.1 - 1 - j) == x.0 + (x.1 - 1) == x.0 + x.1 - 1;
  }

  /** Some byte of the trace lies in block `b`. */
  ghost predicate Reached(lineSize: nat, trace: Trace, b: nat)
    requires lineSize > 0
  {
    exists i, j: nat :: 0 <= i < |trace| && ByteIn(lineSize, trace[i], j, b)
  }

  lemma ReachedMore(lineSize: nat, trace: Trace, b: nat)
    requires lineSize > 0 && trace != []
    ensures var t, x := trace[..|trace| - 1], trace[|trace| - 1];
      Reached(lineSize, trace, b) <==> Reached(lineSize, t, b) || exists j: nat :: ByteIn(lineSize, x, j, b)
  {
    hide ByteIn;
    var t, x := trace[..|trace| - 1], trace[|trace| - 1];
    forall i, j: nat | 0 <= i < |t| && ByteIn(lineSize, t[i], j, b) ensures Reached(lineSize, trace, b) {
      assert trace[i] == t[i];
    }
    forall i, j: nat | 0 <= i < |t| && ByteIn(lineSize, trace[i], j, b) ensures Reached(lineSize, t, b) {
      assert trace[i] == t[i];
    }
  }

  /** The blocks that a set is referred to for are those that some byte of the trace lies in, and that belong to it. */
  lemma {:induction false} BlocksExactly(lineSize: nat, sets: nat, k: nat, trace: Trace, b: nat)
    requires lineSize > 0 && k < sets && forall i :: 0 <= i < |trace| ==> Short(lineSize, trace[i])
    ensures b in BlocksIn(lineSize, sets, k, trace) <==> b % sets == k && Reached(lineSize, trace, b)
  {
    hide ByteIn, Reached, FirstBlock, LastBlock, Short, BlocksOf;
    if trace == [] {
      NoneReached(lineSize, b);
    } else {
      var t, x := trace[..|trace| - 1], trace[|trace| - 1];
      BlocksExactly(lineSize, sets, k, t, b);
      ReachedMore(lineSize, trace, b);
      BlocksOfBytes(lineSize, x, b);
      BlocksOfIs(lineSize, sets, k, BlocksIn(lineSize, sets, k, t), x.0, x.1, b);
    }
  }

  lemma NoneReached(lineSize: nat, b: nat)
    requires lineSize > 0
    ensures !Reached(lineSize, [], b)
  {
  }

  lemma BlocksOfIs(lineSize: nat, sets: nat, k: nat, before: seq<nat>, a: nat, size: nat, b: nat)
    requires lineSize > 0 && k < sets
    ensures var b1, b2 := FirstBlock(lineSize, a), LastBlock(lineSize, a, size);
      b2 == b1 || b2 == b1 + 1 ==>
        (b in BlocksOf(lineSize, sets, k, before, a, size) <==> b in before || (b % sets == k && (b == b1 || b == b2)))
  {
    hide FirstBlock, LastBlock;
  }

  /** A reference to block `b` of a set with `n` ways, after `blocks`, misses. */
  predicate FarAway(n: nat, blocks: seq<nat>, b: nat) {
    (b in blocks ==> |Since(blocks, b)| >= n) && (b == 0 ==> |Elems(blocks)| >= n)
  }

  /** A short reference after any trace misses exactly if its first block is far away or its last one is. */
  lemma RefMissIff(lineSize: nat, sets: nat, assoc: nat, trace: Trace, a: nat, size: nat)
    requires lineSize > 0 && sets > 0 && assoc > 0 && Short(lineSize, (a, size))
    ensures var b1, b2 := a / lineSize, (a + size - 1) / lineSize;
      var t1, t2 := BlocksIn(lineSize, sets, b1 % sets, trace), BlocksIn(lineSize, sets, b2 % sets, trace);
      CacheRef(lineSize, CacheAfter(lineSize, Empty(sets, assoc), trace), a, size).1 <==>
        FarAway(assoc, t1, b1) || (b2 != b1 && FarAway(assoc, if b1 % sets == b2 % sets then t2 + [b1] else t2, b2))
  {
    hide CacheRef, CacheAfter, BlocksIn, FarAway, Since, Elems, SetRef, TagsAfter;
    var c := CacheAfter(lineSize, Empty(sets, assoc), trace);
    var b1, b2 := a / lineSize, (a + size - 1) / lineSize;
    LastBlockIs(lineSize, a, size);
    CacheIsTags(lineSize, sets, assoc, b1 % sets, trace);
    CacheIsTags(lineSize, sets, assoc, b2 % sets, trace);
    TwoBlocks(lineSize, c, a, size, b1, b2);
    var t1, t2 := BlocksIn(lineSize, sets, b1 % sets, trace), BlocksIn(lineSize, sets, b2 % sets, trace);
    MissFar(assoc, t1, b1);
    MissFar(assoc, t2, b2);
    MissFar(assoc, t2 + [b1], b2);
    TagsAfterStep(assoc, t1, b1);
    assert |c| == sets;
  }

  lemma LastBlockIs(lineSize: nat, a: nat, size: nat)
    requires lineSize > 0 && Short(lineSize, (a, size))
    ensures var b1, b2 := a / lineSize, (a + size - 1) / lineSize;
      FirstBlock(lineSize, a) == b1 && LastBlock(lineSize, a, size) == b2 && (b2 == b1 || b2 == b1 + 1)
  {
    assert (a + size + ADDR_SPACE - 1) % ADDR_SPACE == a + size - 1;
    DivWithin(a, lineSize, size - 1);
  }

  lemma TwoBlocks(lineSize: nat, c: Tags, a: nat, size: nat, b1: nat, b2: nat)
    requires Shaped(c) && lineSize > 0 && FirstBlock(lineSize, a) == b1 && LastBlock(lineSize, a, size) == b2
    requires b2 == b1 || b2 == b1 + 1
    ensures CacheRef(lineSize, c, a, size).1 <==>
      SetRef(c[b1 % |c|], b1).1
      || (b2 != b1 && SetRef(if b1 % |c| == b2 % |c| then SetRef(c[b1 % |c|], b1).0 else c[b2 % |c|], b2).1)
  {
    hide SetRef, FirstBlock, LastBlock;
  }

  lemma MissFar(n: nat, trace: seq<nat>, b: nat)
    requires n > 0
    ensures SetRef(TagsAfter(n, trace), b).1 <==> FarAway(n, trace, b)
  {
    MissIffFarAway(n, trace, b);
  }

  // ---------------------------------------------------------------- two levels

  datatype Levels = Levels(l1: Tags, ll: Tags, miss1: bool, missL: bool)

  function RefGen(line1: nat, lineL: nat, l1: Tags, ll: Tags, a: nat, size: nat): (r: Levels)
    requires Shaped(l1) && Shaped(ll) && line1 > 0 && lineL > 0
    ensures Shaped(r.l1) && Shaped(r.ll)
  {
    var (l1', miss1) := CacheRef(line1, l1, a, size);
    if !miss1 then Levels(l1', ll, false, false)
    else
      var (ll', missL) := CacheRef(lineL, ll, a, size);
      Levels(l1', ll', true, missL)
  }

  function RefNoX(line1: nat, l1: Tags, ll: Tags, a: nat): (r: Levels)
    requires Shaped(l1) && Shaped(ll) && line1 > 0
    ensures Shaped(r.l1) && Shaped(r.ll)
  {
    var block := a / line1;
    var (l1', miss1) := BlockRef(l1, block);
    if !miss1 then Levels(l1', ll, false, false)
    else
      var (ll', missL) := BlockRef(ll, block);
      Levels(l1', ll', true, missL)
  }

  /** The test made when an instruction is instrumented. */
  predicate IsIrNoX(line1: nat, lineL: nat, a: nat, size: nat)
    requires line1 > 0 && lineL > 0
  {
    line1 == lineL && FirstBlock(line1, a) == LastBlock(line1, a, size)
  }

  /** The fast path does what the generic path does, wherever the test allows it. */
  lemma NoXIsGen(line1: nat, lineL: nat, l1: Tags, ll: Tags, a: nat, size: nat)
    requires Shaped(l1) && Shaped(ll) && line1 > 0 && lineL > 0 && IsIrNoX(line1, lineL, a, size)
    ensures RefNoX(line1, l1, ll, a) == RefGen(line1, lineL, l1, ll, a, size)
  {
  }
}
