/**
 When the write-back cache of Callgrind is the LRU cache it is meant to be.  Its tags are the
 upper bits of the lower half of an address, so it is an LRU list of tags for all addresses, and
 one of lines exactly for those that their tags tell apart.
*/
module WriteBackLru {
  import opened Common
  import opened CacheSim
  import opened WriteBack

  // ---------------------------------------------------------------- lines and tags

  /** A tag is that of the line modulo 2^32, ... */
  lemma TagOfLowBlock(lineSize: nat, sets: nat, a: nat)
    requires lineSize > 0 && sets > 0
    ensures UpperTag(lineSize * sets, a) == TagOf(lineSize, sets, a % UINT / lineSize)
  {
    hide UpperTag;
    Below32(lineSize * sets, a);
    TagOfBlock(lineSize, sets, a % UINT);
  }

  /** ... and in one set, two lines have the same tag exactly if they are the same. */
  lemma TagsAgree(lineSize: nat, sets: nat, b: nat, b2: nat)
    requires lineSize > 0 && sets > 0 && lineSize % 2 == 0 && b % sets == b2 % sets
    ensures TagOf(lineSize, sets, b) == TagOf(lineSize, sets, b2) <==> b == b2
  {
    hide TagOf;
    TagOfInjective(lineSize, sets, b, b2);
  }

  lemma Below32(m: nat, a: nat)
    requires m > 0
    ensures UpperTag(m, a) == UpperTag(m, a % UINT)
  {
  }

  /** How many lines there are in 4 GB. */
  function Lines(lineSize: nat): nat { if 0 < lineSize <= UINT then UINT / lineSize else 0 }

  /** The line that has the same place in the first 4 GB. */
  function LowLine(lineSize: nat, b: nat): nat { if Lines(lineSize) == 0 then b else b % Lines(lineSize) }

  /** The tag of a line. */
  function LineTag(lineSize: nat, sets: nat, b: nat): nat {
    if sets == 0 then 0 else TagOf(lineSize, sets, LowLine(lineSize, b))
  }

  /** Line size and number of sets are powers of two that together divide 4 GB. */
  ghost predicate Config(lineSize: nat, sets: nat) {
    lineSize > 0 && lineSize % 2 == 0 && sets > 0 && UINT % (lineSize * sets) == 0
  }

  lemma ConfigLines(lineSize: nat, sets: nat) returns (t: nat)
    requires Config(lineSize, sets)
    ensures t > 0 && Lines(lineSize) == sets * t && UINT == lineSize * (sets * t)
  {
    var m := lineSize * sets;
    t := UINT / m;
    assert UINT == m * t;
    assert m * t == lineSize * (sets * t);
    Remainder(UINT, lineSize, sets * t, 0);
    TimesZero(m, t);
    MulPositive(sets, t);
  }

  lemma TimesZero(x: nat, y: nat)
    ensures x * y > 0 ==> y > 0
  {
  }

  lemma MulPositive(x: nat, y: nat)
    requires x > 0 && y > 0
    ensures x * y > 0
  {
    MulOrder(x, 1, y);
  }

  /** Every address of a line has its tag. */
  lemma TagOfAddress(lineSize: nat, sets: nat, a: nat)
    requires Config(lineSize, sets)
    ensures UpperTag(lineSize * sets, a) == LineTag(lineSize, sets, a / lineSize)
  {
    var t := ConfigLines(lineSize, sets);
    var n, q, r := sets * t, a / UINT, a % UINT;
    MulPositive(sets, t);
    TagOfLowBlock(lineSize, sets, a);
    assert a == lineSize * (n * q) + r by {
      assert a == UINT * q + r;
      assert UINT * q == lineSize * n * q == lineSize * (n * q);
    }
    LineOfSum(lineSize, n * q, r);
    assert r / lineSize < n by {
      if r / lineSize >= n {
        MulOrder(lineSize, n, r / lineSize);
      }
    }
    Remainder(a / lineSize, n, q, r / lineSize);
  }

  lemma LineOfSum(l: nat, x: nat, r: nat)
    requires l > 0
    ensures (l * x + r) / l == x + r / l
  {
    assert l * x + r == l * (x + r / l) + r % l;
    Remainder(l * x + r, l, x + r / l, r % l);
  }

  /** In one set, two lines have the same tag exactly if they are the same modulo 2^32; and the tag of an empty place
      is that of the set's first line. */
  lemma LineTagsAgree(lineSize: nat, sets: nat, b: nat, b2: nat)
    requires Config(lineSize, sets)
    ensures !Dirty(LineTag(lineSize, sets, b)) && LineTag(lineSize, sets, 0) == 0
    ensures b % sets == b2 % sets ==>
      (LineTag(lineSize, sets, b) == LineTag(lineSize, sets, b2) <==> LowLine(lineSize, b) == LowLine(lineSize, b2))
    ensures LineTag(lineSize, sets, b) == 0 <==> LowLine(lineSize, b) < sets
  {
    var t := ConfigLines(lineSize, sets);
    MulPositive(sets, t);
    hide TagOf;
    var n := Lines(lineSize);
    SameSet(b, sets, t);
    SameSet(b2, sets, t);
    TagOfInjective(lineSize, sets, b % n, b2 % n);
    assert 0 % n == 0;
    ZeroTag(lineSize, sets);
    if b % n < sets {
      SmallTag(lineSize, sets, b % n);
    }
  }

  lemma SmallTag(lineSize: nat, sets: nat, b: nat)
    requires b < sets
    ensures TagOf(lineSize, sets, b) == 0
  {
    Remainder(b, sets, 0, b);
  }

  lemma SameSet(b: nat, sets: nat, t: nat)
    requires sets > 0 && t > 0 && sets * t > 0
    ensures b % (sets * t) % sets == b % sets
  {
    var n := sets * t;
    var q, r := b / n, b % n;
    var x, y := r / sets, r % sets;
    assert b == n * q + r && r == sets * x + y;
    Nested(sets, t, q, x, y);
    Remainder(b, sets, t * q + x, y);
  }

  lemma Nested(s: nat, t: nat, q: nat, x: nat, y: nat)
    ensures (s * t) * q + (s * x + y) == s * (t * q + x) + y
  {
    assert (s * t) * q == s * (t * q);
    assert s * (t * q + x) == s * (t * q) + s * x;
  }

  // ---------------------------------------------------------------- every address: LRU over tags

  datatype Access = Access(a: nat, size: nat, write: bool)

  /** At most a line, and not across the end of memory. */
  predicate Short(lineSize: nat, x: Access) { 1 <= x.size <= lineSize && x.a + x.size <= ADDR_SPACE }

  function WbCacheAfter(lineSize: nat, c: Tags, trace: seq<Access>): (d: Tags)
    requires Shaped(c) && lineSize > 0
    ensures Shaped(d) && SameShape(c, d)
  {
    if trace == [] then c
    else
      var x := Last(trace);
      RefWb(lineSize, WbCacheAfter(lineSize, c, Front(trace)), x.write, x.a, x.size).0
  }

  /** The tags that an access refers to in set `k`. */
  function TagsOf(lineSize: nat, sets: nat, k: nat, x: Access): seq<nat>
    requires lineSize > 0 && sets > 0
  {
    var last := Wrapped(x.a + x.size + ADDR_SPACE - 1);
    var k1, k2 := SetOf(lineSize, sets, x.a), SetOf(lineSize, sets, last);
    var t1, t2 := UpperTag(lineSize * sets, x.a), UpperTag(lineSize * sets, last);
    if k1 == k2 then if k == k1 then [t1] else []
    else if (k1 + 1) % sets != k2 then []
    else if k == k1 then [t1] else if k == k2 then [t2] else []
  }

  function TagsIn(lineSize: nat, sets: nat, k: nat, trace: seq<Access>): seq<nat>
    requires lineSize > 0 && sets > 0
  {
    if trace == [] then [] else TagsIn(lineSize, sets, k, Front(trace)) + TagsOf(lineSize, sets, k, Last(trace))
  }

  lemma EvenTags(lineSize: nat, sets: nat, a: nat)
    requires lineSize > 0 && lineSize % 2 == 0 && sets > 0
    ensures lineSize * sets > 0 && !Dirty(UpperTag(lineSize * sets, a))
  {
    var x, m, h := a % UINT, lineSize * sets, lineSize / 2;
    MulPositive(lineSize, sets);
    assert m == 2 * (h * sets);
    assert x == m * (x / m) + x % m;
    assert m * (x / m) == 2 * (h * sets * (x / m));
  }

  /** One access does to set `k` what references to its tags do, and nothing if it has none there. */
  lemma RefWbRow(lineSize: nat, w: Tags, k: nat, x: Access)
    requires lineSize > 0 && lineSize % 2 == 0 && Shaped(w) && k < |w|
    ensures var r, ts := RefWb(lineSize, w, x.write, x.a, x.size).0[k], TagsOf(lineSize, |w|, k, x);
      && |ts| <= 1
      && (ts == [] ==> r == w[k])
      && (ts != [] ==> !Dirty(ts[0]) && r == SetRefWb(w[k], x.write, ts[0]).0)
  {
    var last := Wrapped(x.a + x.size + ADDR_SPACE - 1);
    EvenTags(lineSize, |w|, x.a);
    EvenTags(lineSize, |w|, last);
    hide UpperTag, SetOf, Wrapped, SetRefWb, Dirty, Worse;
  }

  /** For all addresses: from an empty cache on, set `k` holds what the plain LRU list of the tags referenced in it
      holds, in which tag 0 is also an empty place. */
  lemma {:induction false} WriteBackIsTagLru(lineSize: nat, sets: nat, assoc: nat, k: nat, trace: seq<Access>)
    requires lineSize > 0 && lineSize % 2 == 0 && assoc > 0 && k < sets
    ensures var w := WbCacheAfter(lineSize, Empty(sets, assoc), trace);
      |w| == sets && Cleaned(w[k]) == TagsAfter(assoc, TagsIn(lineSize, sets, k, trace))
  {
    if trace == [] {
      assert Cleaned(Empty(sets, assoc)[k]) == seq(assoc, _ => 0);
    } else {
      var x, t := Last(trace), Front(trace);
      hide SetRefWb, RefWb, SetRef, TagsOf;
      WriteBackIsTagLru(lineSize, sets, assoc, k, t);
      var w := WbCacheAfter(lineSize, Empty(sets, assoc), t);
      RefWbRow(lineSize, w, k, x);
      var ts, before := TagsOf(lineSize, sets, k, x), TagsIn(lineSize, sets, k, t);
      if ts == [] {
        assert before + ts == before;
      } else {
        SetRefWbIsSetRef(w[k], x.write, ts[0]);
        TagsAfterStep(assoc, before, ts[0]);
        assert before + ts == before + [ts[0]];
      }
    }
  }

  /** The references of an access to set `k`, with what they do. */
  function RefsOf(lineSize: nat, sets: nat, k: nat, x: Access): (rs: seq<Ref>)
    requires lineSize > 0 && sets > 0
    ensures |rs| == |TagsOf(lineSize, sets, k, x)|
  {
    var ts := TagsOf(lineSize, sets, k, x);
    seq(|ts|, i requires 0 <= i < |ts| => Ref(ts[i], x.write))
  }

  function RefsIn(lineSize: nat, sets: nat, k: nat, trace: seq<Access>): seq<Ref>
    requires lineSize > 0 && sets > 0
  {
    if trace == [] then [] else RefsIn(lineSize, sets, k, Front(trace)) + RefsOf(lineSize, sets, k, Last(trace))
  }

  /** Every set of the cache is a set of its own, after the references to it. */
  lemma {:induction false} RowIsSet(lineSize: nat, sets: nat, assoc: nat, k: nat, trace: seq<Access>)
    requires lineSize > 0 && lineSize % 2 == 0 && assoc > 0 && k < sets
    ensures var w, refs := WbCacheAfter(lineSize, Empty(sets, assoc), trace), RefsIn(lineSize, sets, k, trace);
      |w| == sets && w[k] == WbAfter(assoc, refs) && Proper(refs)
  {
    if trace == [] {
      NoRefs(lineSize, sets, assoc, k);
    } else {
      var x, t := Last(trace), Front(trace);
      hide *;
      RowIsSet(lineSize, sets, assoc, k, t);
      TraceStep(lineSize, sets, assoc, k, trace);
      RefWbRow(lineSize, WbCacheAfter(lineSize, Empty(sets, assoc), t), k, x);
      RefsAdded(assoc, RefsIn(lineSize, sets, k, t), RefsOf(lineSize, sets, k, x));
    }
  }

  lemma NoRefs(lineSize: nat, sets: nat, assoc: nat, k: nat)
    requires lineSize > 0 && assoc > 0 && k < sets
    ensures var w := WbCacheAfter(lineSize, Empty(sets, assoc), []);
      |w| == sets && w[k] == WbAfter(assoc, []) && Proper(RefsIn(lineSize, sets, k, [])) && RefsIn(lineSize, sets, k, []) == []
  {
  }

  lemma TraceStep(lineSize: nat, sets: nat, assoc: nat, k: nat, trace: seq<Access>)
    requires lineSize > 0 && assoc > 0 && k < sets && trace != []
    ensures var t, x := Front(trace), Last(trace); var w := WbCacheAfter(lineSize, Empty(sets, assoc), t);
      && |w| == sets && Shaped(w)
      && WbCacheAfter(lineSize, Empty(sets, assoc), trace) == RefWb(lineSize, w, x.write, x.a, x.size).0
      && |WbCacheAfter(lineSize, Empty(sets, assoc), trace)| == sets
      && RefsIn(lineSize, sets, k, trace) == RefsIn(lineSize, sets, k, t) + RefsOf(lineSize, sets, k, x)
      && forall i :: 0 <= i < |RefsOf(lineSize, sets, k, x)| ==>
           RefsOf(lineSize, sets, k, x)[i] == Ref(TagsOf(lineSize, sets, k, x)[i], x.write)
  {
    hide RefWb, TagsOf, SetRefWb;
  }

  /** At most one reference more. */
  lemma RefsAdded(assoc: nat, refs: seq<Ref>, rs: seq<Ref>)
    requires assoc > 0 && |rs| <= 1 && Proper(refs) && (rs != [] ==> !Dirty(rs[0].tag))
    ensures Proper(refs + rs)
    ensures WbAfter(assoc, refs + rs)
      == if rs == [] then WbAfter(assoc, refs) else SetRefWb(WbAfter(assoc, refs), rs[0].write, rs[0].tag).0
  {
    hide SetRefWb;
    if rs == [] {
      assert refs + rs == refs;
    } else {
      assert Front(refs + rs) == refs && Last(refs + rs) == rs[0];
    }
  }

  /** What the set of the first line and that of the last byte report; the worse one is the result of the access. */
  lemma RefWbResult(lineSize: nat, w: Tags, x: Access)
    requires lineSize > 0 && lineSize % 2 == 0 && Shaped(w)
    ensures var n, last, res := |w|, Wrapped(x.a + x.size + ADDR_SPACE - 1), RefWb(lineSize, w, x.write, x.a, x.size).1;
      var k1, k2 := SetOf(lineSize, n, x.a), SetOf(lineSize, n, last);
      var r1, r2 := RefsOf(lineSize, n, k1, x), RefsOf(lineSize, n, k2, x);
      && (r1 == [] <==> r2 == []) && (r1 == [] ==> res == Hit)
      && (r1 != [] ==>
          var res1, res2 := SetRefWb(w[k1], x.write, r1[0].tag).1, SetRefWb(w[k2], x.write, r2[0].tag).1;
          && (res == MissDirty <==> res1 == MissDirty || res2 == MissDirty)
          && (res == Hit <==> res1 == Hit && res2 == Hit))
  {
    hide UpperTag, SetOf, Wrapped, SetRefWb, Dirty;
  }

  /** When a set that has seen these references evicts a dirty line at the next one. */
  ghost predicate EvictsDirty(assoc: nat, refs: seq<Ref>, tag: nat)
    requires assoc > 0
  {
    var lines := Cleaned(WbAfter(assoc, refs));
    tag !in lines && Last(lines) !in Front(lines) && Written(assoc, refs, Last(lines))
  }

  /** From an empty cache on, an access reports a dirty eviction if and only if the set of its first or of its last byte
      evicts a line that was written since it was installed there. */
  lemma WriteBackIff(lineSize: nat, sets: nat, assoc: nat, trace: seq<Access>, x: Access)
    requires lineSize > 0 && lineSize % 2 == 0 && assoc > 0 && sets > 0
    ensures var last := Wrapped(x.a + x.size + ADDR_SPACE - 1);
      RefWb(lineSize, WbCacheAfter(lineSize, Empty(sets, assoc), trace), x.write, x.a, x.size).1 == MissDirty <==>
        exists k :: 0 <= k < sets && (k == SetOf(lineSize, sets, x.a) || k == SetOf(lineSize, sets, last))
          && RefsOf(lineSize, sets, k, x) != []
          && EvictsDirty(assoc, RefsIn(lineSize, sets, k, trace), RefsOf(lineSize, sets, k, x)[0].tag)
  {
    var w, last := WbCacheAfter(lineSize, Empty(sets, assoc), trace), Wrapped(x.a + x.size + ADDR_SPACE - 1);
    var k1, k2 := SetOf(lineSize, sets, x.a), SetOf(lineSize, sets, last);
    RowReports(lineSize, sets, assoc, k1, trace, x);
    RowReports(lineSize, sets, assoc, k2, trace, x);
    RefWbResult(lineSize, w, x);
    hide *;
  }

  /** What one set reports for its reference of an access. */
  lemma RowReports(lineSize: nat, sets: nat, assoc: nat, k: nat, trace: seq<Access>, x: Access)
    requires lineSize > 0 && lineSize % 2 == 0 && assoc > 0 && k < sets
    ensures |WbCacheAfter(lineSize, Empty(sets, assoc), trace)| == sets
    ensures var w, rs := WbCacheAfter(lineSize, Empty(sets, assoc), trace), RefsOf(lineSize, sets, k, x);
      rs != [] ==>
        (SetRefWb(w[k], x.write, rs[0].tag).1 == MissDirty <==> EvictsDirty(assoc, RefsIn(lineSize, sets, k, trace), rs[0].tag))
  {
    RowIsSet(lineSize, sets, assoc, k, trace);
    RefWbRow(lineSize, WbCacheAfter(lineSize, Empty(sets, assoc), trace), k, x);
    var rs, refs := RefsOf(lineSize, sets, k, x), RefsIn(lineSize, sets, k, trace);
    if rs != [] {
      var r := rs[0];
      hide SetRefWb, Written, TagsOf, RefWb, Cleaned;
      assert Front(refs + [r]) == refs && Last(refs + [r]) == r;
      DirtyEvictionIff(assoc, refs + [r]);
    }
  }

  /** So an access within one line misses exactly if its tag was not referenced in the set, or as many other tags as
      there are ways were since; but tag 0 hits as long as there is an empty place. */
  lemma WriteBackMissIff(lineSize: nat, sets: nat, assoc: nat, trace: seq<Access>, x: Access)
    requires lineSize > 0 && lineSize % 2 == 0 && assoc > 0 && sets > 0
    requires SetOf(lineSize, sets, x.a) == SetOf(lineSize, sets, Wrapped(x.a + x.size + ADDR_SPACE - 1))
    ensures lineSize * sets > 0
    ensures var w := WbCacheAfter(lineSize, Empty(sets, assoc), trace);
      var tag, tags := UpperTag(lineSize * sets, x.a), TagsIn(lineSize, sets, SetOf(lineSize, sets, x.a), trace);
      var far := (tag in tags ==> |Since(tags, tag)| >= assoc) && (tag == 0 ==> |Elems(tags)| >= assoc);
      RefWb(lineSize, w, x.write, x.a, x.size).1 != Hit <==> far
  {
    EvenTags(lineSize, sets, x.a);
    var k, tag := SetOf(lineSize, sets, x.a), UpperTag(lineSize * sets, x.a);
    var w := WbCacheAfter(lineSize, Empty(sets, assoc), trace);
    var tags := TagsIn(lineSize, sets, k, trace);
    assert k < sets;
    WriteBackIsTagLru(lineSize, sets, assoc, k, trace);
    hide UpperTag, SetOf, Wrapped, SetRefWb, TagsIn, WbCacheAfter, Empty;
    SetRefWbIsSetRef(w[k], x.write, tag);
    MissIffFarAway(assoc, tags, tag);
  }

  // ---------------------------------------------------------------- when that is LRU over lines

  function Addresses(trace: seq<Access>): (t: Trace)
    ensures |t| == |trace|
  {
    seq(|trace|, i requires 0 <= i < |trace| => (trace[i].a, trace[i].size))
  }

  /** From empty caches on, every access hits in both models or misses in both. */
  ghost predicate Agree(lineSize: nat, sets: nat, assoc: nat, trace: seq<Access>)
    requires lineSize > 0 && sets > 0 && assoc > 0
  {
    trace != [] ==>
      var t, x := Front(trace), Last(trace);
      && Agree(lineSize, sets, assoc, t)
      && (RefWb(lineSize, WbCacheAfter(lineSize, Empty(sets, assoc), t), x.write, x.a, x.size).1 == Hit
          <==> !CacheRef(lineSize, CacheAfter(lineSize, Empty(sets, assoc), Addresses(t)), x.a, x.size).1)
  }

  /** The lines of the first and the last byte. */
  function FirstOf(lineSize: nat, x: Access): nat { if lineSize == 0 then 0 else x.a / lineSize }

  function LastOf(lineSize: nat, x: Access): nat { if lineSize == 0 || x.size == 0 then 0 else (x.a + x.size - 1) / lineSize }

  /** Accesses to these lines only. */
  ghost predicate Over(lineSize: nat, lines: set<nat>, trace: seq<Access>) {
    forall i :: 0 <= i < |trace| ==>
      Short(lineSize, trace[i]) && FirstOf(lineSize, trace[i]) in lines && LastOf(lineSize, trace[i]) in lines
  }

  /** No two of the lines are the same modulo 2^32, none but line 0 has the tag of an empty place, and if there is only
      one set, no two are neighbours: an access to both would be taken for one to the first. */
  ghost predicate Faithful(lineSize: nat, sets: nat, lines: set<nat>) {
    && (forall b, c :: b in lines && c in lines && LowLine(lineSize, b) == LowLine(lineSize, c) ==> b == c)
    && (forall b :: b in lines && LowLine(lineSize, b) < sets ==> b == 0)
    && (sets == 1 ==> NoNeighbours(lines))
  }

  ghost predicate NoNeighbours(lines: set<nat>) {
    forall b, c :: b in lines && c in lines ==> c != b + 1
  }

  /** A plain set, and a write-back set of the tags that `tag` gives. */
  ghost predicate Alike(tag: nat -> nat, p: seq<nat>, w: seq<nat>) {
    |p| == |w| > 0 && forall i :: 0 <= i < |p| ==> Clean(w[i]) == tag(p[i])
  }

  lemma AlikeIndex(tag: nat -> nat, p: seq<nat>, w: seq<nat>, b: nat)
    requires Alike(tag, p, w) && forall i :: 0 <= i < |p| && tag(p[i]) == tag(b) ==> p[i] == b
    ensures IndexOf(Cleaned(w), tag(b)) == IndexOf(p, b)
  {
    hide IndexOf;
    var i := IndexOf(p, b);
    forall j | 0 <= j < i ensures Cleaned(w)[j] != tag(b) {
      assert p[..i][j] == p[j];
    }
    IndexOfFirst(Cleaned(w), tag(b), i);
  }

  /** If the tag of `b` tells it from what is in the set, both hit or both miss, and they stay alike. */
  lemma AlikeStep(tag: nat -> nat, p: seq<nat>, w: seq<nat>, b: nat, write: bool)
    requires Alike(tag, p, w) && !Dirty(tag(b)) && forall i :: 0 <= i < |p| && tag(p[i]) == tag(b) ==> p[i] == b
    ensures var (w', res) := SetRefWb(w, write, tag(b));
      Alike(tag, SetRef(p, b).0, w') && (res == Hit <==> !SetRef(p, b).1)
  {
    AlikeIndex(tag, p, w, b);
    hide IndexOf, Alike, Cleaned, Mark, Clean, Dirty, Shift;
    var i := IndexOf(p, b);
    MarkCleans(tag(b), write);
    if i < |p| {
      AlikeAt(tag, p, w, i);
      MarkCleans(w[i], write);
      ShiftAlike(tag, p, w, i, b, Mark(w[i], write));
    } else {
      AlikeAt(tag, p, w, |p| - 1);
      ShiftAlike(tag, p, w, |p| - 1, b, Mark(tag(b), write));
    }
  }

  lemma MarkCleans(t: nat, write: bool)
    ensures Clean(Mark(t, write)) == Clean(t) && (!Dirty(t) ==> Clean(t) == t)
  {
    var h := t / 2;
    assert t == 2 * h + t % 2;
    assert (2 * h + 1) % 2 == 1;
  }

  lemma AlikeAt(tag: nat -> nat, p: seq<nat>, w: seq<nat>, i: nat)
    requires Alike(tag, p, w)
    ensures |p| == |w| > 0 && (i < |p| ==> Clean(w[i]) == tag(p[i]))
  {
  }

  lemma ShiftAlike(tag: nat -> nat, p: seq<nat>, w: seq<nat>, i: nat, b: nat, t: nat)
    requires Alike(tag, p, w) && i < |p| && i < |w| && Clean(t) == tag(b)
    ensures Alike(tag, Shift(p, i, b), Shift(w, i, t))
  {
    hide Clean;
    var p', w' := Shift(p, i, b), Shift(w, i, t);
    forall j | 0 <= j < |p| ensures Clean(w'[j]) == tag(p'[j]) {
      if 0 < j <= i {
        assert p'[j] == p[j - 1] && w'[j] == w[j - 1];
      } else if j > i {
        assert p'[j] == p[j] && w'[j] == w[j];
      }
    }
  }

  /** Lines of set `k`, and empty places. */
  ghost predicate Holds(sets: nat, lines: set<nat>, k: nat, p: seq<nat>)
    requires sets > 0
  {
    forall i :: 0 <= i < |p| ==> p[i] == 0 || (p[i] in lines && p[i] % sets == k)
  }

  lemma HoldsStep(sets: nat, lines: set<nat>, k: nat, p: seq<nat>, b: nat)
    requires sets > 0 && p != [] && Holds(sets, lines, k, p) && b in lines && b % sets == k
    ensures Holds(sets, lines, k, SetRef(p, b).0)
  {
    hide IndexOf;
  }

  ghost predicate RowOk(lineSize: nat, sets: nat, lines: set<nat>, k: nat, p: seq<nat>, w: seq<nat>)
    requires sets > 0
  {
    Alike((b: nat) => LineTag(lineSize, sets, b), p, w) && Holds(sets, lines, k, p)
  }

  lemma RowStep(lineSize: nat, sets: nat, lines: set<nat>, k: nat, p: seq<nat>, w: seq<nat>, b: nat, write: bool)
    requires Config(lineSize, sets) && Faithful(lineSize, sets, lines)
    requires RowOk(lineSize, sets, lines, k, p, w) && b in lines && b % sets == k
    ensures var (w', res) := SetRefWb(w, write, LineTag(lineSize, sets, b));
      RowOk(lineSize, sets, lines, k, SetRef(p, b).0, w') && (res == Hit <==> !SetRef(p, b).1)
  {
    var tag := (b: nat) => LineTag(lineSize, sets, b);
    LineTagsAgree(lineSize, sets, b, b);
    hide LineTag, SetRef, SetRefWb, Config;
    forall i | 0 <= i < |p| && tag(p[i]) == tag(b) ensures p[i] == b {
      LineTagsAgree(lineSize, sets, b, p[i]);
    }
    AlikeStep(tag, p, w, b, write);
    HoldsStep(sets, lines, k, p, b);
  }

  /** A plain cache and a write-back cache, set by set. */
  ghost predicate AllAlike(lineSize: nat, lines: set<nat>, p: Tags, w: Tags) {
    |p| == |w| > 0 && forall k :: 0 <= k < |p| ==> RowOk(lineSize, |p|, lines, k, p[k], w[k])
  }

  /** An access is to one line, or to two that are neighbours and in different sets. */
  lemma AccessLines(lineSize: nat, sets: nat, x: Access)
    requires lineSize > 0 && sets > 0 && Short(lineSize, x) && (sets >= 2 || FirstOf(lineSize, x) == LastOf(lineSize, x))
    ensures var last := x.a + x.size - 1; var b, c := FirstOf(lineSize, x), LastOf(lineSize, x);
      && Wrapped(x.a + x.size + ADDR_SPACE - 1) == last && b == x.a / lineSize && c == last / lineSize
      && (c == b || (c == b + 1 && b % sets != c % sets && (b % sets + 1) % sets == c % sets))
  {
    WrappedLast(x.a, x.size);
    hide Wrapped;
    LastLine(x.a, lineSize, x.size);
    if sets >= 2 {
      Neighbours(x.a / lineSize, sets);
    }
  }

  lemma LastLine(a: nat, lineSize: nat, size: nat)
    requires lineSize > 0 && 1 <= size <= lineSize
    ensures a / lineSize <= (a + size - 1) / lineSize <= a / lineSize + 1
  {
    DivWithin(a, lineSize, size - 1);
  }

  lemma WrappedLast(a: nat, size: nat)
    requires size >= 1 && a + size <= ADDR_SPACE
    ensures Wrapped(a + size + ADDR_SPACE - 1) == a + size - 1
    ensures (a + size + ADDR_SPACE - 1) % ADDR_SPACE == a + size - 1
  {
  }

  /** What an access does, in terms of its lines. */
  function WbLines(lineSize: nat, w: Tags, write: bool, b: nat, c: nat): (Tags, CacheResult)
    requires Shaped(w)
  {
    var n := |w|;
    var r1 := InSet(w, b % n, write, LineTag(lineSize, n, b));
    if c == b then r1
    else
      var r2 := InSet(r1.0, c % n, write, LineTag(lineSize, n, c));
      (r2.0, Worse(r1.1, r2.1))
  }

  function PlainLines(p: Tags, b: nat, c: nat): (Tags, bool)
    requires Shaped(p)
  {
    var r1 := BlockRef(p, b);
    if c == b then r1
    else
      var r2 := BlockRef(r1.0, c);
      (r2.0, r1.1 || r2.1)
  }

  lemma RefWbIs(lineSize: nat, w: Tags, x: Access)
    requires Shaped(w) && Config(lineSize, |w|) && Short(lineSize, x)
    requires |w| >= 2 || FirstOf(lineSize, x) == LastOf(lineSize, x)
    ensures RefWb(lineSize, w, x.write, x.a, x.size) == WbLines(lineSize, w, x.write, FirstOf(lineSize, x), LastOf(lineSize, x))
  {
    AccessLines(lineSize, |w|, x);
    TagOfAddress(lineSize, |w|, x.a);
    TagOfAddress(lineSize, |w|, x.a + x.size - 1);
    assert lineSize > 0;
    hide UpperTag, LineTag, Wrapped, InSet, Worse, Config, Short, FirstOf, LastOf;
  }

  lemma CacheRefIs(lineSize: nat, p: Tags, x: Access)
    requires Shaped(p) && lineSize > 0 && Short(lineSize, x) && (|p| >= 2 || FirstOf(lineSize, x) == LastOf(lineSize, x))
    ensures CacheRef(lineSize, p, x.a, x.size) == PlainLines(p, FirstOf(lineSize, x), LastOf(lineSize, x))
  {
    AccessLines(lineSize, |p|, x);
    WrappedLast(x.a, x.size);
    hide Wrapped, BlockRef, FirstOf, LastOf;
  }

  lemma LinesAlike(lineSize: nat, lines: set<nat>, p: Tags, w: Tags, write: bool, b: nat, c: nat)
    requires Shaped(p) && Shaped(w) && Config(lineSize, |p|) && Faithful(lineSize, |p|, lines)
    requires AllAlike(lineSize, lines, p, w) && b in lines && c in lines && (b == c || b % |p| != c % |p|)
    ensures AllAlike(lineSize, lines, PlainLines(p, b, c).0, WbLines(lineSize, w, write, b, c).0)
    ensures WbLines(lineSize, w, write, b, c).1 == Hit <==> !PlainLines(p, b, c).1
  {
    hide SetRef, SetRefWb, RowOk, LineTag, Faithful, Config;
    var n := |p|;
    RowStep(lineSize, n, lines, b % n, p[b % n], w[b % n], b, write);
    if c != b {
      RowStep(lineSize, n, lines, c % n, p[c % n], w[c % n], c, write);
    }
  }

  lemma RefAlike(lineSize: nat, lines: set<nat>, p: Tags, w: Tags, x: Access)
    requires Shaped(p) && Shaped(w) && Config(lineSize, |p|) && Short(lineSize, x)
    requires Faithful(lineSize, |p|, lines) && AllAlike(lineSize, lines, p, w)
    requires FirstOf(lineSize, x) in lines && LastOf(lineSize, x) in lines
    ensures AllAlike(lineSize, lines, CacheRef(lineSize, p, x.a, x.size).0, RefWb(lineSize, w, x.write, x.a, x.size).0)
    ensures RefWb(lineSize, w, x.write, x.a, x.size).1 == Hit <==> !CacheRef(lineSize, p, x.a, x.size).1
  {
    assert |p| == 1 ==> FirstOf(lineSize, x) == LastOf(lineSize, x) by {
      LastLine(x.a, lineSize, x.size);
    }
    AccessLines(lineSize, |p|, x);
    RefWbIs(lineSize, w, x);
    CacheRefIs(lineSize, p, x);
    hide FirstOf, LastOf, Config, Wrapped, RefWb, CacheRef, PlainLines, WbLines;
    LinesAlike(lineSize, lines, p, w, x.write, FirstOf(lineSize, x), LastOf(lineSize, x));
  }

  lemma EmptyAlike(lineSize: nat, sets: nat, assoc: nat, lines: set<nat>)
    requires Config(lineSize, sets) && assoc > 0
    ensures AllAlike(lineSize, lines, Empty(sets, assoc), Empty(sets, assoc))
  {
    LineTagsAgree(lineSize, sets, 0, 0);
    hide LineTag;
  }

  lemma {:induction false} FaithfulAgrees(lineSize: nat, sets: nat, assoc: nat, lines: set<nat>, trace: seq<Access>)
    requires Config(lineSize, sets) && assoc > 0 && Faithful(lineSize, sets, lines) && Over(lineSize, lines, trace)
    ensures AllAlike(lineSize, lines, CacheAfter(lineSize, Empty(sets, assoc), Addresses(trace)),
                     WbCacheAfter(lineSize, Empty(sets, assoc), trace))
    ensures Agree(lineSize, sets, assoc, trace)
  {
    var e := Empty(sets, assoc);
    assert lineSize > 0 && sets > 0;
    hide RefWb, CacheRef, AllAlike, Faithful, Config, Empty;
    if trace == [] {
      EmptyAlike(lineSize, sets, assoc, lines);
    } else {
      var t, x := Front(trace), Last(trace);
      assert forall i :: 0 <= i < |t| ==> t[i] == trace[i];
      FaithfulAgrees(lineSize, sets, assoc, lines, t);
      assert Addresses(trace)[..|trace| - 1] == Addresses(t);
      SizeAfter(lineSize, e, Addresses(t));
      RefAlike(lineSize, lines, CacheAfter(lineSize, e, Addresses(t)), WbCacheAfter(lineSize, e, t), x);
    }
  }

  lemma SizeAfter(lineSize: nat, c: Tags, t: Trace)
    requires lineSize > 0 && Shaped(c)
    ensures Shaped(CacheAfter(lineSize, c, t)) && |CacheAfter(lineSize, c, t)| == |c|
  {
  }

  // ---------------------------------------------------------------- ... and when it is not

  /** One byte is read from a line. */
  function OneByte(lineSize: nat, b: nat): Access { Access(b * lineSize, 1, false) }

  lemma OneLine(lineSize: nat, b: nat)
    requires lineSize > 0
    ensures FirstOf(lineSize, OneByte(lineSize, b)) == LastOf(lineSize, OneByte(lineSize, b)) == b
  {
    assert lineSize * b == b * lineSize;
    Remainder(b * lineSize, lineSize, b, 0);
  }

  /** A reference to one line hits if it finds the tag, or the line. */
  lemma OneRef(lineSize: nat, p: Tags, w: Tags, b: nat)
    requires Shaped(p) && Shaped(w) && |p| == |w| && Config(lineSize, |p|) && b * lineSize < ADDR_SPACE
    ensures var x, k, tag := OneByte(lineSize, b), b % |p|, LineTag(lineSize, |p|, b);
      var r, rw := CacheRef(lineSize, p, x.a, x.size), RefWb(lineSize, w, x.write, x.a, x.size);
      && r.0 == p[k := SetRef(p[k], b).0] && (r.1 <==> b !in p[k])
      && rw.0 == w[k := SetRefWb(w[k], false, tag).0] && (rw.1 == Hit <==> tag in Cleaned(w[k]))
  {
    var x := OneByte(lineSize, b);
    assert Short(lineSize, x);
    OneLine(lineSize, b);
    RefWbIs(lineSize, w, x);
    CacheRefIs(lineSize, p, x);
    hide Config, LineTag, RefWb, CacheRef, FirstOf, LastOf, Shift, OneByte;
    FoundIffIn(p[b % |p|], b);
    FoundIffIn(Cleaned(w[b % |p|]), LineTag(lineSize, |p|, b));
  }

  lemma FoundIffIn(s: seq<nat>, b: nat)
    ensures IndexOf(s, b) < |s| <==> b in s
  {
    var i := IndexOf(s, b);
    if i == |s| {
      assert s[..i] == s;
    }
  }

  lemma AgreeOne(lineSize: nat, sets: nat, assoc: nat, x: Access)
    requires lineSize > 0 && sets > 0 && assoc > 0
    ensures var e := Empty(sets, assoc);
      var hit, miss := RefWb(lineSize, e, x.write, x.a, x.size).1 == Hit, CacheRef(lineSize, e, x.a, x.size).1;
      Agree(lineSize, sets, assoc, [x]) <==> (hit <==> !miss)
  {
    assert Front([x]) == [] && Last([x]) == x && Addresses([]) == [];
  }

  lemma AgreeTwo(lineSize: nat, sets: nat, assoc: nat, x: Access, y: Access)
    requires lineSize > 0 && sets > 0 && assoc > 0 && Agree(lineSize, sets, assoc, [x, y])
    ensures var e := Empty(sets, assoc);
      var w, p := RefWb(lineSize, e, x.write, x.a, x.size).0, CacheRef(lineSize, e, x.a, x.size).0;
      RefWb(lineSize, w, y.write, y.a, y.size).1 == Hit <==> !CacheRef(lineSize, p, y.a, y.size).1
  {
    hide RefWb, CacheRef;
    assert Front([x, y]) == [x] && Last([x, y]) == y && Front([x]) == [] && Last([x]) == x;
    assert Addresses([x]) == [(x.a, x.size)] && [(x.a, x.size)][..0] == [];
  }

  /** A line with the tag of an empty place hits although it was never used. */
  lemma EmptyPlaceHits(lineSize: nat, sets: nat, assoc: nat, b: nat)
    requires Config(lineSize, sets) && assoc > 0 && b * lineSize < ADDR_SPACE && b != 0 && LowLine(lineSize, b) < sets
    ensures !Agree(lineSize, sets, assoc, [OneByte(lineSize, b)])
  {
    var e := Empty(sets, assoc);
    LineTagsAgree(lineSize, sets, b, b);
    OneRef(lineSize, e, e, b);
    hide Config, RefWb, CacheRef, LineTag, Agree;
    AgreeOne(lineSize, sets, assoc, OneByte(lineSize, b));
    assert Cleaned(e[b % sets])[0] == 0;
  }

  /** An empty set after one reference. */
  lemma FilledOnce(assoc: nat, b: nat)
    requires assoc > 0
    ensures var s := SetRef(seq(assoc, _ => 0), b).0; |s| == assoc && s[0] == b && forall i :: 0 <= i < assoc ==> s[i] == b || s[i] == 0
  {
    hide IndexOf;
  }

  lemma FilledWb(assoc: nat, tag: nat)
    requires assoc > 0 && !Dirty(tag)
    ensures var w := SetRefWb(seq(assoc, _ => 0), false, tag).0;
      |w| == assoc && Cleaned(w)[0] == tag && forall t :: t in Cleaned(w) ==> t == tag || t == 0
  {
    var e := seq(assoc, _ => 0);
    SetRefWbIsSetRef(e, false, tag);
    assert Cleaned(e) == e;
    FilledOnce(assoc, tag);
  }

  /** A line hits after another with the same tag. */
  lemma OtherLineHits(lineSize: nat, sets: nat, assoc: nat, y: nat, x: nat)
    requires Config(lineSize, sets) && assoc > 0 && y * lineSize < ADDR_SPACE && x * lineSize < ADDR_SPACE
    requires x != 0 && x != y && LowLine(lineSize, x) == LowLine(lineSize, y)
    ensures !Agree(lineSize, sets, assoc, [OneByte(lineSize, y), OneByte(lineSize, x)])
  {
    var e, k, tag := Empty(sets, assoc), y % sets, LineTag(lineSize, sets, y);
    SameLow(lineSize, sets, x, y);
    LineTagsAgree(lineSize, sets, x, y);
    OneRef(lineSize, e, e, y);
    var p, w := e[k := SetRef(e[k], y).0], e[k := SetRefWb(e[k], false, tag).0];
    OneRef(lineSize, p, w, x);
    FilledOnce(assoc, y);
    FilledWb(assoc, tag);
    hide Config, RefWb, CacheRef, LineTag, Agree, OneByte, IndexOf, SetRef, SetRefWb;
    assert x !in p[k] && Cleaned(w[k])[0] == tag;
    if Agree(lineSize, sets, assoc, [OneByte(lineSize, y), OneByte(lineSize, x)]) {
      AgreeTwo(lineSize, sets, assoc, OneByte(lineSize, y), OneByte(lineSize, x));
      assert false;
    }
  }

  /** The last byte of a line and the first of the next are read at once. */
  function Straddle(lineSize: nat, b: nat): Access { Access(b * lineSize + (if lineSize == 0 then 0 else lineSize - 1), 2, false) }

  lemma StraddleLines(lineSize: nat, b: nat)
    requires lineSize >= 2 && (b + 1) * lineSize < ADDR_SPACE
    ensures var x := Straddle(lineSize, b); Short(lineSize, x) && FirstOf(lineSize, x) == b && LastOf(lineSize, x) == b + 1
  {
    assert (b + 1) * lineSize == b * lineSize + lineSize && lineSize * b == b * lineSize;
    Remainder(b * lineSize + lineSize - 1, lineSize, b, lineSize - 1);
    Remainder(b * lineSize + lineSize, lineSize, b + 1, 0);
  }

  lemma StraddleRef(lineSize: nat, assoc: nat, b: nat)
    requires Config(lineSize, 1) && assoc > 0 && (b + 1) * lineSize < ADDR_SPACE
    ensures var e, x := Empty(1, assoc), Straddle(lineSize, b);
      && CacheRef(lineSize, e, x.a, x.size).0 == [SetRef(SetRef(e[0], b).0, b + 1).0]
      && RefWb(lineSize, e, x.write, x.a, x.size).0 == [SetRefWb(e[0], false, LineTag(lineSize, 1, b)).0]
  {
    var e, x := Empty(1, assoc), Straddle(lineSize, b);
    StraddleLines(lineSize, b);
    WrappedLast(x.a, x.size);
    TagOfAddress(lineSize, 1, x.a);
    hide Wrapped, UpperTag, LineTag, SetRef, SetRefWb;
  }

  /** With one set, an access to two lines is taken for one to the first, and the second one misses afterwards. */
  lemma NeighbourMisses(lineSize: nat, assoc: nat, b: nat)
    requires Config(lineSize, 1) && assoc > 0 && (b + 1) * lineSize < ADDR_SPACE
    requires LowLine(lineSize, b + 1) != 0 && LowLine(lineSize, b + 1) != LowLine(lineSize, b)
    ensures !Agree(lineSize, 1, assoc, [Straddle(lineSize, b), OneByte(lineSize, b + 1)])
  {
    hide Config, RefWb, CacheRef, LineTag, LowLine, Agree, OneByte, Straddle, SetRef, SetRefWb, IndexOf;
    var e, x, y := Empty(1, assoc), Straddle(lineSize, b), OneByte(lineSize, b + 1);
    var tag, tag2 := LineTag(lineSize, 1, b), LineTag(lineSize, 1, b + 1);
    StraddleRef(lineSize, assoc, b);
    OneSetTags(lineSize, b);
    FilledTwice(assoc, b, b + 1);
    FilledWb(assoc, tag);
    assert e[0] == seq(assoc, _ => 0);
    var p, w := [SetRef(SetRef(e[0], b).0, b + 1).0], [SetRefWb(e[0], false, tag).0];
    OneRef(lineSize, p, w, b + 1);
    if Agree(lineSize, 1, assoc, [x, y]) {
      AgreeTwo(lineSize, 1, assoc, x, y);
      assert false;
    }
  }

  lemma OneSetTags(lineSize: nat, b: nat)
    requires Config(lineSize, 1) && LowLine(lineSize, b + 1) != 0 && LowLine(lineSize, b + 1) != LowLine(lineSize, b)
    ensures lineSize > 0 && !Dirty(LineTag(lineSize, 1, b))
    ensures LineTag(lineSize, 1, b + 1) != LineTag(lineSize, 1, b) && LineTag(lineSize, 1, b + 1) != 0
  {
    assert lineSize > 0;
    hide LineTag, LowLine, Config;
    LineTagsAgree(lineSize, 1, b, b + 1);
    LineTagsAgree(lineSize, 1, b + 1, b);
    assert (b + 1) % 1 == 0 && b % 1 == 0;
  }

  lemma FilledTwice(assoc: nat, b: nat, c: nat)
    requires assoc > 0
    ensures var s := SetRef(SetRef(seq(assoc, _ => 0), b).0, c).0; |s| == assoc && c in s
  {
    hide IndexOf;
    assert SetRef(SetRef(seq(assoc, _ => 0), b).0, c).0[0] == c;
  }

  lemma SameLow(lineSize: nat, sets: nat, x: nat, y: nat)
    requires Config(lineSize, sets) && LowLine(lineSize, x) == LowLine(lineSize, y)
    ensures x % sets == y % sets
  {
    var t := ConfigLines(lineSize, sets);
    MulPositive(sets, t);
    SameSet(x, sets, t);
    SameSet(y, sets, t);
  }

  /** Exactly when the write-back cache is LRU: from empty caches on, every sequence of accesses to these lines hits and
      misses as in the plain cache, if and only if no two of the lines are the same modulo 2^32, none but line 0 is,
      modulo 2^32, the first line of its set, and in a cache of one set no two are neighbours. */
  lemma WriteBackIsLru(lineSize: nat, sets: nat, assoc: nat, lines: set<nat>)
    requires Config(lineSize, sets) && assoc > 0 && forall b :: b in lines ==> b * lineSize < ADDR_SPACE
    ensures Faithful(lineSize, sets, lines)
      <==> forall trace :: Over(lineSize, lines, trace) ==> Agree(lineSize, sets, assoc, trace)
  {
    assert lineSize > 0 && sets > 0;
    hide Config, Agree, LowLine, OneByte;
    if Faithful(lineSize, sets, lines) {
      forall trace | Over(lineSize, lines, trace) ensures Agree(lineSize, sets, assoc, trace) {
        FaithfulAgrees(lineSize, sets, assoc, lines, trace);
      }
    } else {
      var trace := Disagreement(lineSize, sets, assoc, lines);
    }
  }

  lemma Disagreement(lineSize: nat, sets: nat, assoc: nat, lines: set<nat>) returns (trace: seq<Access>)
    requires Config(lineSize, sets) && assoc > 0 && forall b :: b in lines ==> b * lineSize < ADDR_SPACE
    requires !Faithful(lineSize, sets, lines)
    ensures Over(lineSize, lines, trace) && !Agree(lineSize, sets, assoc, trace)
  {
    hide *;
    ConfigSize(lineSize, sets);
    if b :| b in lines && LowLine(lineSize, b) < sets && b != 0 {
      EmptyPlaceHits(lineSize, sets, assoc, b);
      OverOne(lineSize, lines, b);
      trace := [OneByte(lineSize, b)];
    } else if exists b, c :: b in lines && c in lines && LowLine(lineSize, b) == LowLine(lineSize, c) && b != c {
      var b, c :| b in lines && c in lines && LowLine(lineSize, b) == LowLine(lineSize, c) && b != c;
      var x, y := if b != 0 then b else c, if b != 0 then c else b;
      OtherLineHits(lineSize, sets, assoc, y, x);
      OverTwo(lineSize, lines, y, x);
      trace := [OneByte(lineSize, y), OneByte(lineSize, x)];
    } else {
      var b := NeighbourLines(lineSize, sets, lines);
      NeighbourMisses(lineSize, assoc, b);
      OverStraddle(lineSize, lines, b);
      trace := [Straddle(lineSize, b), OneByte(lineSize, b + 1)];
    }
  }

  lemma ConfigSize(lineSize: nat, sets: nat)
    requires Config(lineSize, sets)
    ensures lineSize >= 2 && sets > 0
  {
  }

  lemma OverOne(lineSize: nat, lines: set<nat>, b: nat)
    requires lineSize > 0 && b in lines && b * lineSize < ADDR_SPACE
    ensures Over(lineSize, lines, [OneByte(lineSize, b)])
  {
    OneLine(lineSize, b);
    hide FirstOf, LastOf;
  }

  lemma OverTwo(lineSize: nat, lines: set<nat>, b: nat, c: nat)
    requires lineSize > 0 && b in lines && c in lines && b * lineSize < ADDR_SPACE && c * lineSize < ADDR_SPACE
    ensures Over(lineSize, lines, [OneByte(lineSize, b), OneByte(lineSize, c)])
  {
    OneLine(lineSize, b);
    OneLine(lineSize, c);
    hide FirstOf, LastOf;
  }

  lemma OverStraddle(lineSize: nat, lines: set<nat>, b: nat)
    requires lineSize >= 2 && b in lines && b + 1 in lines && (b + 1) * lineSize < ADDR_SPACE
    ensures Over(lineSize, lines, [Straddle(lineSize, b), OneByte(lineSize, b + 1)])
  {
    StraddleLines(lineSize, b);
    OneLine(lineSize, b + 1);
    hide FirstOf, LastOf;
  }

  /** With one set, neighbours are what is left to be unfaithful. */
  lemma NeighbourLines(lineSize: nat, sets: nat, lines: set<nat>) returns (b: nat)
    requires !Faithful(lineSize, sets, lines)
    requires forall b :: b in lines && LowLine(lineSize, b) < sets ==> b == 0
    requires forall b, c :: b in lines && c in lines && LowLine(lineSize, b) == LowLine(lineSize, c) ==> b == c
    ensures sets == 1 && b in lines && b + 1 in lines
  {
    hide LowLine;
    var x, y :| x in lines && y in lines && y == x + 1;
    b := x;
  }

  lemma PlainHigh()
    ensures var c := [[0], [0]]; CacheRef(64, c, 128, 1).0 == [[2], [0]]
    ensures CacheRef(64, [[2], [0]], UINT + 128, 1).1
  {
    var c := [[0], [0]];
    assert IndexOf([0], 2) == 1;
    assert SetRef([0], 2).0 == [2] && c[0 := [2]] == [[2], [0]];
    assert (UINT + 128) / 64 == 67108866 && IndexOf([2], 67108866) == 1;
  }

  lemma NotThere(x: nat)
    requires x != 0
    ensures Cleaned([0]) == [0] && IndexOf([0], x) == 1
  {
  }

  lemma SetWritten()
    ensures SetRefWb([0], true, 128).0 == [129]
  {
    hide IndexOf, Cleaned;
    NotThere(128);
  }

  lemma Marked()
    ensures Cleaned([129]) == [128] && IndexOf([128], 128) == 0
  {
  }

  lemma SetRead()
    ensures SetRefWb([129], false, 128).1 == Hit
  {
    hide IndexOf, Cleaned;
    Marked();
  }

  lemma SetHigh()
    ensures InSet([[0], [0]], 0, true, 128).0 == [[129], [0]]
    ensures InSet([[129], [0]], 0, false, 128).1 == Hit
  {
    hide SetRefWb;
    SetWritten();
    SetRead();
    assert [[0], [0]][0 := [129]] == [[129], [0]];
  }

  lemma WriteBackHigh()
    ensures var c := [[0], [0]]; RefWb(64, c, true, 128, 1).0 == [[129], [0]]
    ensures RefWb(64, [[129], [0]], false, UINT + 128, 1).1 == Hit
  {
    assert UpperTag(128, 128) == 128 && UpperTag(128, UINT + 128) == 128;
    assert SetOf(64, 2, 128) == 0 && SetOf(64, 2, UINT + 128) == 0;
    assert Wrapped(128 + 1 + ADDR_SPACE - 1) == 128 && Wrapped(UINT + 128 + 1 + ADDR_SPACE - 1) == UINT + 128;
    hide UpperTag, SetOf, Wrapped, InSet;
    SetHigh();
  }

  /** A byte 4 GB above one just written hits in the write-back cache and misses in the plain one. */
  lemma HighAddressHits()
    ensures var c := [[0], [0]];
      var p, w := CacheRef(64, c, 128, 1).0, RefWb(64, c, true, 128, 1).0;
      CacheRef(64, p, UINT + 128, 1).1 && RefWb(64, w, false, UINT + 128, 1).1 == Hit
  {
    PlainHigh();
    WriteBackHigh();
  }

  /** A byte of line 1 hits in the empty write-back cache, as does one 4 GB above it, and misses in the plain one. */
  lemma LowAddressHits()
    ensures var c := [[0], [0]];
      RefWb(64, c, false, 64, 1).1 == Hit && RefWb(64, c, false, UINT + 64, 1).1 == Hit && CacheRef(64, c, 64, 1).1
  {
    hide *;
    LowLines();
    EmptySets();
    OneRef(64, [[0], [0]], [[0], [0]], 1);
    OneRef(64, [[0], [0]], [[0], [0]], 67108865);
  }

  /** Lines 1 and 67108865 have the tag of an empty place. */
  lemma LowLines()
    ensures Config(64, 2) && LineTag(64, 2, 1) == 0 && LineTag(64, 2, 67108865) == 0
    ensures OneByte(64, 1) == Access(64, 1, false) && OneByte(64, 67108865) == Access(UINT + 64, 1, false)
  {
    hide LineTag;
    LineTagsAgree(64, 2, 1, 1);
    LineTagsAgree(64, 2, 67108865, 1);
  }

  lemma EmptySets()
    ensures var c := [[0], [0]]; Shaped(c) && |c| == 2 && c[1 % 2] == [0] && c[67108865 % 2] == [0]
    ensures 0 in Cleaned([0]) && 1 !in [0] && 1 * 64 < ADDR_SPACE && 67108865 * 64 < ADDR_SPACE
  {
    assert Cleaned([0])[0] == 0;
  }
}
