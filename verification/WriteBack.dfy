/**
 Callgrind's write-back cache (`sim.c`), which keeps the dirty bit of a line in bit 0 of its
 tag: it hits and misses as the plain LRU cache does, and its dirty bits are right.
*/
module WriteBack {
  import opened Common
  import opened CacheSim

  const UINT := 0x1_0000_0000

  datatype CacheResult = Hit | Miss | MissDirty

  // ---------------------------------------------------------------- one set

  function Clean(t: nat): nat { t - t % 2 }

  predicate Dirty(t: nat) { t % 2 == 1 }

  /** `t | CACHELINE_DIRTY` if `write`. */
  function Mark(t: nat, write: bool): nat { if write then Clean(t) + 1 else t }

  function Cleaned(s: seq<nat>): (r: seq<nat>)
    ensures |r| == |s| && forall i :: 0 <= i < |s| ==> r[i] == Clean(s[i])
  {
    seq(|s|, i requires 0 <= i < |s| => Clean(s[i]))
  }

  /** `cachesim_setref_wb` */
  function SetRefWb(s: seq<nat>, write: bool, tag: nat): (r: (seq<nat>, CacheResult))
    requires s != []
    ensures |r.0| == |s|
  {
    var i := IndexOf(Cleaned(s), tag);
    if i < |s| then (Shift(s, i, Mark(s[i], write)), Hit)
    else (Shift(s, |s| - 1, Mark(tag, write)), if Dirty(s[|s| - 1]) then MissDirty else Miss)
  }

  /** Apart from the dirty bits, the set is the plain one. */
  lemma SetRefWbIsSetRef(s: seq<nat>, write: bool, tag: nat)
    requires s != [] && !Dirty(tag)
    ensures Cleaned(SetRefWb(s, write, tag).0) == SetRef(Cleaned(s), tag).0
    ensures SetRefWb(s, write, tag).1 != Hit <==> SetRef(Cleaned(s), tag).1
  {
    hide IndexOf, Shift;
    var i := IndexOf(Cleaned(s), tag);
    var l, r := Cleaned(SetRefWb(s, write, tag).0), SetRef(Cleaned(s), tag).0;
    assert i < |s| ==> Cleaned(s)[i] == tag;
    forall k | 0 <= k < |s| ensures l[k] == r[k] {
      if k > 0 {
        assert Cleaned(s)[k] == Clean(s[k]) && Cleaned(s)[k - 1] == Clean(s[k - 1]);
      }
    }
  }

  // ---------------------------------------------------------------- dirty bits

  /** A reference: the tag of its line, and whether it writes. */
  datatype Ref = Ref(tag: nat, write: bool)

  ghost predicate Proper(trace: seq<Ref>) {
    forall i :: 0 <= i < |trace| ==> !Dirty(trace[i].tag)
  }

  /** An n-way set after a trace. */
  function WbAfter(n: nat, trace: seq<Ref>): (s: seq<nat>)
    requires n > 0
    ensures |s| == n
  {
    if trace == [] then seq(n, _ => 0)
    else SetRefWb(WbAfter(n, Front(trace)), Last(trace).write, Last(trace).tag).0
  }

  function ResultAfter(n: nat, trace: seq<Ref>): CacheResult
    requires n > 0 && trace != []
  {
    SetRefWb(WbAfter(n, Front(trace)), Last(trace).write, Last(trace).tag).1
  }

  /** Whether a line has been written since it was last installed. */
  predicate Written(n: nat, trace: seq<Ref>, tag: nat)
    requires n > 0
  {
    trace != [] &&
    (if Last(trace).tag != tag then Written(n, Front(trace), tag)
     else Last(trace).write || (ResultAfter(n, trace) == Hit && Written(n, Front(trace), tag)))
  }

  /** Whether the line with this tag is in the set and dirty. */
  predicate IsDirty(s: seq<nat>, tag: nat) { tag + 1 in s }

  /** No tag is twice in a set; tag 0 has only empty places behind it. */
  ghost predicate Apart(s: seq<nat>) {
    forall i, j :: 0 <= i < j < |s| && Clean(s[i]) == Clean(s[j]) ==> s[j] == 0
  }

  /** Where an entry behind the first one has come from. */
  function Source(s: seq<nat>, tag: nat, k: nat): (j: nat)
    requires 0 < k < |s|
    ensures j < |s|
  {
    if k <= IndexOf(Cleaned(s), tag) then k - 1 else k
  }

  /** The tags of a set after a reference: the new one in front, the others as they were. */
  lemma Others(s: seq<nat>, write: bool, tag: nat, k: nat)
    requires 0 < k < |s| && Apart(s)
    ensures var j := Source(s, tag, k); SetRefWb(s, write, tag).0[k] == s[j] && (Clean(s[j]) != tag || s[j] == 0)
  {
    var c, i, j := Cleaned(s), IndexOf(Cleaned(s), tag), Source(s, tag, k);
    if j < i {
      assert c[..i][j] == c[j] && c[..i][j] in c[..i];
    } else {
      assert i < |s| && c[i] == tag == Clean(s[i]);
    }
  }

  lemma First(s: seq<nat>, write: bool, tag: nat)
    requires s != [] && !Dirty(tag)
    ensures var (s', res), i := SetRefWb(s, write, tag), IndexOf(Cleaned(s), tag);
      && Clean(s'[0]) == tag && (res == Hit <==> i < |s|)
      && (Dirty(s'[0]) <==> write || (res == Hit && Dirty(s[i]))) && (i < |s| ==> Clean(s[i]) == tag)
  {
    hide Shift;
  }

  /** Moving entries keeps them apart. */
  lemma StillApart(s: seq<nat>, write: bool, tag: nat)
    requires s != [] && !Dirty(tag) && Apart(s)
    ensures Apart(SetRefWb(s, write, tag).0)
  {
    hide SetRefWb;
    var s' := SetRefWb(s, write, tag).0;
    First(s, write, tag);
    forall i, j | 0 <= i < j < |s'| && Clean(s'[i]) == Clean(s'[j]) ensures s'[j] == 0 {
      Others(s, write, tag, j);
      if i > 0 {
        Others(s, write, tag, i);
      }
    }
  }

  /** An entry that is neither the one found nor, in a miss, the last one is still there. */
  lemma Stays(s: seq<nat>, write: bool, tag: nat, p: nat)
    requires p < |s| && Clean(s[p]) != tag && !Dirty(tag)
    requires SetRefWb(s, write, tag).1 != Hit ==> p < |s| - 1
    ensures s[p] in SetRefWb(s, write, tag).0
  {
    var i := IndexOf(Cleaned(s), tag);
    var s' := SetRefWb(s, write, tag).0;
    var k := if p < i then p + 1 else p;
    assert i < |s| ==> Cleaned(s)[i] == tag;
    assert s'[k] == s[p];
  }

  /** Which line of a set is dirty after a reference. */
  lemma DirtyAfter(s: seq<nat>, write: bool, ref: nat, tag: nat)
    requires s != [] && !Dirty(ref) && Apart(s)
    ensures var (s', res) := SetRefWb(s, write, ref);
      tag in Cleaned(s') ==>
        if tag == ref then IsDirty(s', tag) <==> write || (res == Hit && ref in Cleaned(s) && IsDirty(s, ref))
        else tag in Cleaned(s) && (IsDirty(s', tag) <==> IsDirty(s, tag))
  {
    hide SetRefWb;
    var (s', res) := SetRefWb(s, write, ref);
    First(s, write, ref);
    StillApart(s, write, ref);
    if tag in Cleaned(s') {
      if tag == ref {
        OneDirty(s', 0, ref);
        if res == Hit {
          var i := IndexOf(Cleaned(s), ref);
          assert Cleaned(s)[i] == ref;
          OneDirty(s, i, ref);
        }
      } else {
        OtherDirty(s, write, ref, tag);
      }
    }
  }

  /** Only the first entry with a tag can be dirty. */
  lemma OneDirty(s: seq<nat>, i: nat, tag: nat)
    requires Apart(s) && i < |s| && i == IndexOf(Cleaned(s), tag) && Clean(s[i]) == tag
    ensures IsDirty(s, tag) <==> Dirty(s[i])
  {
    hide IndexOf;
    if IsDirty(s, tag) {
      var k :| 0 <= k < |s| && s[k] == tag + 1;
      assert Cleaned(s)[k] == tag;
      assert !(k < i) by {
        assert forall l :: 0 <= l < i ==> Cleaned(s)[..i][l] == Cleaned(s)[l];
      }
    }
  }

  lemma OtherDirty(s: seq<nat>, write: bool, ref: nat, tag: nat)
    requires s != [] && !Dirty(ref) && Apart(s) && tag != ref && tag in Cleaned(SetRefWb(s, write, ref).0)
    ensures tag in Cleaned(s) && (IsDirty(SetRefWb(s, write, ref).0, tag) <==> IsDirty(s, tag))
  {
    hide SetRefWb;
    var s' := SetRefWb(s, write, ref).0;
    var k :| 0 <= k < |s'| && Clean(s'[k]) == tag;
    var q := CameFrom(s, write, ref, k);
    assert Cleaned(s)[q] == tag;
    if IsDirty(s', tag) {
      var l :| 0 <= l < |s'| && s'[l] == tag + 1;
      assert Clean(s'[l]) == tag;
      var p := CameFrom(s, write, ref, l);
    }
    if IsDirty(s, tag) {
      DirtyStays(s, write, ref, tag, q);
    }
  }

  /** In a miss no entry comes from the last place. */
  lemma LastGoes(s: seq<nat>, write: bool, tag: nat, k: nat)
    requires 0 < k < |s| && SetRefWb(s, write, tag).1 != Hit
    ensures Source(s, tag, k) < |s| - 1
  {
  }

  lemma CameFrom(s: seq<nat>, write: bool, ref: nat, k: nat) returns (q: nat)
    requires s != [] && !Dirty(ref) && Apart(s) && k < |s| && Clean(SetRefWb(s, write, ref).0[k]) != ref
    ensures q < |s| && SetRefWb(s, write, ref).0[k] == s[q] && (SetRefWb(s, write, ref).1 != Hit ==> q < |s| - 1)
  {
    First(s, write, ref);
    Others(s, write, ref, k);
    q := Source(s, ref, k);
    if SetRefWb(s, write, ref).1 != Hit {
      LastGoes(s, write, ref, k);
    }
  }

  lemma DirtyStays(s: seq<nat>, write: bool, ref: nat, tag: nat, q: nat)
    requires s != [] && !Dirty(ref) && !Dirty(tag) && Apart(s) && tag != ref && IsDirty(s, tag)
    requires q < |s| && Clean(s[q]) == tag && (SetRefWb(s, write, ref).1 != Hit ==> q < |s| - 1)
    ensures IsDirty(SetRefWb(s, write, ref).0, tag)
  {
    hide SetRefWb;
    var p :| 0 <= p < |s| && s[p] == tag + 1;
    assert Clean(s[p]) == tag;
    Stays(s, write, ref, p);
  }

  /** In a set, no tag is twice, and a line is dirty exactly if it was written since it was installed. */
  lemma {:induction false} DirtyIffWritten(n: nat, trace: seq<Ref>)
    requires n > 0 && Proper(trace)
    ensures var s := WbAfter(n, trace);
      Apart(s) && forall tag :: tag in Cleaned(s) ==> (IsDirty(s, tag) <==> Written(n, trace, tag))
  {
    if trace == [] {
      assert forall i :: 0 <= i < n ==> WbAfter(n, trace)[i] == 0;
    } else {
      hide SetRefWb, Cleaned, IsDirty;
      var t, r := Front(trace), Last(trace);
      assert forall i :: 0 <= i < |t| ==> t[i] == trace[i];
      DirtyIffWritten(n, t);
      var s, s' := WbAfter(n, t), WbAfter(n, trace);
      StillApart(s, r.write, r.tag);
      HitIff(s, r.write, r.tag);
      forall tag | tag in Cleaned(s') ensures IsDirty(s', tag) <==> Written(n, trace, tag) {
        DirtyAfter(s, r.write, r.tag, tag);
      }
    }
  }

  lemma HitIff(s: seq<nat>, write: bool, tag: nat)
    requires s != [] && !Dirty(tag)
    ensures SetRefWb(s, write, tag).1 == Hit <==> tag in Cleaned(s)
  {
    var i := IndexOf(Cleaned(s), tag);
    if i == |s| {
      assert Cleaned(s)[..i] == Cleaned(s);
    } else {
      assert Cleaned(s)[i] == tag;
    }
  }

  // ---------------------------------------------------------------- evictions

  function Writes(trace: seq<Ref>, tag: nat): nat {
    if trace == [] then 0
    else Writes(Front(trace), tag) + if Last(trace).tag == tag && Last(trace).write then 1 else 0
  }

  /** How often a line has been evicted while it was dirty. */
  function DirtyEvictions(n: nat, trace: seq<Ref>, tag: nat): nat
    requires n > 0
  {
    if trace == [] then 0
    else
      DirtyEvictions(n, Front(trace), tag)
        + if ResultAfter(n, trace) == MissDirty && Clean(Last(WbAfter(n, Front(trace)))) == tag then 1 else 0
  }

  // ---------------------------------------------------------------- exactly when a dirty line is evicted

  /** One reference in figures: a dirty line is evicted or stays dirty, and one not yet dirty gets so by a write. */
  lemma EvictionBalance(s: seq<nat>, write: bool, ref: nat, tag: nat)
    requires s != [] && !Dirty(ref) && !Dirty(tag) && Apart(s)
    ensures var (s', res) := SetRefWb(s, write, ref);
      var evicted, gets := res == MissDirty && Clean(Last(s)) == tag, ref == tag && write && !(res == Hit && IsDirty(s, tag));
      (if evicted then 1 else 0) + (if IsDirty(s', tag) then 1 else 0)
        == (if IsDirty(s, tag) then 1 else 0) + (if gets then 1 else 0)
  {
    hide SetRefWb;
    var (s', res) := SetRefWb(s, write, ref);
    HitIff(s, write, ref);
    MissIs(s, write, ref);
    if ref == tag {
      OwnDirty(s, write, ref);
    } else if res == Hit || Clean(Last(s)) != tag {
      KeptDirty(s, write, ref, tag);
    } else {
      VictimDirty(s, write, ref);
    }
  }

  /** Which result a miss has. */
  lemma MissIs(s: seq<nat>, write: bool, ref: nat)
    requires s != []
    ensures var res := SetRefWb(s, write, ref).1; res != Hit ==> (res == MissDirty <==> Dirty(Last(s)))
  {
  }

  /** The line that is referred to. */
  lemma OwnDirty(s: seq<nat>, write: bool, ref: nat)
    requires s != [] && !Dirty(ref) && Apart(s)
    ensures var (s', res) := SetRefWb(s, write, ref);
      && (IsDirty(s', ref) <==> write || (res == Hit && IsDirty(s, ref)))
      && (res != Hit ==> !IsDirty(s, ref) && Clean(Last(s)) != ref)
  {
    hide SetRefWb;
    var (s', res) := SetRefWb(s, write, ref);
    First(s, write, ref);
    DirtyAfter(s, write, ref, ref);
    HitIff(s, write, ref);
    assert Cleaned(s')[0] == ref;
    if res != Hit {
      assert Cleaned(s)[|s| - 1] == Clean(Last(s));
      NotDirty(s, ref);
    }
  }

  lemma NotDirty(s: seq<nat>, tag: nat)
    requires !Dirty(tag) && tag !in Cleaned(s)
    ensures !IsDirty(s, tag)
  {
    forall k | 0 <= k < |s| ensures s[k] != tag + 1 {
      assert Cleaned(s)[k] == Clean(s[k]) != tag;
    }
  }

  /** Another line that is not evicted. */
  lemma KeptDirty(s: seq<nat>, write: bool, ref: nat, tag: nat)
    requires s != [] && !Dirty(ref) && !Dirty(tag) && Apart(s) && tag != ref
    requires SetRefWb(s, write, ref).1 == Hit || Clean(Last(s)) != tag
    ensures IsDirty(SetRefWb(s, write, ref).0, tag) <==> IsDirty(s, tag)
  {
    hide SetRefWb;
    var s' := SetRefWb(s, write, ref).0;
    if IsDirty(s', tag) {
      var l :| 0 <= l < |s'| && s'[l] == tag + 1;
      assert Clean(s'[l]) == tag;
      var p := CameFrom(s, write, ref, l);
    }
    if IsDirty(s, tag) {
      var p :| 0 <= p < |s| && s[p] == tag + 1;
      assert Clean(s[p]) == tag;
      Stays(s, write, ref, p);
    }
  }

  /** The line in the last place, which goes. */
  lemma VictimDirty(s: seq<nat>, write: bool, ref: nat)
    requires s != [] && !Dirty(ref) && Apart(s) && SetRefWb(s, write, ref).1 != Hit && Clean(Last(s)) != ref
    ensures Dirty(Last(s)) ==> IsDirty(s, Clean(Last(s))) && !IsDirty(SetRefWb(s, write, ref).0, Clean(Last(s)))
    ensures !Dirty(Last(s)) ==> (IsDirty(SetRefWb(s, write, ref).0, Last(s)) <==> IsDirty(s, Last(s)))
  {
    hide SetRefWb;
    var s', v := SetRefWb(s, write, ref).0, Clean(Last(s));
    if IsDirty(s', v) {
      var l :| 0 <= l < |s'| && s'[l] == v + 1;
      assert Clean(s'[l]) == v;
      var p := CameFrom(s, write, ref, l);
      assert s[p] == v + 1 && p < |s| - 1;
    }
    if IsDirty(s, v) && !Dirty(Last(s)) {
      var p :| 0 <= p < |s| && s[p] == v + 1;
      assert p < |s| - 1 && Clean(s[p]) == v;
      Stays(s, write, ref, p);
    }
  }

  /** How often a write found the line not in the set, or not yet written since it was installed. */
  function FirstWrites(n: nat, trace: seq<Ref>, tag: nat): nat
    requires n > 0
  {
    if trace == [] then 0
    else
      var t, r := Front(trace), Last(trace);
      FirstWrites(n, t, tag)
        + if r.tag == tag && r.write && !(tag in Cleaned(WbAfter(n, t)) && Written(n, t, tag)) then 1 else 0
  }

  /** A line is evicted dirty, or dirty now, exactly as often as a write was the first one since it was installed. */
  lemma {:induction false} EvictionsExact(n: nat, trace: seq<Ref>, tag: nat)
    requires n > 0 && Proper(trace) && !Dirty(tag)
    ensures DirtyEvictions(n, trace, tag) + (if IsDirty(WbAfter(n, trace), tag) then 1 else 0) == FirstWrites(n, trace, tag)
  {
    if trace == [] {
      assert tag + 1 !in WbAfter(n, trace);
    } else {
      hide SetRefWb, Cleaned, IsDirty, Written;
      var t, r := Front(trace), Last(trace);
      assert forall i :: 0 <= i < |t| ==> t[i] == trace[i];
      EvictionsExact(n, t, tag);
      DirtyIffWritten(n, t);
      HitIff(WbAfter(n, t), r.write, r.tag);
      EvictionBalance(WbAfter(n, t), r.write, r.tag, tag);
    }
  }

  lemma {:induction false} FirstWritesBound(n: nat, trace: seq<Ref>, tag: nat)
    requires n > 0
    ensures FirstWrites(n, trace, tag) <= Writes(trace, tag)
  {
    hide Written, WbAfter;
    if trace != [] {
      FirstWritesBound(n, Front(trace), tag);
    }
  }

  /** So a line is written at least that often. */
  lemma EvictionsBound(n: nat, trace: seq<Ref>, tag: nat)
    requires n > 0 && Proper(trace) && !Dirty(tag)
    ensures DirtyEvictions(n, trace, tag) + (if IsDirty(WbAfter(n, trace), tag) then 1 else 0) <= Writes(trace, tag)
  {
    hide *;
    EvictionsExact(n, trace, tag);
    FirstWritesBound(n, trace, tag);
  }

  /** A reference reports a dirty eviction if and only if it misses, the last place holds a line and not just nothing,
      and that line was written since it was installed. */
  lemma DirtyEvictionIff(n: nat, trace: seq<Ref>)
    requires n > 0 && Proper(trace) && trace != []
    ensures var t := Front(trace); var lines := Cleaned(WbAfter(n, t));
      ResultAfter(n, trace) == MissDirty <==>
        Last(trace).tag !in lines && Last(lines) !in Front(lines) && Written(n, t, Last(lines))
  {
    var t, r := Front(trace), Last(trace);
    var s := WbAfter(n, t);
    assert forall i :: 0 <= i < |t| ==> t[i] == trace[i];
    DirtyIffWritten(n, t);
    hide SetRefWb, Written;
    HitIff(s, r.write, r.tag);
    MissIs(s, r.write, r.tag);
    LastPlace(s);
  }

  /** The entry in the last place is dirty exactly if it is its line's only one, and its line is dirty. */
  lemma LastPlace(s: seq<nat>)
    requires s != [] && Apart(s)
    ensures var lines := Cleaned(s);
      Last(lines) in lines && (Dirty(Last(s)) <==> Last(lines) !in Front(lines) && IsDirty(s, Last(lines)))
  {
    var lines, v := Cleaned(s), Clean(Last(s));
    assert lines[|s| - 1] == v == Last(lines);
    if Dirty(Last(s)) {
      assert s[|s| - 1] == v + 1;
      forall k | 0 <= k < |s| - 1 ensures Front(lines)[k] != v {
        assert lines[k] == Clean(s[k]) && s[|s| - 1] != 0;
      }
    } else if IsDirty(s, v) {
      var k :| 0 <= k < |s| && s[k] == v + 1;
      assert k < |s| - 1 && Front(lines)[k] == Clean(s[k]) == v;
    }
  }

  // ---------------------------------------------------------------- a whole cache

  /** `a & tag_mask`: the mask is made from a 32-bit one, so bits above 32 are lost.  `m` is 1 << tag_shift. */
  function UpperTag(m: nat, a: nat): nat
    requires m > 0
  {
    var x := a % UINT;
    x - x % m
  }

  function SetOf(lineSize: nat, sets: nat, a: nat): nat
    requires lineSize > 0 && sets > 0
  {
    a / lineSize % sets
  }

  function Wrapped(a: nat): nat { a % ADDR_SPACE }

  function InSet(c: Tags, k: nat, write: bool, tag: nat): (r: (Tags, CacheResult))
    requires Shaped(c) && k < |c|
    ensures Shaped(r.0) && SameShape(c, r.0)
  {
    var (s, res) := SetRefWb(c[k], write, tag);
    (c[k := s], res)
  }

  /** The worse of two results. */
  function Worse(a: CacheResult, b: CacheResult): CacheResult {
    if a == MissDirty || b == MissDirty then MissDirty else if a == Miss || b == Miss then Miss else Hit
  }

  /** `cachesim_ref_wb`; references to more than two lines make the source panic. */
  function RefWb(lineSize: nat, c: Tags, write: bool, a: nat, size: nat): (r: (Tags, CacheResult))
    requires Shaped(c) && lineSize > 0
    ensures Shaped(r.0) && SameShape(c, r.0)
  {
    var n, last := |c|, Wrapped(a + size + ADDR_SPACE - 1);
    var k1, k2 := SetOf(lineSize, n, a), SetOf(lineSize, n, last);
    var tag1, tag2 := UpperTag(lineSize * n, a), UpperTag(lineSize * n, last);
    if k1 == k2 then InSet(c, k1, write, tag1)
    else if (k1 + 1) % n == k2 then
      var (c1, res1) := InSet(c, k1, write, tag1);
      var (c2, res2) := InSet(c1, k2, write, tag2);
      (c2, Worse(res1, res2))
    else (c, Hit)
  }

  /** The tag of a block. */
  function TagOf(lineSize: nat, sets: nat, b: nat): nat
    requires sets > 0
  {
    b / sets * (lineSize * sets)
  }

  lemma BlockParts(l: nat, n: nat, a: nat) returns (q: nat, k: nat, off: nat)
    requires l > 0 && n > 0
    ensures a == l * (n * q + k) + off && k < n && off < l && q == a / l / n
  {
    var b := a / l;
    q, k, off := b / n, b % n, a % l;
  }

  lemma RoundDown(a: nat, m: nat, q: nat, r: nat)
    requires r < m && a == m * q + r && a < UINT
    ensures UpperTag(m, a) == q * m
  {
    Remainder(a, m, q, r);
  }

  lemma TagOfBlock(lineSize: nat, sets: nat, a: nat)
    requires lineSize > 0 && sets > 0 && a < UINT
    ensures UpperTag(lineSize * sets, a) == TagOf(lineSize, sets, a / lineSize)
  {
    hide UpperTag;
    var q, k, off := BlockParts(lineSize, sets, a);
    Distribute(lineSize, sets, q, k);
    MulLess(lineSize, k, sets, off);
    RoundDown(a, lineSize * sets, q, lineSize * k + off);
  }

  lemma Distribute(l: nat, n: nat, q: nat, k: nat)
    ensures l * (n * q + k) == (l * n) * q + l * k
  {
    assert l * (n * q) == (l * n) * q;
    assert l * (n * q + k) == l * (n * q) + l * k;
  }

  lemma Remainder(y: nat, d: nat, q: nat, r: nat)
    requires r < d && y == d * q + r
    ensures y / d == q && y % d == r
  {
    Quotient(y, d, q, r);
  }

  lemma MulLess(l: nat, k: nat, n: nat, off: nat)
    requires k < n && off < l
    ensures l * k + off < l * n
  {
    MulOrder(l, k + 1, n);
    assert l * (k + 1) == l * k + l;
  }

  /** In one set, different blocks have different tags; and blocks beyond the first of a set have tags that are
      not 0. */
  lemma TagOfInjective(lineSize: nat, sets: nat, b: nat, b2: nat)
    requires lineSize > 0 && sets > 0 && lineSize % 2 == 0
    ensures !Dirty(TagOf(lineSize, sets, b)) && (b >= sets ==> TagOf(lineSize, sets, b) != 0)
    ensures b % sets == b2 % sets && TagOf(lineSize, sets, b) == TagOf(lineSize, sets, b2) ==> b == b2
  {
    var m, q, q2 := lineSize * sets, b / sets, b2 / sets;
    var h := lineSize / 2;
    assert q * m == 2 * (q * (h * sets)) by { assert m == 2 * (h * sets); }
    if b >= sets {
      assert q >= 1;
      MulOrder(m, 1, q);
      assert m > 0 by { MulOrder(lineSize, 1, sets); }
    }
    if b % sets == b2 % sets && q * m == q2 * m {
      assert m > 0 by { MulOrder(lineSize, 1, sets); }
      CancelFactor(q, q2, m);
    }
  }

  lemma StrictMul(q: nat, q2: nat, m: nat)
    requires m > 0 && q < q2
    ensures q * m < q2 * m
  {
    MulOrder(m, q + 1, q2);
    assert m * (q + 1) == m * q + m;
  }

  lemma CancelFactor(q: nat, q2: nat, m: nat)
    requires m > 0 && q * m == q2 * m
    ensures q == q2
  {
    if q < q2 {
      StrictMul(q, q2, m);
    } else if q2 < q {
      StrictMul(q2, q, m);
    }
  }

  lemma ZeroTag(lineSize: nat, sets: nat)
    requires sets > 0
    ensures TagOf(lineSize, sets, 0) == 0
  {
  }

  lemma Neighbours(b: nat, n: nat)
    requires n >= 2
    ensures b % n != (b + 1) % n && (b % n + 1) % n == (b + 1) % n
  {
    var q, r := b / n, b % n;
    if r + 1 < n {
      Remainder(b + 1, n, q, r + 1);
      Remainder(r + 1, n, 0, r + 1);
    } else {
      assert n * (q + 1) == n * q + n;
      Remainder(b + 1, n, q + 1, 0);
      Remainder(n, n, 1, 0);
    }
  }
}
