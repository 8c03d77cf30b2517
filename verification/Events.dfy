/**
 Callgrind's cost arrays (`events.c`).  Events come in groups, and an event set says where in
 a cost array the counters of each of its groups are.  Counters are 64 bits wide.
*/
module Events {
  import opened Common

  const GROUPS := 10
  const ULONG := 0x1_0000_0000_0000_0000

  /** `mask[i]`: group `i` is in the set; its counters start at `offset[i]`. */
  datatype EventSet = EventSet(mask: seq<bool>, count: nat, size: nat, offset: seq<nat>)

  /** The sizes of the groups; zero if there is no such group yet. */
  type Groups = g: seq<nat> | |g| == GROUPS witness [0, 0, 0, 0, 0, 0, 0, 0, 0, 0]

  type Mask = m: seq<bool> | |m| == GROUPS
    witness [false, false, false, false, false, false, false, false, false, false]

  // ---------------------------------------------------------------- layouts

  /** How many counters the groups before `i` have. */
  function Before(groups: Groups, mask: Mask, i: nat): nat
    requires i <= GROUPS
  {
    if i == 0 then 0 else Before(groups, mask, i - 1) + (if mask[i - 1] then groups[i - 1] else 0)
  }

  function Members(groups: Groups, mask: Mask, i: nat): nat
    requires i <= GROUPS
  {
    if i == 0 then 0 else Members(groups, mask, i - 1) + (if mask[i - 1] && groups[i - 1] != 0 then 1 else 0)
  }

  function Layout(groups: Groups, mask: Mask): EventSet {
    EventSet(mask, Members(groups, mask, GROUPS), Before(groups, mask, GROUPS),
             seq(GROUPS, i requires 0 <= i < GROUPS => Before(groups, mask, i)))
  }

  /** Every group of a set has its own place in the array. */
  ghost predicate Disjoint(groups: Groups, es: EventSet, length: nat) {
    && |es.mask| == |es.offset| == GROUPS
    && (forall i :: 0 <= i < GROUPS && es.mask[i] ==> es.offset[i] + groups[i] <= length)
    && (forall i, k :: 0 <= i < k < GROUPS && es.mask[i] && es.mask[k] ==> es.offset[i] + groups[i] <= es.offset[k])
  }

  lemma {:induction false} BeforeGrows(groups: Groups, mask: Mask, i: nat, k: nat)
    requires i < k <= GROUPS
    ensures Before(groups, mask, i) + (if mask[i] then groups[i] else 0) <= Before(groups, mask, k)
    decreases k
  {
    if i < k - 1 {
      BeforeGrows(groups, mask, i, k - 1);
    }
  }

  /** A layout gives every group its own place, and together they fill the array. */
  lemma LayoutDisjoint(groups: Groups, mask: Mask)
    ensures Disjoint(groups, Layout(groups, mask), Layout(groups, mask).size)
  {
    hide Before;
    forall i, k | 0 <= i < k <= GROUPS
      ensures Before(groups, mask, i) + (if mask[i] then groups[i] else 0) <= Before(groups, mask, k)
    {
      BeforeGrows(groups, mask, i, k);
    }
  }

  /** There are no gaps: the first group of a set is at 0, each other one right behind the one before, and the last one ends
      at the size. */
  lemma NoGaps(groups: Groups, mask: Mask, i: nat, k: nat)
    requires i < k <= 10 && mask[i] && (forall g :: i < g < k ==> !mask[g]) && (k < 10 ==> mask[k])
    ensures var es := Layout(groups, mask);
      && es.offset[i] + groups[i] == (if k < 10 then es.offset[k] else es.size)
      && ((forall g :: 0 <= g < i ==> !mask[g]) ==> es.offset[i] == 0)
  {
    NothingBetween(groups, mask, i + 1, k);
    if forall g :: 0 <= g < i ==> !mask[g] {
      NothingBetween(groups, mask, 0, i);
    }
  }

  lemma {:induction false} NothingBetween(groups: Groups, mask: Mask, i: nat, k: nat)
    requires i <= k <= GROUPS && forall g :: i <= g < k ==> !mask[g]
    ensures Before(groups, mask, k) == Before(groups, mask, i)
    decreases k
  {
    if i < k {
      NothingBetween(groups, mask, i, k - 1);
    }
  }

  /** The groups of a set that are registered are counted. */
  lemma CountsGroups(groups: Groups, mask: Mask)
    ensures Layout(groups, mask).count == |set g: nat | g < 10 && mask[g] && groups[g] > 0|
    ensures (forall g :: 0 <= g < 10 ==> !mask[g]) ==> Layout(groups, mask).size == 0
  {
    MembersAre(groups, mask, 10);
    if forall g :: 0 <= g < 10 ==> !mask[g] {
      NothingBetween(groups, mask, 0, 10);
    }
  }

  lemma {:induction false} MembersAre(groups: Groups, mask: Mask, i: nat)
    requires i <= GROUPS
    ensures Members(groups, mask, i) == |set g: nat | g < i && mask[g] && groups[g] > 0|
  {
    var s := set g: nat | g < i && mask[g] && groups[g] > 0;
    if i == 0 {
      assert s == {};
    } else {
      MembersAre(groups, mask, i - 1);
      var t := set g: nat | g < i - 1 && mask[g] && groups[g] > 0;
      assert s == if mask[i - 1] && groups[i - 1] > 0 then t + {i - 1} else t;
    }
  }

  lemma {:induction false} LateGroup(groups: Groups, mask: Mask, id: nat, n: nat, i: nat)
    requires id < GROUPS && groups[id] == 0 && i <= GROUPS
    ensures Before(groups[id := n], mask, i) == Before(groups, mask, i) + (if id < i && mask[id] then n else 0)
    ensures Members(groups[id := n], mask, i) == Members(groups, mask, i) + (if id < i && mask[id] && n > 0 then 1 else 0)
  {
    if i > 0 {
      LateGroup(groups, mask, id, n, i - 1);
    }
  }

  /** A set that was built before a group was registered is still right afterwards only if it has nothing to do
      with the group. */
  lemma StaleLayout(groups: Groups, mask: Mask, id: nat, n: nat)
    requires id < GROUPS && groups[id] == 0 && n > 0
    ensures Layout(groups[id := n], mask) == Layout(groups, mask) <==> !mask[id]
  {
    forall i | 0 <= i <= GROUPS
      ensures Before(groups[id := n], mask, i) == Before(groups, mask, i) + (if id < i && mask[id] then n else 0)
      ensures Members(groups[id := n], mask, i) == Members(groups, mask, i) + (if id < i && mask[id] then 1 else 0)
    {
      LateGroup(groups, mask, id, n, i);
    }
    hide Before, Members;
  }

  /** The groups registered and the sets built so far. */
  class EventSets {
    var groups: seq<nat>
    var table: map<seq<bool>, EventSet>

    ghost predicate Valid()
      reads this
    {
      |groups| == GROUPS && forall m :: m in table ==> |m| == GROUPS && table[m].mask == m
    }

    /** The set for these groups, if it was built already, is what it would be if it were built now. */
    ghost predicate UpToDate(mask: Mask)
      requires Valid()
      reads this
    {
      mask in table ==> table[mask] == Layout(groups, mask)
    }

    constructor ()
      ensures Valid() && groups == seq(GROUPS, _ => 0) && table == map[]
    {
      groups, table := seq(GROUPS, _ => 0), map[];
    }

    /** `new_event_group`: sets with this group that were built before are out of date from then on. */
    method Register(id: nat, n: nat)
      requires Valid() && id < GROUPS && groups[id] == 0 && n > 0
      modifies this`groups
      ensures Valid() && groups == old(groups)[id := n]
      ensures forall m: Mask :: m in table && old(UpToDate(m)) ==> (UpToDate(m) <==> !m[id])
    {
      hide Layout;
      forall m: Mask | m in table ensures Layout(groups[id := n], m) == Layout(groups, m) <==> !m[id] {
        StaleLayout(groups, m, id, n);
      }
      groups := groups[id := n];
    }

    /** `eventset_from_mask`: the same set is returned each time the same groups are asked for. */
    method FromMask(mask: Mask) returns (es: EventSet)
      requires Valid()
      modifies this`table
      ensures Valid() && es == (if mask in old(table) then old(table)[mask] else Layout(groups, mask))
      ensures table == old(table)[mask := es]
    {
      if mask in table {
        return table[mask];
      }
      var offsets, offset, count := [], 0, 0;
      var i := 0;
      while i < GROUPS
        invariant i <= GROUPS && offset == Before(groups, mask, i) && count == Members(groups, mask, i)
        invariant |offsets| == i && forall k :: 0 <= k < i ==> offsets[k] == Before(groups, mask, k)
      {
        offsets := offsets + [offset];
        if mask[i] && groups[i] != 0 {
          offset := offset + groups[i];
          count := count + 1;
        }
        i := i + 1;
      }
      es := EventSet(mask, count, offset, offsets);
      table := table[mask := es];
    }

    /** The empty set, built if it is not there. */
    method BuildEmpty()
      requires Valid()
      modifies this`table
      ensures Valid() && forall m :: m in old(table) ==> m in table && table[m] == old(table)[m]
      ensures forall m :: m in table && m !in old(table) ==> m == NO_GROUPS && table[m] == Layout(groups, NO_GROUPS)
    {
      hide Layout;
      var _ := FromMask(NO_GROUPS);
    }

    /** `CLG_(add_event_set)`: a set that is not there stands for the empty one, which is built for it. */
    method AddEventSet(es1: Option<EventSet>, es2: Option<EventSet>) returns (es: EventSet)
      requires Valid() && |MaskOf(es1)| == |MaskOf(es2)| == GROUPS
      modifies this`table
      ensures Valid() && |es.mask| == GROUPS && forall i :: 0 <= i < GROUPS ==> (es.mask[i] <==> MaskOf(es1)[i] || MaskOf(es2)[i])
      ensures es == (if es.mask in old(table) then old(table)[es.mask] else Layout(groups, es.mask))
      ensures es.mask in table && table[es.mask] == es
      ensures forall m :: m in old(table) ==> m in table && table[m] == old(table)[m]
      ensures forall m :: m in table && m !in old(table) ==> m == es.mask || m == NO_GROUPS
    {
      var m := Joined(MaskOf(es1), MaskOf(es2));
      hide Layout, MaskOf, Joined;
      if es1 == None || es2 == None {
        BuildEmpty();
      }
      es := FromMask(m);
      LayoutMask(groups, m);
    }
  }

  const NO_GROUPS: Mask := [false, false, false, false, false, false, false, false, false, false]

  function Joined(m1: Mask, m2: Mask): (m: Mask)
    ensures forall i :: 0 <= i < GROUPS ==> (m[i] <==> m1[i] || m2[i])
  {
    seq(GROUPS, i requires 0 <= i < GROUPS => m1[i] || m2[i])
  }

  lemma LayoutMask(groups: Groups, m: Mask)
    ensures Layout(groups, m).mask == m
  {
  }

  function MaskOf(es: Option<EventSet>): seq<bool> {
    match es
    case None => NO_GROUPS
    case Some(e) => e.mask
  }

  // ---------------------------------------------------------------- adding costs

  type ULong = x: nat | x < ULONG

  function AddMod(a: seq<ULong>, b: seq<ULong>): (r: seq<ULong>)
    requires |a| == |b|
    ensures |r| == |a|
  {
    seq(|a|, i requires 0 <= i < |a| => (a[i] + b[i]) % ULONG)
  }

  function Zeros(n: nat): seq<ULong> { seq(n, _ => 0) }

  /** The counters of a group, wherever the set has them; a group that is not in the set has counted nothing. */
  ghost function Counts(groups: Groups, es: EventSet, a: seq<ULong>, i: nat): (r: seq<ULong>)
    requires Disjoint(groups, es, |a|) && i < GROUPS
    ensures |r| == groups[i]
  {
    if es.mask[i] then a[es.offset[i]..es.offset[i] + groups[i]] else Zeros(groups[i])
  }

  /** The counters of one group are added and set to zero. */
  method AddGroup(dst: array<ULong>, d: nat, src: array<ULong>, s: nat, n: nat) returns (nonzero: bool)
    requires dst != src && d + n <= dst.Length && s + n <= src.Length
    modifies dst, src
    ensures dst[d..d + n] == AddMod(old(dst[d..d + n]), old(src[s..s + n])) && src[s..s + n] == Zeros(n)
    ensures dst[..d] == old(dst[..d]) && dst[d + n..] == old(dst[d + n..])
    ensures src[..s] == old(src[..s]) && src[s + n..] == old(src[s + n..])
    ensures nonzero <==> old(src[s..s + n]) != Zeros(n)
  {
    hide Added, Cleared, AddMod;
    nonzero := false;
    ghost var x, y := dst[d..d + n], src[s..s + n];
    AddedNone(x, y);
    var j := 0;
    while j < n
      invariant j <= n
      invariant dst[..d] == old(dst[..d]) && dst[d + n..] == old(dst[d + n..]) && dst[d..d + n] == Added(x, y, j)
      invariant src[..s] == old(src[..s]) && src[s + n..] == old(src[s + n..]) && src[s..s + n] == Cleared(y, j)
      invariant nonzero <==> y[..j] != Zeros(j)
    {
      SliceUpdate(dst[..], d, n, j, (dst[d + j] + src[s + j]) % ULONG);
      SliceUpdate(src[..], s, n, j, 0);
      AddedStep(x, y, j);
      var moved := AddOne(dst, d + j, src, s + j);
      nonzero := nonzero || moved;
      j := j + 1;
    }
    AddedAll(x, y);
  }

  lemma AddedNone(x: seq<ULong>, y: seq<ULong>)
    requires |x| == |y|
    ensures Added(x, y, 0) == x && Cleared(y, 0) == y && y[..0] == Zeros(0)
  {
  }

  lemma AddedAll(x: seq<ULong>, y: seq<ULong>)
    requires |x| == |y|
    ensures Added(x, y, |x|) == AddMod(x, y) && Cleared(y, |y|) == Zeros(|y|) && y[..|y|] == y
  {
  }

  method AddOne(dst: array<ULong>, d: nat, src: array<ULong>, s: nat) returns (moved: bool)
    requires dst != src && d < dst.Length && s < src.Length
    modifies dst, src
    ensures dst[..] == old(dst[..])[d := (old(dst[d]) + old(src[s])) % ULONG] && src[..] == old(src[..])[s := 0]
    ensures moved <==> old(src[s]) != 0
  {
    if src[s] == 0 {
      return false;
    }
    dst[d] := (dst[d] + src[s]) % ULONG;
    src[s] := 0;
    moved := true;
  }

  lemma SliceUpdate(a: seq<ULong>, d: nat, n: nat, j: nat, v: ULong)
    requires d + n <= |a| && j < n
    ensures a[d..d + n][j] == a[d + j]
    ensures var a' := a[d + j := v];
      a'[..d] == a[..d] && a'[d + n..] == a[d + n..] && a'[d..d + n] == a[d..d + n][j := v]
  {
  }

  lemma AddedStep(x: seq<ULong>, y: seq<ULong>, j: nat)
    requires |x| == |y| && j < |x|
    ensures Added(x, y, j)[j] == x[j] && Cleared(y, j)[j] == y[j]
    ensures Added(x, y, j)[j := (x[j] + y[j]) % ULONG] == Added(x, y, j + 1) && Cleared(y, j)[j := 0] == Cleared(y, j + 1)
    ensures y[..j + 1] != Zeros(j + 1) <==> y[..j] != Zeros(j) || y[j] != 0
  {
    assert y[..j + 1] == y[..j] + [y[j]] && Zeros(j + 1) == Zeros(j) + [0];
  }

  ghost function Added(x: seq<ULong>, y: seq<ULong>, j: nat): seq<ULong>
    requires |x| == |y|
  {
    seq(|x|, k requires 0 <= k < |x| => if k < j then (x[k] + y[k]) % ULONG else x[k])
  }

  ghost function Cleared(y: seq<ULong>, j: nat): seq<ULong> {
    seq(|y|, k requires 0 <= k < |y| => if k < j then 0 else y[k])
  }

  /** A change of the counters of group `i` leaves the other groups alone. */
  lemma OtherGroups(groups: Groups, es: EventSet, a: seq<ULong>, a': seq<ULong>, i: nat)
    requires Disjoint(groups, es, |a|) && |a'| == |a| && i < GROUPS && es.mask[i]
    requires a'[..es.offset[i]] == a[..es.offset[i]] && a'[es.offset[i] + groups[i]..] == a[es.offset[i] + groups[i]..]
    ensures forall g :: 0 <= g < GROUPS && g != i ==> Counts(groups, es, a', g) == Counts(groups, es, a, g)
  {
    forall g | 0 <= g < GROUPS && g != i && es.mask[g]
      ensures a'[es.offset[g]..es.offset[g] + groups[g]] == a[es.offset[g]..es.offset[g] + groups[g]]
    {
      if g < i {
        InPrefix(a, a', es.offset[i], es.offset[g], es.offset[g] + groups[g]);
      } else {
        InSuffix(a, a', es.offset[i] + groups[i], es.offset[g], es.offset[g] + groups[g]);
      }
    }
  }

  lemma InPrefix<T>(a: seq<T>, a': seq<T>, p: nat, lo: nat, hi: nat)
    requires lo <= hi <= p <= |a| == |a'| && a'[..p] == a[..p]
    ensures a'[lo..hi] == a[lo..hi]
  {
    assert a'[..p][lo..hi] == a'[lo..hi] && a[..p][lo..hi] == a[lo..hi];
  }

  lemma InSuffix<T>(a: seq<T>, a': seq<T>, p: nat, lo: nat, hi: nat)
    requires p <= lo <= hi <= |a| == |a'| && a'[p..] == a[p..]
    ensures a'[lo..hi] == a[lo..hi]
  {
    assert a'[p..][lo - p..hi - p] == a'[lo..hi] && a[p..][lo - p..hi - p] == a[lo..hi];
  }

  /** The counters of the groups before `i` have been moved, those of the others not. */
  ghost predicate Moved(groups: Groups, esDst: EventSet, esSrc: EventSet, dst0: seq<ULong>, src0: seq<ULong>,
                        dst: seq<ULong>, src: seq<ULong>, i: nat)
    requires Disjoint(groups, esDst, |dst0|) && Disjoint(groups, esSrc, |src0|) && |dst| == |dst0| && |src| == |src0|
  {
    forall g :: 0 <= g < GROUPS ==>
      && Counts(groups, esDst, dst, g) == (if g < i then AddMod(Counts(groups, esDst, dst0, g), Counts(groups, esSrc, src0, g))
                                           else Counts(groups, esDst, dst0, g))
      && Counts(groups, esSrc, src, g) == (if g < i then Zeros(groups[g]) else Counts(groups, esSrc, src0, g))
  }

  ghost predicate SomeCounted(groups: Groups, es: EventSet, a: seq<ULong>, i: nat)
    requires Disjoint(groups, es, |a|) && i <= GROUPS
  {
    exists g :: 0 <= g < i && Counts(groups, es, a, g) != Zeros(groups[g])
  }

  lemma AddNothing(a: seq<ULong>, n: nat)
    requires |a| == n
    ensures AddMod(a, Zeros(n)) == a
  {
  }

  /** A group that the source does not have counted nothing. */
  lemma Skipped(groups: Groups, esDst: EventSet, esSrc: EventSet, dst: seq<ULong>, src: seq<ULong>, i: nat)
    requires Disjoint(groups, esDst, |dst|) && Disjoint(groups, esSrc, |src|) && i < GROUPS
    requires !esSrc.mask[i] || groups[i] == 0
    ensures Counts(groups, esSrc, src, i) == Zeros(groups[i])
    ensures AddMod(Counts(groups, esDst, dst, i), Counts(groups, esSrc, src, i)) == Counts(groups, esDst, dst, i)
  {
    hide AddMod;
    AddNothing(Counts(groups, esDst, dst, i), groups[i]);
  }

  lemma MovedNone(groups: Groups, esDst: EventSet, esSrc: EventSet, dst: seq<ULong>, src: seq<ULong>)
    requires Disjoint(groups, esDst, |dst|) && Disjoint(groups, esSrc, |src|)
    ensures Moved(groups, esDst, esSrc, dst, src, dst, src, 0) && !SomeCounted(groups, esSrc, src, 0)
  {
  }

  lemma MovedAt(groups: Groups, esDst: EventSet, esSrc: EventSet, dst0: seq<ULong>, src0: seq<ULong>,
                dst: seq<ULong>, src: seq<ULong>, i: nat)
    requires Disjoint(groups, esDst, |dst0|) && Disjoint(groups, esSrc, |src0|) && |dst| == |dst0| && |src| == |src0|
    requires i < GROUPS && Moved(groups, esDst, esSrc, dst0, src0, dst, src, i)
    ensures Counts(groups, esDst, dst, i) == Counts(groups, esDst, dst0, i)
    ensures Counts(groups, esSrc, src, i) == Counts(groups, esSrc, src0, i)
  {
    hide Counts, AddMod, Zeros;
  }

  /** Group `i` follows. */
  lemma MovedStep(groups: Groups, esDst: EventSet, esSrc: EventSet, dst0: seq<ULong>, src0: seq<ULong>,
                  dst: seq<ULong>, src: seq<ULong>, dst': seq<ULong>, src': seq<ULong>, i: nat)
    requires Disjoint(groups, esDst, |dst0|) && Disjoint(groups, esSrc, |src0|)
    requires |dst| == |dst'| == |dst0| && |src| == |src'| == |src0|
    requires i < GROUPS && Moved(groups, esDst, esSrc, dst0, src0, dst, src, i)
    requires Counts(groups, esDst, dst', i) == AddMod(Counts(groups, esDst, dst, i), Counts(groups, esSrc, src, i))
    requires Counts(groups, esSrc, src', i) == Zeros(groups[i])
    requires forall g :: 0 <= g < GROUPS && g != i ==> Counts(groups, esDst, dst', g) == Counts(groups, esDst, dst, g)
    requires forall g :: 0 <= g < GROUPS && g != i ==> Counts(groups, esSrc, src', g) == Counts(groups, esSrc, src, g)
    ensures Moved(groups, esDst, esSrc, dst0, src0, dst', src', i + 1)
    ensures SomeCounted(groups, esSrc, src0, i + 1)
      <==> SomeCounted(groups, esSrc, src0, i) || Counts(groups, esSrc, src0, i) != Zeros(groups[i])
  {
    hide Counts, AddMod, Zeros;
  }

  method MoveGroup(groups: Groups, esDst: EventSet, dst: array<ULong>, esSrc: EventSet, src: array<ULong>, i: nat)
      returns (moved: bool)
    requires dst != src && Disjoint(groups, esDst, dst.Length) && Disjoint(groups, esSrc, src.Length)
    requires i < GROUPS && esSrc.mask[i] && esDst.mask[i]
    modifies dst, src
    ensures Counts(groups, esDst, dst[..], i) == AddMod(old(Counts(groups, esDst, dst[..], i)), old(Counts(groups, esSrc, src[..], i)))
    ensures Counts(groups, esSrc, src[..], i) == Zeros(groups[i])
    ensures forall g :: 0 <= g < GROUPS && g != i ==> Counts(groups, esDst, dst[..], g) == old(Counts(groups, esDst, dst[..], g))
    ensures forall g :: 0 <= g < GROUPS && g != i ==> Counts(groups, esSrc, src[..], g) == old(Counts(groups, esSrc, src[..], g))
    ensures moved <==> old(Counts(groups, esSrc, src[..], i)) != Zeros(groups[i])
  {
    hide AddMod, Zeros;
    ghost var dst1, src1 := dst[..], src[..];
    moved := AddGroup(dst, esDst.offset[i], src, esSrc.offset[i], groups[i]);
    OtherGroups(groups, esDst, dst1, dst[..], i);
    OtherGroups(groups, esSrc, src1, src[..], i);
  }

  /** `CLG_(add_and_zero_cost2)`: for every event of every group, what the source had counted is added to what the
      target has counted, and the source starts again from zero, whatever the layouts of the two are. */
  method AddAndZeroCost2(groups: Groups, esDst: EventSet, dst: array<ULong>, esSrc: EventSet, src: array<ULong>)
      returns (nonzero: bool)
    requires dst != src && Disjoint(groups, esDst, dst.Length) && Disjoint(groups, esSrc, src.Length)
    requires forall i :: 0 <= i < GROUPS && esSrc.mask[i] && groups[i] != 0 ==> esDst.mask[i]
    modifies dst, src
    ensures Moved(groups, esDst, esSrc, old(dst[..]), old(src[..]), dst[..], src[..], GROUPS)
    ensures nonzero <==> SomeCounted(groups, esSrc, old(src[..]), GROUPS)
  {
    assert |esDst.mask| == |esSrc.mask| == GROUPS;
    hide *;
    nonzero := false;
    ghost var dst0, src0 := dst[..], src[..];
    var i := 0;
    MovedNone(groups, esDst, esSrc, dst0, src0);
    while i < GROUPS
      invariant i <= GROUPS && Moved(groups, esDst, esSrc, dst0, src0, dst[..], src[..], i)
      invariant nonzero <==> SomeCounted(groups, esSrc, src0, i)
    {
      if esSrc.mask[i] && groups[i] != 0 {
        ghost var dst1, src1 := dst[..], src[..];
        MovedAt(groups, esDst, esSrc, dst0, src0, dst1, src1, i);
        var moved := MoveGroup(groups, esDst, dst, esSrc, src, i);
        nonzero := nonzero || moved;
        MovedStep(groups, esDst, esSrc, dst0, src0, dst1, src1, dst[..], src[..], i);
      } else {
        Skipped(groups, esDst, esSrc, dst0, src0, i);
        MovedAt(groups, esDst, esSrc, dst0, src0, dst[..], src[..], i);
        MovedStep(groups, esDst, esSrc, dst0, src0, dst[..], src[..], dst[..], src[..], i);
      }
      i := i + 1;
    }
  }

  // ---------------------------------------------------------------- differences

  /** What a counter is after the difference of two others has been added, which may have wrapped around. */
  function PlusDiff(sum: ULong, before: ULong, now: ULong): (r: ULong)
    ensures (r + before - sum - now) % ULONG == 0
  {
    (sum + now - before) % ULONG
  }

  /** The first `i` counters have been brought up to date. */
  ghost predicate Differed(d0: seq<ULong>, b0: seq<ULong>, n: seq<ULong>, d: seq<ULong>, b: seq<ULong>, i: nat) {
    && i <= |d| == |d0| && i <= |b| == |b0| && i <= |n|
    && d[i..] == d0[i..] && b[i..] == b0[i..] && b[..i] == n[..i]
    && forall k :: 0 <= k < i ==> d[k] == PlusDiff(d0[k], b0[k], n[k])
  }

  lemma DifferedStep(d0: seq<ULong>, b0: seq<ULong>, n: seq<ULong>, d: seq<ULong>, b: seq<ULong>, i: nat)
    requires i < |d| && i < |b| && i < |n| && Differed(d0, b0, n, d, b, i)
    ensures b[i] == b0[i] && Differed(d0, b0, n, d[i := PlusDiff(d[i], b[i], n[i])], b[i := n[i]], i + 1)
    ensures n[i] == b[i] ==> PlusDiff(d[i], b[i], n[i]) == d[i]
    ensures b0[..i + 1] != n[..i + 1] <==> b0[..i] != n[..i] || b0[i] != n[i]
  {
    assert d[i..][0] == d0[i..][0] && b[i..][0] == b0[i..][0];
    assert d[i..][1..] == d0[i..][1..] && b[i..][1..] == b0[i..][1..];
    assert b0[..i + 1] == b0[..i] + [b0[i]] && n[..i + 1] == n[..i] + [n[i]];
    hide PlusDiff;
    assert b[..i + 1] == b[..i] + [b[i]];
    NoDiff(d[i], b[i]);
  }

  lemma NoDiff(d: ULong, b: ULong)
    ensures PlusDiff(d, b, b) == d
  {
  }

  /** `CLG_(add_diff_cost_lz)`: an array that is not there yet is made first. */
  method AddDiffCost(size: nat, dst0: array?<ULong>, before: array<ULong>, now: array<ULong>)
      returns (dst: array<ULong>, nonzero: bool)
    requires dst0 != before && dst0 != now && before != now
    requires size <= before.Length && size <= now.Length && (dst0 != null ==> size <= dst0.Length)
    modifies dst0, before
    ensures if dst0 == null then fresh(dst) && dst.Length == size else dst == dst0
    ensures forall i :: 0 <= i < size ==> dst[i] == PlusDiff(if dst0 == null then 0 else old(dst0[i]), old(before[i]), now[i])
    ensures before[..size] == now[..size] && before[size..] == old(before[size..])
    ensures dst[size..] == if dst0 == null then [] else old(dst0[size..])
    ensures nonzero <==> old(before[..size]) != now[..size]
  {
    if dst0 == null {
      dst := new ULong[size](_ => 0);
    } else {
      dst := dst0;
    }
    nonzero := false;
    ghost var d, b, n := dst[..], before[..], now[..];
    hide PlusDiff;
    var i := 0;
    while i < size
      invariant i <= size && now[..] == n && Differed(d, b, n, dst[..], before[..], i)
      invariant nonzero <==> b[..i] != n[..i]
    {
      DifferedStep(d, b, n, dst[..], before[..], i);
      ghost var d', b' := dst[..], before[..];
      if now[i] != before[i] {
        dst[i] := PlusDiff(dst[i], before[i], now[i]);
        before[i] := now[i];
        nonzero := true;
      }
      assert dst[..] == d'[i := PlusDiff(d'[i], b'[i], n[i])] && before[..] == b'[i := n[i]];
      i := i + 1;
    }
    assert before[..size] == n[..size] == now[..size];
    assert b[size..] == old(before[size..]) && b[..size] == old(before[..size]);
  }
}
