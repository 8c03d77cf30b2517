/**
 The table of execution contexts (`m_execontext.c`): equal stack traces share one context,
 and every context has a number that leads back to it.  The hash function is a parameter.
*/
module ExeContext {
  import opened Common
  import opened HashChains

  const UINT := 0x1_0000_0000
  const FIRST_ECU := 4
  const PRIMES: seq<nat> := [769, 1543, 3079, 6151, 12289, 24593, 49157, 98317, 196613, 393241, 786433, 1572869, 3145739,
                             6291469, 12582917, 25165843, 50331653, 100663319]

  /** A context.  `epoch` is None until debug info that it needs is archived. */
  datatype Ec = Ec(ips: seq<nat>, ecu: nat, epoch: Option<nat>)

  /** What holds of the contexts recorded: numbers are multiples of four, never zero and never given twice,
      and no two contexts that are not archived have the same trace. */
  ghost predicate Recorded(all: set<Ec>, next: nat) {
    && next % 4 == 0 && next >= FIRST_ECU
    && (forall e :: e in all ==> e.ips != [] && FIRST_ECU <= e.ecu < next && e.ecu % 4 == 0)
    && (forall e, f :: e in all && f in all && e.ecu == f.ecu ==> e == f)
    && (forall e, f :: e in all && f in all && e.epoch.None? && f.epoch.None? && e.ips == f.ips ==> e == f)
  }

  predicate Touches(ips: seq<nat>, lo: nat, hi: nat) {
    exists i :: 0 <= i < |ips| && lo <= ips[i] <= hi
  }

  /** Archives a context whose trace touches the addresses from `lo` to `hi`, if it is not archived yet. */
  function ArchivedEc(e: Ec, lo: nat, hi: nat, epoch: nat): (r: Ec)
    ensures r.ips == e.ips && r.ecu == e.ecu && (r.epoch.None? ==> r == e)
  {
    if e.epoch.None? && Touches(e.ips, lo, hi) then e.(epoch := Some(epoch)) else e
  }

  /** A live context is archived in this epoch if some address of its trace is neither before `lo` nor behind `hi`; any other
      one stays as it is. */
  lemma ArchivedIff(e: Ec, lo: nat, hi: nat, epoch: nat)
    ensures e.epoch.None? && (exists a :: a in e.ips && !(a < lo) && !(a > hi)) ==> ArchivedEc(e, lo, hi, epoch) == Ec(e.ips, e.ecu, Some(epoch))
    ensures e.epoch.Some? || (forall a :: a in e.ips ==> a < lo || a > hi) ==> ArchivedEc(e, lo, hi, epoch) == e
  {
    if a :| a in e.ips && !(a < lo) && !(a > hi) {
      var i :| 0 <= i < |e.ips| && e.ips[i] == a;
      assert Touches(e.ips, lo, hi);
    }
    if Touches(e.ips, lo, hi) {
      var i :| 0 <= i < |e.ips| && lo <= e.ips[i] <= hi;
      assert e.ips[i] in e.ips;
    }
  }

  ghost function ArchivedSet(all: set<Ec>, lo: nat, hi: nat, epoch: nat): set<Ec> {
    set e | e in all :: ArchivedEc(e, lo, hi, epoch)
  }

  ghost predicate ArchivedChain(c: seq<Ec>, c': seq<Ec>, lo: nat, hi: nat, epoch: nat) {
    |c| == |c'| && forall j :: 0 <= j < |c| ==> c'[j] == ArchivedEc(c[j], lo, hi, epoch)
  }

  lemma ArchivedRecorded(all: set<Ec>, next: nat, lo: nat, hi: nat, epoch: nat)
    requires Recorded(all, next)
    ensures Recorded(ArchivedSet(all, lo, hi, epoch), next)
  {
    hide ArchivedEc;
  }

  lemma ArchivedChainOk(c: seq<Ec>, c': seq<Ec>, all: set<Ec>, next: nat, h: Ec -> nat, size: nat, k: nat,
                        lo: nat, hi: nat, epoch: nat)
    requires Recorded(all, next) && size > 0 && ChainOk(c, all, h, size, k) && ArchivedChain(c, c', lo, hi, epoch)
    requires forall d: Ec, e: Ec :: d.ips == e.ips ==> h(d) == h(e)
    ensures ChainOk(c', ArchivedSet(all, lo, hi, epoch), h, size, k)
  {
    hide ArchivedEc;
    var all' := ArchivedSet(all, lo, hi, epoch);
    assert NoDup(c') by {
      forall i, j | 0 <= i < j < |c'| ensures c'[i] != c'[j] {
        assert c[i] in c && c[j] in c;
      }
    }
    forall e ensures e in c' <==> e in all' && h(e) % size == k {
      if e in c' {
        var j :| 0 <= j < |c'| && c'[j] == e;
        assert c[j] in c && h(e) == h(c[j]);
      }
      if e in all' && h(e) % size == k {
        var d :| d in all && ArchivedEc(d, lo, hi, epoch) == e;
        assert h(d) == h(e) && d in c;
        var j :| 0 <= j < |c| && c[j] == d;
        assert c'[j] == e;
      }
    }
  }

  /** Archiving contexts in place keeps the table. */
  lemma ArchivedOk(t: seq<seq<Ec>>, t': seq<seq<Ec>>, all: set<Ec>, next: nat, h: Ec -> nat,
                   lo: nat, hi: nat, epoch: nat)
    requires Rep(t, all, h) && Recorded(all, next) && |t'| == |t|
    requires forall d: Ec, e: Ec :: d.ips == e.ips ==> h(d) == h(e)
    requires forall k :: 0 <= k < |t| ==> ArchivedChain(t[k], t'[k], lo, hi, epoch)
    ensures Rep(t', ArchivedSet(all, lo, hi, epoch), h) && Recorded(ArchivedSet(all, lo, hi, epoch), next)
  {
    ArchivedRecorded(all, next, lo, hi, epoch);
    forall k | 0 <= k < |t| ensures ChainOk(t'[k], ArchivedSet(all, lo, hi, epoch), h, |t|, k) {
      ArchivedChainOk(t[k], t'[k], all, next, h, |t|, k, lo, hi, epoch);
    }
  }

  method ArchiveChain(c: seq<Ec>, lo: nat, hi: nat, epoch: nat) returns (r: seq<Ec>)
    ensures ArchivedChain(c, r, lo, hi, epoch)
  {
    r := c;
    var j := 0;
    while j < |c|
      invariant j <= |c| == |r|
      invariant forall l :: 0 <= l < j ==> r[l] == ArchivedEc(c[l], lo, hi, epoch)
      invariant forall l :: j <= l < |c| ==> r[l] == c[l]
    {
      r := r[j := ArchivedEc(r[j], lo, hi, epoch)];
      j := j + 1;
    }
  }

  datatype Store = Store(all: set<Ec>, next: nat)

  ghost predicate Known(s: Store, ips: seq<nat>) {
    exists e :: e in s.all && e.ips == ips && e.epoch.None?
  }

  /** What one recording does: it returns a context of this trace that is not archived, which is a new one,
      with the next number, exactly if there is none. */
  ghost predicate Records(s: Store, ips: seq<nat>, s': Store, r: Ec) {
    && r in s'.all && r.ips == ips && r.epoch.None?
    && (if Known(s, ips) then s' == s else s' == Store(s.all + {r}, s.next + 4) && r.ecu == s.next)
  }

  class EcTable {
    const hashOf: seq<nat> -> nat
    var htab: seq<seq<Ec>>
    var sizeIdx: nat
    var nextEcu: nat
    var totStored: nat
    var ctr: nat
    ghost var all: set<Ec>

    ghost predicate Valid()
      reads this
    {
      && sizeIdx < |PRIMES| && |htab| == PRIMES[sizeIdx]
      && Rep(htab, all, Hash()) && Recorded(all, nextEcu) && nextEcu < UINT
    }

    ghost function Hash(): Ec -> nat {
      var h := hashOf; (e: Ec) => h(e.ips)
    }

    constructor (hashOf: seq<nat> -> nat)
      ensures Valid() && all == {} && this.hashOf == hashOf
    {
      this.hashOf := hashOf;
      htab := seq(769, _ => []);
      sizeIdx, nextEcu, totStored, ctr := 0, FIRST_ECU, 0, 0;
      all := {};
    }

    /** The search along a chain. */
    method Find(ips: seq<nat>) returns (k: nat, i: nat)
      requires Valid()
      ensures k == hashOf(ips) % |htab| && i <= |htab[k]|
      ensures i < |htab[k]| ==> htab[k][i] in all && htab[k][i].ips == ips && htab[k][i].epoch.None?
      ensures i == |htab[k]| ==> forall e :: e in all && e.ips == ips ==> e.epoch.Some?
    {
      k := hashOf(ips) % |htab|;
      i := 0;
      assert ChainOk(htab[k], all, Hash(), |htab|, k);
      while i < |htab[k]|
        invariant i <= |htab[k]|
        invariant forall j :: 0 <= j < i ==> !(htab[k][j].ips == ips && htab[k][j].epoch.None?)
      {
        if htab[k][i].ips == ips && htab[k][i].epoch.None? {
          assert htab[k][i] in htab[k];
          return;
        }
        i := i + 1;
      }
    }

    /** Every eighth time, what was found is moved one step towards the front. */
    method Promote(k: nat, i: nat)
      requires Valid() && k < |htab| && i < |htab[k]|
      modifies this`htab, this`ctr
      ensures Valid()
    {
      if ctr % 8 == 0 && i > 0 {
        StepUpOk(htab, all, Hash(), k, i);
        htab := htab[k := StepUp(htab[k], i)];
      }
      ctr := (ctr + 1) % UINT;
    }

    method Resize()
      requires Valid()
      modifies this`htab, this`sizeIdx
      ensures Valid()
    {
      if sizeIdx == |PRIMES| - 1 {
        return;
      }
      var h := hashOf;
      htab := Rehash(htab, PRIMES[sizeIdx + 1], (e: Ec) => h(e.ips), all);
      sizeIdx := sizeIdx + 1;
    }

    /** `record_ExeContext_wrk2`: the context of a trace, which is a new one only if there is none that is not
        archived.  The source panics when the numbers run out. */
    method Record(ips: seq<nat>) returns (r: Option<Ec>)
      requires Valid() && ips != []
      modifies this
      ensures Valid()
      ensures r.Some? ==> Records(Store(old(all), old(nextEcu)), ips, Store(all, nextEcu), r.value)
      ensures r.None? <==> old(nextEcu) + 4 == UINT && !Known(Store(old(all), old(nextEcu)), ips)
    {
      var k, i := Find(ips);
      if i < |htab[k]| {
        var e := htab[k][i];
        Promote(k, i);
        return Some(e);
      }
      if nextEcu + 4 >= UINT {
        return None;
      }
      var e := Ec(ips, nextEcu, None);
      Insert(e);
      if totStored > |htab| {
        Resize();
      }
      return Some(e);
    }

    method Insert(e: Ec)
      requires Valid() && e.ips != [] && e.ecu == nextEcu && e.epoch.None? && nextEcu + 4 < UINT
      requires forall f :: f in all && f.ips == e.ips ==> f.epoch.Some?
      modifies this
      ensures Valid() && all == old(all) + {e} && nextEcu == old(nextEcu) + 4
    {
      totStored := totStored + 1;
      nextEcu := nextEcu + 4;
      var k := hashOf(e.ips) % |htab|;
      Prepend(htab, all, Hash(), e);
      htab := htab[k := [e] + htab[k]];
      all := all + {e};
    }

    /** Debug info for the addresses from `lo` to `hi` is archived: the contexts that need it get the epoch of
        that, in place. */
    method Archive(lo: nat, hi: nat, epoch: nat)
      requires Valid()
      modifies this`htab, this`all
      ensures Valid() && all == ArchivedSet(old(all), lo, hi, epoch)
    {
      hide ArchivedChain, ArchivedSet, Recorded, Rep;
      ghost var t0, all0, h := htab, all, Hash();
      var i := 0;
      while i < |htab|
        invariant i <= |htab| == |t0|
        invariant forall k :: 0 <= k < i ==> ArchivedChain(t0[k], htab[k], lo, hi, epoch)
        invariant forall k :: i <= k < |htab| ==> htab[k] == t0[k]
      {
        var chain := ArchiveChain(htab[i], lo, hi, epoch);
        htab := htab[i := chain];
        i := i + 1;
      }
      all := ArchivedSet(all0, lo, hi, epoch);
      assert Valid() by {
        ArchivedOk(t0, htab, all0, nextEcu, h, lo, hi, epoch);
      }
    }

    /** `get_ExeContext_from_ECU` */
    method FromEcu(ecu: nat) returns (r: Option<Ec>)
      requires Valid()
      ensures r.Some? ==> r.value in all && r.value.ecu == ecu
      ensures forall e :: e in all && e.ecu == ecu ==> r == Some(e)
    {
      var i := 0;
      while i < |htab|
        invariant i <= |htab| && forall k, j :: 0 <= k < i && 0 <= j < |htab[k]| ==> htab[k][j].ecu != ecu
      {
        var j := 0;
        while j < |htab[i]|
          invariant j <= |htab[i]| && forall l :: 0 <= l < j ==> htab[i][l].ecu != ecu
        {
          if htab[i][j].ecu == ecu {
            assert ChainOk(htab[i], all, Hash(), |htab|, i);
            return Some(htab[i][j]);
          }
          j := j + 1;
        }
        i := i + 1;
      }
      forall e | e in all ensures e.ecu != ecu {
        var k := Hash()(e) % |htab|;
        assert ChainOk(htab[k], all, Hash(), |htab|, k);
        var j :| 0 <= j < |htab[k]| && htab[k][j] == e;
      }
      return None;
    }
  }

  // ---------------------------------------------------------------- runs

  datatype Op = Record(ips: seq<nat>) | Archive(lo: nat, hi: nat, epoch: nat)

  ghost predicate Step(s: Store, op: Op, s': Store, r: Ec) {
    match op
    case Record(ips) => ips != [] && Records(s, ips, s', r)
    case Archive(lo, hi, epoch) => s' == Store(ArchivedSet(s.all, lo, hi, epoch), s.next)
  }

  /** A run from any table: the stores it goes through, and the context that each recording returns. */
  ghost predicate Run(ss: seq<Store>, ops: seq<Op>, rs: seq<Ec>) {
    && |ss| == |ops| + 1 == |rs| + 1 && Recorded(ss[0].all, ss[0].next)
    && forall i :: 0 <= i < |ops| ==> Step(ss[i], ops[i], ss[i + 1], rs[i])
  }

  /** None of the operations from `i` to `j` archives a context with this trace. */
  ghost predicate Kept(ops: seq<Op>, i: nat, j: nat, ips: seq<nat>)
    requires j <= |ops|
  {
    forall k :: i <= k < j && ops[k].Archive? ==> !Touches(ips, ops[k].lo, ops[k].hi)
  }

  lemma StepKeeps(s: Store, op: Op, s': Store, r: Ec)
    requires Recorded(s.all, s.next) && Step(s, op, s', r)
    ensures Recorded(s'.all, s'.next)
  {
    if op.Archive? {
      ArchivedRecorded(s.all, s.next, op.lo, op.hi, op.epoch);
    }
  }

  lemma {:induction false} RunKeeps(ss: seq<Store>, ops: seq<Op>, rs: seq<Ec>, j: nat)
    requires Run(ss, ops, rs) && j <= |ops|
    ensures Recorded(ss[j].all, ss[j].next)
  {
    hide Recorded, Step;
    if j > 0 {
      RunKeeps(ss, ops, rs, j - 1);
      StepKeeps(ss[j - 1], ops[j - 1], ss[j], rs[j - 1]);
    }
  }

  /** What became of the context that recording `i` returned. */
  lemma {:induction false} Follow(ss: seq<Store>, ops: seq<Op>, rs: seq<Ec>, i: nat, j: nat) returns (e: Ec)
    requires Run(ss, ops, rs) && i < j <= |ops| && ops[i].Record?
    ensures e in ss[j].all && e.ecu == rs[i].ecu && e.ips == ops[i].ips
    ensures e.epoch.None? <==> Kept(ops, i + 1, j, e.ips)
    decreases j
  {
    hide Recorded, Touches;
    assert Step(ss[j - 1], ops[j - 1], ss[j], rs[j - 1]);
    if j == i + 1 {
      e := rs[i];
    } else {
      var d := Follow(ss, ops, rs, i, j - 1);
      match ops[j - 1] {
        case Record(_) => e := d;
        case Archive(lo, hi, epoch) => e := ArchivedEc(d, lo, hi, epoch);
      }
    }
  }

  /** In every run, two recordings return contexts with the same number exactly if their traces are the same and
      none of the archivings between them touches it. */
  lemma SameTraceSameContext(ss: seq<Store>, ops: seq<Op>, rs: seq<Ec>, i: nat, j: nat)
    requires Run(ss, ops, rs) && i < j < |ops| && ops[i].Record? && ops[j].Record?
    ensures rs[i].ecu == rs[j].ecu <==> ops[i].ips == ops[j].ips && Kept(ops, i + 1, j, ops[i].ips)
  {
    hide Kept, Touches;
    var e := Follow(ss, ops, rs, i, j);
    RunKeeps(ss, ops, rs, j);
    RunKeeps(ss, ops, rs, j + 1);
    assert Step(ss[j], ops[j], ss[j + 1], rs[j]);
  }
}
