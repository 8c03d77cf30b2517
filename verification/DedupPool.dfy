/**
 A pool of fixed-size elements that stores each element once (`m_deduppoolalloc.c`).
 Elements are numbered from one in the order in which they were first seen.  The pool is one
 block of memory: when it is full, a block of twice the size is made, the bytes are copied,
 and the pointers in the nodes of the hash table are moved along.  Where the new block is, is
 for the allocator to say.
*/
module DedupPool {
  import opened Common

  // ---------------------------------------------------------------- addresses

  function RoundUp(x: nat, a: nat): nat
    requires a > 0
  {
    (x + a - 1) / a * a
  }

  /** Where element `k` is, counted from the start of the pool. */
  function Offset(k: nat, stride: nat): nat { k * stride }

  lemma DivIs(y: nat, a: nat, q: nat)
    requires a > 0 && q * a <= y < q * a + a
    ensures y / a == q
  {
    var d := y / a;
    assert y == a * d + y % a;
    if d < q {
      Times(a, d + 1, q);
    } else if d > q {
      Times(a, q + 1, d);
    }
  }

  lemma Times(a: nat, x: nat, y: nat)
    requires x <= y
    ensures a * x <= a * y
  {
  }

  lemma MulMod(q: nat, a: nat)
    requires a > 0
    ensures q * a % a == 0
  {
    DivIs(q * a, a, q);
    assert q * a == a * (q * a / a) + q * a % a;
  }

  lemma RoundUpOk(x: nat, a: nat)
    requires a > 0
    ensures x <= RoundUp(x, a) < x + a && RoundUp(x, a) % a == 0
  {
    var y := x + a - 1;
    assert y == a * (y / a) + y % a;
    MulMod(y / a, a);
  }

  lemma RoundUpIs(x: nat, a: nat, m: nat)
    requires a > 0 && m % a == 0 && x <= m < x + a
    ensures RoundUp(x, a) == m
  {
    var q := m / a;
    assert m == a * q + m % a;
    DivIs(x + a - 1, a, q);
  }

  lemma ModAdd(x: nat, y: nat, a: nat)
    requires a > 0 && x % a == 0 && y % a == 0
    ensures (x + y) % a == 0
  {
    var p, q := x / a, y / a;
    assert x == a * p + x % a && y == a * q + y % a;
    assert x + y == (p + q) * a;
    MulMod(p + q, a);
  }

  lemma {:induction false} OffsetAligned(k: nat, stride: nat, a: nat)
    requires a > 0 && stride % a == 0
    ensures Offset(k, stride) % a == 0
  {
    if k > 0 {
      OffsetAligned(k - 1, stride, a);
      ModAdd(Offset(k - 1, stride), stride, a);
      assert Offset(k, stride) == Offset(k - 1, stride) + stride;
    }
  }

  lemma OffsetSteps(j: nat, k: nat, stride: nat)
    requires j < k
    ensures Offset(j + 1, stride) == Offset(j, stride) + stride <= Offset(k, stride)
  {
    Times(stride, j + 1, k);
  }

  /** `elt2nr` */
  function NumberAt(curpool: nat, elt: nat, stride: nat): nat
    requires stride > 0 && curpool <= elt
  {
    1 + (elt - curpool) / stride
  }

  /** `indexEltNumber` */
  function AddressOf(curpool: nat, nr: nat, stride: nat): nat
    requires nr > 0
  {
    curpool + Offset(nr - 1, stride)
  }

  /** For a pool anywhere in memory: the number of its k-th element is right, but the element is found again by its
      number only if the pool itself is aligned, because numbers are counted from there. */
  lemma NumbersAndAddresses(curpool: nat, k: nat, size: nat, align: nat)
    requires align > 0 && size > 0
    ensures
      var stride, first := RoundUp(size, align), RoundUp(curpool, align);
      && stride > 0 && curpool <= first
      && NumberAt(curpool, first + Offset(k, stride), stride) == k + 1
      && (AddressOf(curpool, k + 1, stride) == first + Offset(k, stride) <==> curpool % align == 0)
  {
    RoundUpOk(size, align);
    RoundUpOk(curpool, align);
    var stride, first := RoundUp(size, align), RoundUp(curpool, align);
    assert stride >= align by {
      var q := stride / align;
      assert stride == align * q + stride % align;
      if q >= 1 {
        Times(align, 1, q);
      }
    }
    DivIs(first + Offset(k, stride) - curpool, stride, k);
    if curpool % align == 0 {
      RoundUpIs(curpool, align, curpool);
    }
  }

  // ---------------------------------------------------------------- what is stored

  /** The elements stored once `elt` has been handed in. */
  function Intern<T(==)>(elts: seq<T>, elt: T): seq<T> {
    if elt in elts then elts else elts + [elt]
  }

  function InternAll<T(==)>(trace: seq<T>): seq<T> {
    if trace == [] then [] else Intern(InternAll(trace[..|trace| - 1]), trace[|trace| - 1])
  }

  /** `numbers` are numbers of the elements of `trace` in a pool, each given when that element was handed in. */
  ghost predicate Numbered<T>(trace: seq<T>, numbers: seq<nat>) {
    |numbers| == |trace| && forall i :: 0 <= i < |trace| ==>
      var elts := InternAll(trace[..i + 1]);
      1 <= numbers[i] <= |elts| && elts[numbers[i] - 1] == trace[i]
  }

  ghost predicate Unique<T>(s: seq<T>) {
    forall i, j :: 0 <= i < j < |s| ==> s[i] != s[j]
  }

  lemma {:induction false} InternsGrow<T>(trace: seq<T>, i: nat)
    requires i <= |trace|
    ensures InternAll(trace[..i]) <= InternAll(trace) && Unique(InternAll(trace))
    ensures forall e :: e in InternAll(trace) <==> e in trace
  {
    if i < |trace| {
      var front := trace[..|trace| - 1];
      assert front[..i] == trace[..i] && trace == front + [trace[|trace| - 1]];
      InternsGrow(front, i);
    } else {
      assert trace[..i] == trace;
      if i > 0 {
        InternsGrow(trace, i - 1);
      }
    }
  }

  /** Numbers stay good when more is handed in. */
  lemma NumberStays<T>(trace: seq<T>, numbers: seq<nat>, i: nat)
    requires Numbered(trace, numbers) && i < |trace|
    ensures var elts := InternAll(trace); Unique(elts) && 1 <= numbers[i] <= |elts| && elts[numbers[i] - 1] == trace[i]
  {
    InternsGrow(trace, i + 1);
  }

  /** Two requests get the same number exactly if their bytes are the same. */
  lemma EqualBytesEqualNumbers<T>(trace: seq<T>, numbers: seq<nat>, i: nat, j: nat)
    requires Numbered(trace, numbers) && i < |trace| && j < |trace|
    ensures numbers[i] == numbers[j] <==> trace[i] == trace[j]
  {
    hide Numbered, InternAll;
    NumberStays(trace, numbers, i);
    NumberStays(trace, numbers, j);
  }

  /** An element that was not handed in before gets the number of different elements that there are then: the
      numbers go up from one in the order in which elements are first seen. */
  lemma FirstSeenOrder<T>(trace: seq<T>, numbers: seq<nat>, i: nat)
    requires Numbered(trace, numbers) && i < |trace|
    ensures trace[i] !in trace[..i] <==> numbers[i] == |InternAll(trace[..i])| + 1
  {
    var before, now := trace[..i], trace[..i + 1];
    InternsGrow(before, i);
    InternsGrow(now, i + 1);
    assert now[..i] == before && now[i] == trace[i];
  }

  // ---------------------------------------------------------------- the pool

  /** A node of the hash table: it points to an element in the pool. */
  datatype Node = Node(key: nat, elt: nat)

  /** The bytes of every element are where its number says. */
  ghost predicate Stored(mem: seq<Byte>, elts: seq<seq<Byte>>, size: nat, stride: nat) {
    forall k: nat :: k < |elts| ==> HoldsAt(mem, Offset(k, stride), elts[k], size)
  }

  ghost predicate HoldsAt(mem: seq<Byte>, at: nat, elt: seq<Byte>, size: nat) {
    at + size <= |mem| && mem[at..at + size] == elt
  }

  ghost predicate NodesOk(nodes: seq<Node>, elts: seq<seq<Byte>>, base: nat, stride: nat, hash: seq<Byte> -> nat) {
    |nodes| == |elts| && forall k: nat :: k < |nodes| ==> nodes[k] == Node(hash(elts[k]), base + Offset(k, stride))
  }

  lemma StoredSame(mem: seq<Byte>, mem': seq<Byte>, elts: seq<seq<Byte>>, size: nat, stride: nat, used: nat)
    requires Stored(mem, elts, size, stride) && used <= |mem| && used <= |mem'| && mem'[..used] == mem[..used]
    requires used == Offset(|elts|, stride) && size <= stride
    ensures Stored(mem', elts, size, stride)
  {
    forall k: nat | k < |elts| ensures HoldsAt(mem', Offset(k, stride), elts[k], size) {
      assert HoldsAt(mem, Offset(k, stride), elts[k], size);
      OffsetSteps(k, |elts|, stride);
      var at := Offset(k, stride);
      assert mem'[..used][at..at + size] == mem[..used][at..at + size];
    }
  }

  lemma EmptyPool(curpool: nat, newpool: nat, nodes: seq<Node>, stride: nat, hash: seq<Byte> -> nat, size: nat)
    ensures Offset(0, stride) == 0 && forall mem :: Stored(mem, [], size, stride)
    ensures NodesOk(nodes, [], curpool, stride, hash) ==> NodesOk(nodes, [], newpool, stride, hash)
  {
  }

  class Pool {
    const poolSzB: nat
    const eltAlign: nat
    const hash: seq<Byte> -> nat
    var fixedSzb: nat
    var mem: array?<Byte>
    var curpool: nat
    var curpoolFree: nat
    var nodes: seq<Node>
    ghost var elts: seq<seq<Byte>>

    function Stride(): nat
      reads this
      requires eltAlign > 0
    {
      RoundUp(fixedSzb, eltAlign)
    }

    /** `mem` is the memory from address `curpool` on; the bytes before `curpoolFree` are in use. */
    ghost predicate Valid()
      reads this, mem
    {
      && eltAlign > 0 && poolSzB % eltAlign == 0
      && Unique(elts) && NodesOk(nodes, elts, curpool, Stride(), hash)
      && (if mem == null then elts == []
          else
            && fixedSzb > 0 && fixedSzb + eltAlign <= poolSzB <= mem.Length
            && curpool % eltAlign == 0 && mem.Length % eltAlign == 0
            && curpoolFree == curpool + Offset(|elts|, Stride()) <= curpool + mem.Length
            && Stored(mem[..], elts, fixedSzb, Stride()))
    }

    constructor (poolSzB: nat, eltAlign: nat, hash: seq<Byte> -> nat)
      requires eltAlign > 0 && poolSzB >= 100 && poolSzB >= 10 * eltAlign && poolSzB % eltAlign == 0
      ensures Valid() && elts == [] && fixedSzb == 0 && mem == null
      ensures this.poolSzB == poolSzB && this.eltAlign == eltAlign
    {
      this.poolSzB, this.eltAlign, this.hash := poolSzB, eltAlign, hash;
      fixedSzb, mem, curpool, curpoolFree, nodes := 0, null, 0, 0, [];
      elts := [];
    }

    /** The lookup in the hash table, which compares the bytes that the nodes point to. */
    method Lookup(elt: seq<Byte>) returns (r: Option<Node>)
      requires Valid() && |elt| == fixedSzb
      ensures r.Some? ==> exists k: nat :: k < |elts| && elts[k] == elt && r.value.elt == curpool + Offset(k, Stride())
      ensures r.None? ==> elt !in elts
    {
      var i := 0;
      while i < |nodes|
        invariant i <= |nodes| && forall k :: 0 <= k < i ==> elts[k] != elt
      {
        var at := nodes[i].elt - curpool;
        assert mem != null && HoldsAt(mem[..], Offset(i, Stride()), elts[i], fixedSzb);
        if nodes[i].key == hash(elt) && mem[at..at + fixedSzb] == elt {
          return Some(nodes[i]);
        }
        i := i + 1;
      }
      return None;
    }

    /** `ddpa_add_new_pool_or_grow`, with the address that the allocator gives. */
    method NewPoolOrGrow(newpool: nat)
      requires Valid() && fixedSzb > 0 && fixedSzb + eltAlign <= poolSzB && newpool % eltAlign == 0
      modifies this`mem, this`curpool, this`curpoolFree, this`nodes
      ensures Valid() && elts == old(elts) && mem != null && fresh(mem) && curpool == newpool
      ensures curpoolFree + fixedSzb <= curpool + mem.Length
    {
      EmptyPool(curpool, newpool, nodes, Stride(), hash, fixedSzb);
      RoundUpOk(fixedSzb, eltAlign);
      hide Stored, NodesOk, Unique, Offset, RoundUp, Pool.Stride;
      if mem != null {
        ModAdd(mem.Length, mem.Length, eltAlign);
        var used := curpoolFree - curpool;
        var bigger := new Byte[2 * mem.Length](_ => 0);
        CopyBytes(mem, bigger, used);
        StoredSame(mem[..], bigger[..], elts, fixedSzb, Stride(), used);
        nodes := Relocated(nodes, curpool, newpool, elts, Stride(), hash);
        mem, curpool, curpoolFree := bigger, newpool, newpool + used;
      } else {
        mem := new Byte[poolSzB](_ => 0);
        curpool, curpoolFree := newpool, newpool;
      }
    }

    /** The end of `allocEltDedupPA`: the element goes to the free end of the pool. */
    method Insert(elt: seq<Byte>)
      requires Valid() && mem != null && |elt| == fixedSzb && elt !in elts
      requires curpoolFree + fixedSzb <= curpool + mem.Length
      modifies mem, this`curpoolFree, this`nodes, this`elts
      ensures Valid() && elts == old(elts) + [elt]
    {
      NextFree(mem.Length, |elts|, fixedSzb, eltAlign, curpool);
      hide Offset, RoundUp;
      ghost var was := mem[..];
      var at := curpoolFree - curpool;
      Paste(mem, at, elt);
      StoredMore(was, mem[..], elts, elt, fixedSzb, Stride());
      NodesMore(nodes, elts, elt, curpool, Stride(), hash);
      nodes := nodes + [Node(hash(elt), curpoolFree)];
      curpoolFree := RoundUp(curpoolFree + fixedSzb, eltAlign);
      elts := elts + [elt];
    }

    method SetSize(size: nat)
      requires Valid() && (fixedSzb == 0 || fixedSzb == size)
      modifies this`fixedSzb
      ensures Valid() && fixedSzb == size
    {
      hide Stored, Unique, Offset, RoundUp;
      assert fixedSzb == 0 ==> nodes == [];
      fixedSzb := size;
    }

    /** `VG_(allocFixedEltDedupPA)`; `newpool` is where the allocator puts a new block if one is needed. */
    method AllocFixed(elt: seq<Byte>, newpool: nat) returns (nr: nat)
      requires Valid() && elt != [] && (fixedSzb == 0 || fixedSzb == |elt|)
      requires |elt| + eltAlign <= poolSzB && newpool % eltAlign == 0
      modifies this, mem
      ensures Valid() && fixedSzb == |elt| && elts == Intern(old(elts), elt)
      ensures 1 <= nr <= |elts| && elts[nr - 1] == elt
      ensures mem == old(mem) || fresh(mem)
    {
      hide Stored, NodesOk, Unique, Offset, RoundUp;
      SetSize(|elt|);
      RoundUpOk(|elt|, eltAlign);
      var found := Lookup(elt);
      if found.Some? {
        ghost var k: nat :| k < |elts| && elts[k] == elt && found.value.elt == curpool + Offset(k, Stride());
        NumberOf(curpool, k, Stride());
        return NumberAt(curpool, found.value.elt, Stride());
      }
      if mem == null || curpoolFree + |elt| > curpool + mem.Length {
        NewPoolOrGrow(newpool);
      }
      var at := curpoolFree;
      NumberOf(curpool, |elts|, Stride());
      Insert(elt);
      return NumberAt(curpool, at, Stride());
    }

    /** `VG_(indexEltNumber)` */
    method IndexEltNumber(nr: nat) returns (at: nat)
      requires Valid() && 1 <= nr <= |elts|
      ensures curpool <= at && at + fixedSzb <= curpool + mem.Length
      ensures mem[at - curpool..at - curpool + fixedSzb] == elts[nr - 1]
    {
      hide Offset, RoundUp;
      assert HoldsAt(mem[..], Offset(nr - 1, Stride()), elts[nr - 1], fixedSzb);
      at := AddressOf(curpool, nr, Stride());
    }

    /** `VG_(sizeDedupPA)` */
    method Size() returns (n: nat)
      requires Valid()
      ensures n == |elts|
    {
      if mem == null {
        return 0;
      }
      RoundUpIs(curpool, eltAlign, curpool);
      RoundUpOk(fixedSzb, eltAlign);
      NumberOf(curpool, |elts|, Stride());
      n := (curpoolFree - RoundUp(curpool, eltAlign)) / RoundUp(fixedSzb, eltAlign);
    }
  }

  // ---------------------------------------------------------------- helpers

  lemma NumberOf(curpool: nat, k: nat, stride: nat)
    requires stride > 0
    ensures NumberAt(curpool, curpool + Offset(k, stride), stride) == k + 1
  {
    DivIs(Offset(k, stride), stride, k);
  }

  lemma Exactly(x: nat, a: nat) returns (q: nat)
    requires a > 0 && x % a == 0
    ensures x == a * q
  {
    q := x / a;
    assert x == a * q + x % a;
  }

  lemma NextTimes(a: nat, q: nat)
    ensures a * (q + 1) == a * q + a
  {
  }

  lemma RoundUpLeast(x: nat, a: nat, m: nat)
    requires a > 0 && m % a == 0 && x <= m
    ensures RoundUp(x, a) <= m
  {
    hide *;
    RoundUpOk(x, a);
    var r := RoundUp(x, a);
    var p := Exactly(r, a);
    var q := Exactly(m, a);
    if p > q {
      Times(a, q + 1, p);
      NextTimes(a, q);
    }
  }

  /** Rounding up the end of the last element gives the place of the next, which is not behind the pool. */
  lemma NextFree(length: nat, n: nat, size: nat, align: nat, curpool: nat)
    requires align > 0 && curpool % align == 0 && length % align == 0 && Offset(n, RoundUp(size, align)) + size <= length
    ensures var stride := RoundUp(size, align);
      && size <= stride && Offset(n, stride) + stride == Offset(n + 1, stride) <= length
      && RoundUp(curpool + Offset(n, stride) + size, align) == curpool + Offset(n + 1, stride)
  {
    var stride := RoundUp(size, align);
    RoundUpOk(size, align);
    OffsetSteps(n, n + 1, stride);
    OffsetAligned(n + 1, stride, align);
    hide Offset, RoundUp;
    ModAdd(curpool, Offset(n + 1, stride), align);
    RoundUpIs(curpool + Offset(n, stride) + size, align, curpool + Offset(n + 1, stride));
    RoundUpIs(Offset(n, stride) + size, align, Offset(n + 1, stride));
    RoundUpLeast(Offset(n, stride) + size, align, length);
  }

  lemma StoredMore(mem: seq<Byte>, mem': seq<Byte>, elts: seq<seq<Byte>>, elt: seq<Byte>, size: nat, stride: nat)
    requires Stored(mem, elts, size, stride) && |mem'| == |mem| && size <= stride
    requires var used := Offset(|elts|, stride); HoldsAt(mem', used, elt, size) && mem'[..used] == mem[..used]
    ensures Stored(mem', elts + [elt], size, stride)
  {
    StoredSame(mem, mem', elts, size, stride, Offset(|elts|, stride));
  }

  lemma NodesMore(nodes: seq<Node>, elts: seq<seq<Byte>>, elt: seq<Byte>, base: nat, stride: nat, hash: seq<Byte> -> nat)
    requires NodesOk(nodes, elts, base, stride, hash)
    ensures NodesOk(nodes + [Node(hash(elt), base + Offset(|elts|, stride))], elts + [elt], base, stride, hash)
  {
  }

  /** `memcpy` */
  method Paste(mem: array<Byte>, at: nat, elt: seq<Byte>)
    requires at + |elt| <= mem.Length
    modifies mem
    ensures mem[..at] == old(mem[..at]) && mem[at..at + |elt|] == elt
  {
    var i := 0;
    while i < |elt|
      invariant i <= |elt| && mem[..at] == old(mem[..at]) && mem[at..at + i] == elt[..i]
    {
      mem[at + i] := elt[i];
      assert mem[at..at + i + 1] == mem[at..at + i] + [elt[i]];
      i := i + 1;
    }
  }

  method CopyBytes(src: array<Byte>, dst: array<Byte>, n: nat)
    requires n <= src.Length && n <= dst.Length && src != dst
    modifies dst
    ensures dst[..n] == src[..n]
  {
    var i := 0;
    while i < n
      invariant i <= n && dst[..i] == src[..i]
    {
      dst[i] := src[i];
      i := i + 1;
    }
  }

  /** The pointers in the nodes are moved with the pool. */
  method Relocated(nodes: seq<Node>, curpool: nat, newpool: nat, ghost elts: seq<seq<Byte>>, ghost stride: nat,
                   ghost hash: seq<Byte> -> nat) returns (r: seq<Node>)
    requires NodesOk(nodes, elts, curpool, stride, hash)
    ensures NodesOk(r, elts, newpool, stride, hash)
  {
    r := [];
    var i := 0;
    while i < |nodes|
      invariant i <= |nodes| == |elts| && |r| == i
      invariant forall k: nat :: k < i ==> r[k] == Node(hash(elts[k]), newpool + Offset(k, stride))
    {
      r := r + [nodes[i].(elt := nodes[i].elt - curpool + newpool)];
      i := i + 1;
    }
  }
}
