/**
 Callgrind's write-back and cache-use references as they run, in place on the array of tags:
 `set` is the part of it from `base` on.
*/
module TagArrays {
  import opened CacheSim
  import opened WriteBack
  import opened CacheUse

  ghost function Part(a: array<nat>, base: nat, n: nat): (s: seq<nat>)
    requires base + n <= a.Length
    reads a
    ensures |s| == n && forall k :: 0 <= k < n ==> s[k] == a[base + k]
  {
    a[base..base + n]
  }

  /** The inner loop of every reference: entries 0 to `i` move down one place, and `x` comes first. */
  method ShiftDown(a: array<nat>, base: nat, n: nat, i: nat, x: nat)
    requires base + n <= a.Length && i < n
    modifies a
    ensures Part(a, base, n) == Shift(old(Part(a, base, n)), i, x)
    ensures forall k :: 0 <= k < a.Length && !(base <= k < base + n) ==> a[k] == old(a[k])
  {
    var j: nat := i;
    while j > 0
      invariant j <= i
      invariant forall k :: base + j < k <= base + i ==> a[k] == old(a[k - 1])
      invariant forall k :: 0 <= k < a.Length && !(base + j < k <= base + i) ==> a[k] == old(a[k])
    {
      a[base + j] := a[base + j - 1];
      j := j - 1;
    }
    a[base] := x;
    ghost var t := Shift(old(Part(a, base, n)), i, x);
    forall k | 0 <= k < n ensures Part(a, base, n)[k] == t[k] {
      if 0 < k <= i {
        assert a[base + k] == old(a[base + k - 1]) == old(Part(a, base, n))[k - 1];
      } else if k > i {
        assert a[base + k] == old(a[base + k]) == old(Part(a, base, n))[k];
      }
    }
  }

  /** The search of `cachesim_setref_wb`, whose first step is unrolled in the source. */
  method FindClean(a: array<nat>, base: nat, assoc: nat, tag: nat) returns (i: nat)
    requires base + assoc <= a.Length
    ensures i == IndexOf(Cleaned(Part(a, base, assoc)), tag)
  {
    ghost var c := Cleaned(Part(a, base, assoc));
    i := 0;
    while i < assoc && Clean(a[base + i]) != tag
      invariant i <= assoc && forall k :: 0 <= k < i ==> c[k] != tag
    {
      i := i + 1;
    }
    IndexOfFirst(c, tag, i);
  }

  /** `cachesim_setref_wb` */
  method SetRefWbInPlace(a: array<nat>, base: nat, assoc: nat, write: bool, tag: nat) returns (res: CacheResult)
    requires base + assoc <= a.Length && assoc > 0
    modifies a
    ensures (Part(a, base, assoc), res) == SetRefWb(old(Part(a, base, assoc)), write, tag)
    ensures forall k :: 0 <= k < a.Length && !(base <= k < base + assoc) ==> a[k] == old(a[k])
  {
    var i := FindClean(a, base, assoc, tag);
    if i < assoc {
      ShiftDown(a, base, assoc, i, Mark(a[base + i], write));
      res := Hit;
    } else {
      var evicted := a[base + assoc - 1];
      ShiftDown(a, base, assoc, assoc - 1, Mark(tag, write));
      res := if Dirty(evicted) then MissDirty else Miss;
    }
  }

  method FindHigh(a: array<nat>, base: nat, assoc: nat, m: nat, tag: nat) returns (i: nat)
    requires base + assoc <= a.Length && m > 0
    ensures i == IndexOf(Highs(m, Part(a, base, assoc)), tag)
  {
    ghost var h := Highs(m, Part(a, base, assoc));
    i := 0;
    while i < assoc && High(m, a[base + i]) != tag
      invariant i <= assoc && forall k :: 0 <= k < i ==> h[k] != tag
    {
      i := i + 1;
    }
    IndexOfFirst(h, tag, i);
  }

  /** One set of `doRead` and `cacheuse_LL_access`.  `idx` is where the statistics of the line are kept. */
  method UseInPlace(a: array<nat>, loaded: array<nat>, base: nat, assoc: nat, m: nat, tag: nat, memline: nat)
      returns (miss: bool, idx: nat)
    requires base + assoc <= a.Length == loaded.Length && assoc > 0 && m > 0 && a != loaded
    requires SlotsOk(m, Part(a, base, assoc)) && tag % m == 0
    modifies a, loaded
    ensures var (row, wasMiss) := Use(m, Row(old(Part(a, base, assoc)), old(Part(loaded, base, assoc))), tag, memline);
      Part(a, base, assoc) == row.entries && Part(loaded, base, assoc) == row.loaded && miss == wasMiss
    ensures base <= idx < base + assoc && idx == base + Slot(m, a[base])
    ensures forall k :: 0 <= k < a.Length && !(base <= k < base + assoc) ==> a[k] == old(a[k]) && loaded[k] == old(loaded[k])
  {
    hide IndexOf;
    var i := FindHigh(a, base, assoc, m, tag);
    ghost var s, l := Part(a, base, assoc), Part(loaded, base, assoc);
    if i < assoc {
      idx := base + Slot(m, a[base + i]);
      ShiftDown(a, base, assoc, i, a[base + i]);
      assert Part(a, base, assoc)[0] == s[i];
      miss := false;
    } else {
      var slot := Slot(m, a[base + assoc - 1]);
      TagPlusSlot(m, tag, slot);
      ShiftDown(a, base, assoc, assoc - 1, tag + slot);
      assert Part(a, base, assoc)[0] == tag + slot && slot < assoc;
      idx := base + slot;
      loaded[idx] := memline;
      assert Part(loaded, base, assoc) == l[slot := memline];
      miss := true;
    }
  }
}
