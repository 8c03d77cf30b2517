/**
 The cache of `cg_sim.c` as it is in memory: one flat array of tags, each set a run of
 `assoc` entries that a reference reorders in place.
*/
module CacheArray {
  import opened CacheSim

  /** Rows `j` and `k` of a flat array do not overlap, and fit. */
  lemma RowsApart(j: nat, k: nat, assoc: nat)
    requires j < k
    ensures j * assoc + assoc <= k * assoc
  {
    assert (j + 1) * assoc <= k * assoc;
  }

  /** Set `k` of a flat array of sets. */
  function Row(tags: seq<nat>, assoc: nat, sets: nat, k: nat): (s: seq<nat>)
    requires |tags| == sets * assoc && k < sets
    ensures |s| == assoc
  {
    RowsApart(k, sets, assoc);
    tags[k * assoc..k * assoc + assoc]
  }

  function Rows(tags: seq<nat>, assoc: nat, sets: nat): (c: Tags)
    requires |tags| == sets * assoc
    ensures |c| == sets && forall k :: 0 <= k < sets ==> c[k] == Row(tags, assoc, sets, k)
  {
    seq(sets, k requires 0 <= k < sets => Row(tags, assoc, sets, k))
  }

  /** Changing row `k` alone. */
  lemma RowChange(t: seq<nat>, t': seq<nat>, assoc: nat, sets: nat, k: nat, s: seq<nat>)
    requires |t| == |t'| == sets * assoc && k < sets && |s| == assoc
    requires forall i :: 0 <= i < |t| ==>
      t'[i] == if k * assoc <= i < k * assoc + assoc then s[i - k * assoc] else t[i]
    ensures Rows(t', assoc, sets) == Rows(t, assoc, sets)[k := s]
  {
    RowsApart(k, sets, assoc);
    assert Row(t', assoc, sets, k) == s;
    forall j | 0 <= j < sets && j != k ensures Row(t', assoc, sets, j) == Row(t, assoc, sets, j) {
      RowsApart(j, sets, assoc);
      if j < k {
        RowsApart(j, k, assoc);
      } else {
        RowsApart(k, j, assoc);
      }
    }
  }

  lemma ZeroRows(t: seq<nat>, assoc: nat, sets: nat)
    requires |t| == sets * assoc && assoc > 0 && sets > 0 && forall i :: 0 <= i < |t| ==> t[i] == 0
    ensures Rows(t, assoc, sets) == Empty(sets, assoc)
  {
    forall k | 0 <= k < sets ensures Row(t, assoc, sets, k) == Empty(sets, assoc)[k] {
      RowsApart(k, sets, assoc);
    }
  }

  class Cache {
    const assoc: nat
    const lineSize: nat
    const sets: nat
    const tags: array<nat>

    ghost predicate Valid()
    {
      assoc > 0 && lineSize > 0 && sets > 0 && tags.Length == sets * assoc
    }

    /** The cache as a sequence of sets. */
    ghost function Model(): (c: Tags)
      requires Valid()
      reads tags
      ensures Shaped(c) && |c| == sets && forall k :: 0 <= k < sets ==> |c[k]| == assoc
    {
      Rows(tags[..], assoc, sets)
    }

    constructor (sets: nat, assoc: nat, lineSize: nat)
      requires sets > 0 && assoc > 0 && lineSize > 0
      ensures Valid() && this.sets == sets && this.assoc == assoc && this.lineSize == lineSize
      ensures fresh(tags) && Model() == Empty(sets, assoc)
    {
      this.sets, this.assoc, this.lineSize := sets, assoc, lineSize;
      tags := new nat[sets * assoc];
      new;
      for i := 0 to tags.Length
        invariant forall k :: 0 <= k < i ==> tags[k] == 0
      {
        tags[i] := 0;
      }
      ZeroRows(tags[..], assoc, sets);
    }

    /** Moves entries `base` to `base + i - 1` one place down and puts `tag` in front. */
    method ShiftIn(base: nat, i: nat, tag: nat)
      requires base + i < tags.Length
      modifies tags
      ensures tags[base] == tag
      ensures forall k :: base < k <= base + i ==> tags[k] == old(tags[k - 1])
      ensures forall k :: 0 <= k < tags.Length && !(base <= k <= base + i) ==> tags[k] == old(tags[k])
    {
      var j := i;
      while j > 0
        invariant 0 <= j <= i
        invariant forall k :: base + j < k <= base + i ==> tags[k] == old(tags[k - 1])
        invariant forall k :: 0 <= k < tags.Length && !(base + j < k <= base + i) ==> tags[k] == old(tags[k])
      {
        tags[base + j] := tags[base + j - 1];
        j := j - 1;
      }
      tags[base] := tag;
    }

    method SetRefIsMiss(setNo: nat, tag: nat) returns (miss: bool)
      requires Valid() && setNo < sets
      modifies tags
      ensures Model() == old(Model())[setNo := SetRef(old(Model())[setNo], tag).0]
      ensures miss == SetRef(old(Model())[setNo], tag).1
    {
      RowsApart(setNo, sets, assoc);
      var base := setNo * assoc;
      ghost var set' := Model()[setNo];
      assert forall k :: 0 <= k < assoc ==> set'[k] == tags[base + k];
      if tag == tags[base] {
        IndexOfFirst(set', tag, 0);
        assert Model() == Model()[setNo := set'];
        assert Shift(set', 0, tag) == set';
        return false;
      }
      var i := 1;
      while i < assoc
        invariant 1 <= i <= assoc
        invariant forall k :: 0 <= k < i ==> set'[k] != tag
      {
        if tag == tags[base + i] {
          IndexOfFirst(set', tag, i);
          Install(setNo, i, tag);
          return false;
        }
        i := i + 1;
      }
      IndexOfFirst(set', tag, assoc);
      Install(setNo, assoc - 1, tag);
      return true;
    }

    method Install(setNo: nat, i: nat, tag: nat)
      requires Valid() && setNo < sets && i < assoc && setNo * assoc + i < tags.Length
      modifies tags
      ensures Model() == old(Model())[setNo := Shift(old(Model())[setNo], i, tag)]
    {
      ghost var before := tags[..];
      ghost var s := Row(before, assoc, sets, setNo);
      RowsApart(setNo, sets, assoc);
      ShiftIn(setNo * assoc, i, tag);
      RowChange(before, tags[..], assoc, sets, setNo, Shift(s, i, tag));
    }

    method RefIsMiss(a: nat, size: nat) returns (miss: bool)
      requires Valid() && RefOk(lineSize, a, size)
      modifies tags
      ensures Model() == CacheRef(lineSize, old(Model()), a, size).0
      ensures miss == CacheRef(lineSize, old(Model()), a, size).1
    {
      var block1, block2 := FirstBlock(lineSize, a), LastBlock(lineSize, a, size);
      var set1, set2 := block1 % sets, block2 % sets;
      if block1 == block2 {
        miss := SetRefIsMiss(set1, block1);
      } else {
        miss := SetRefIsMiss(set1, block1);
        var miss2 := SetRefIsMiss(set2, block2);
        miss := miss || miss2;
      }
    }
  }

  /** The two levels that an access goes through: `l1`, and on a miss there `ll`. */
  method DorefGen(l1: Cache, ll: Cache, a: nat, size: nat) returns (miss1: bool, missL: bool)
    requires l1.Valid() && ll.Valid() && l1.tags != ll.tags
    requires RefOk(l1.lineSize, a, size) && RefOk(ll.lineSize, a, size)
    modifies l1.tags, ll.tags
    ensures Levels(l1.Model(), ll.Model(), miss1, missL)
         == RefGen(l1.lineSize, ll.lineSize, old(l1.Model()), old(ll.Model()), a, size)
  {
    missL := false;
    miss1 := l1.RefIsMiss(a, size);
    if miss1 {
      missL := ll.RefIsMiss(a, size);
    }
  }

  /** The fast path for an instruction that lies within one line of both levels. */
  method DorefNoX(l1: Cache, ll: Cache, a: nat) returns (miss1: bool, missL: bool)
    requires l1.Valid() && ll.Valid() && l1.tags != ll.tags
    modifies l1.tags, ll.tags
    ensures Levels(l1.Model(), ll.Model(), miss1, missL)
         == RefNoX(l1.lineSize, old(l1.Model()), old(ll.Model()), a)
  {
    missL := false;
    var block := a / l1.lineSize;
    miss1 := l1.SetRefIsMiss(block % l1.sets, block);
    if miss1 {
      missL := ll.SetRefIsMiss(block % ll.sets, block);
    }
  }
}
