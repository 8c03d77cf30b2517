/**
 Callgrind's call arcs (`jumps.c`): a hash table that grows, a list of the arcs of every jump
 of a block, and two shortcuts to the arc last used, one in the caller and one in the callee.
 A block (BBCC) is known by its address, a jCC by the order in which it was made.
*/
module JccTable {
  import opened Common
  import opened HashChains

  const INITIAL_ENTRIES := 4437
  const UINT := 0x1_0000_0000

  datatype Arc = Arc(from: nat, jmp: nat, to: nat)

  datatype Jcc = Jcc(id: nat, arc: Arc)

  function HashOf(e: Jcc): nat { (e.arc.from + 7 * e.arc.to + 13 * e.arc.jmp) % UINT }

  /** How full a table is, in tenths. */
  function Load(entries: nat, size: nat): nat
    requires size > 0
  {
    10 * entries / size
  }

  lemma TimesMono(s: nat, x: int, y: int)
    requires x <= y
    ensures s * x <= s * y
  {
  }

  lemma LoadMeans(entries: nat, size: nat)
    requires size > 0
    ensures Load(entries, size) <= 8 <==> 10 * entries < 9 * size
  {
    var q := Load(entries, size);
    assert 10 * entries == size * q + (10 * entries) % size;
    if q <= 8 {
      TimesMono(size, q, 8);
    } else {
      TimesMono(size, 9, q);
    }
  }

  /** Doubling the table once always makes room for one more entry. */
  lemma DoublingIsEnough(entries: nat, size: nat)
    requires size > 0 && Load(entries, size) <= 8
    ensures Load(entries + 1, 2 * size + 3) <= 8
  {
    hide Load;
    LoadMeans(entries, size);
    LoadMeans(entries + 1, 2 * size + 3);
  }

  /** The arcs made: `count` of them, with different numbers, and no two for the same call. */
  ghost predicate Distinct(all: set<Jcc>, count: nat) {
    && |all| == count
    && (forall e :: e in all ==> e.id < count)
    && (forall e, f :: e in all && f in all && e.arc == f.arc ==> e == f)
    && (forall e, f :: e in all && f in all && e.id == f.id ==> e == f)
  }

  ghost predicate ShortcutsOk(lruFrom: map<nat, Jcc>, lruTo: map<nat, Jcc>, all: set<Jcc>) {
    && (forall b :: b in lruFrom ==> lruFrom[b] in all && lruFrom[b].arc.from == b)
    && (forall b :: b in lruTo ==> lruTo[b] in all && lruTo[b].arc.to == b)
  }

  function ListAt(lists: map<(nat, nat), seq<Jcc>>, from: nat, jmp: nat): seq<Jcc> {
    if (from, jmp) in lists then lists[(from, jmp)] else []
  }

  /** The list of a jump holds exactly its arcs, each once. */
  ghost predicate ListsOk(lists: map<(nat, nat), seq<Jcc>>, all: set<Jcc>) {
    && (forall from, jmp :: NoDup(ListAt(lists, from, jmp)))
    && (forall from, jmp, e :: e in ListAt(lists, from, jmp) <==> e in all && e.arc.from == from && e.arc.jmp == jmp)
  }

  lemma DistinctAdd(all: set<Jcc>, count: nat, e: Jcc)
    requires Distinct(all, count) && e.id == count && forall f :: f in all ==> f.arc != e.arc
    ensures Distinct(all + {e}, count + 1)
  {
  }

  lemma ListsAdd(lists: map<(nat, nat), seq<Jcc>>, all: set<Jcc>, e: Jcc)
    requires ListsOk(lists, all) && e !in all
    ensures
      var key := (e.arc.from, e.arc.jmp);
      ListsOk(lists[key := [e] + ListAt(lists, e.arc.from, e.arc.jmp)], all + {e})
  {
    var key := (e.arc.from, e.arc.jmp);
    var lists' := lists[key := [e] + ListAt(lists, e.arc.from, e.arc.jmp)];
    forall from, jmp ensures NoDup(ListAt(lists', from, jmp)) {
      assert NoDup(ListAt(lists, from, jmp));
    }
    forall from, jmp, f ensures f in ListAt(lists', from, jmp) <==> f in all + {e} && f.arc.from == from && f.arc.jmp == jmp {
      assert f in ListAt(lists, from, jmp) <==> f in all && f.arc.from == from && f.arc.jmp == jmp;
    }
  }

  /** What one lookup does: the arc of a call is made at its first use, and found from then on. */
  ghost predicate Gets(all: set<Jcc>, arc: Arc, all': set<Jcc>, r: Jcc) {
    && r in all' && r.arc == arc
    && (if exists e :: e in all && e.arc == arc then all' == all else all' == all + {r} && r.id == |all|)
  }

  class JccHash {
    var table: seq<seq<Jcc>>
    var entries: nat
    var lists: map<(nat, nat), seq<Jcc>>
    var lruFrom: map<nat, Jcc>
    var lruTo: map<nat, Jcc>
    ghost var all: set<Jcc>

    /** The table is always less than nine tenths full. */
    ghost predicate Valid()
      reads this
    {
      && Rep(table, all, HashOf) && Load(entries, |table|) <= 8
      && Distinct(all, entries) && ListsOk(lists, all) && ShortcutsOk(lruFrom, lruTo, all)
    }

    constructor ()
      ensures Valid() && all == {} && lists == map[] && |table| == 4437
    {
      table := seq(INITIAL_ENTRIES, _ => []);
      entries, lists, lruFrom, lruTo := 0, map[], map[], map[];
      all := {};
    }

    /** The search along a chain. */
    method Search(arc: Arc) returns (r: Option<Jcc>)
      requires Valid()
      ensures r.Some? ==> r.value in all && r.value.arc == arc
      ensures r.None? ==> forall e :: e in all ==> e.arc != arc
    {
      var probe := HashOf(Jcc(0, arc)) % |table|;
      assert ChainOk(table[probe], all, HashOf, |table|, probe);
      var i := 0;
      while i < |table[probe]|
        invariant i <= |table[probe]| && forall j :: 0 <= j < i ==> table[probe][j].arc != arc
      {
        if table[probe][i].arc == arc {
          assert table[probe][i] in table[probe];
          return Some(table[probe][i]);
        }
        i := i + 1;
      }
      forall e | e in all ensures e.arc != arc {
        assert HashOf(e) % |table| == probe ==> e in table[probe];
      }
      return None;
    }

    /** One more entry is counted, and the table is enlarged if it is then nine tenths full. */
    method MakeRoom()
      requires Valid()
      modifies this`table, this`entries
      ensures Rep(table, all, HashOf) && |table| > 0 && Load(entries, |table|) <= 8 && entries == old(entries) + 1
    {
      hide Distinct, ListsOk, ShortcutsOk, ChainOk, HashOf, Load;
      DoublingIsEnough(entries, |table|);
      entries := entries + 1;
      if Load(entries, |table|) > 8 {
        table := Rehash(table, 2 * |table| + 3, HashOf, all);
      }
    }

    /** `new_jcc` */
    lemma Tables()
      requires Valid()
      ensures |table| > 0 && forall e :: ShortcutsOk(lruFrom, lruTo, all) ==> ShortcutsOk(lruFrom, lruTo, all + {e})
    {
      hide Distinct, ListsOk, HashOf, Load;
    }

    method New(arc: Arc) returns (r: Jcc)
      requires Valid() && forall e :: e in all ==> e.arc != arc
      modifies this`table, this`entries, this`lists, this`all
      ensures Valid() && r == Jcc(old(entries), arc) && all == old(all) + {r}
      ensures lists == old(lists)[(arc.from, arc.jmp) := [r] + ListAt(old(lists), arc.from, arc.jmp)]
    {
      hide Distinct, ListsOk, Rep, HashOf, ListAt, Load, ShortcutsOk;
      Tables();
      r := Jcc(entries, arc);
      assert r !in all;
      DistinctAdd(all, entries, r);
      ListsAdd(lists, all, r);
      MakeRoom();
      lists := lists[(arc.from, arc.jmp) := [r] + ListAt(lists, arc.from, arc.jmp)];
      var i := HashOf(r) % |table|;
      Prepend(table, all, HashOf, r);
      table := table[i := [r] + table[i]];
      all := all + {r};
    }

    /** `get_jcc`, for a caller that is known. */
    method Get(arc: Arc) returns (r: Jcc)
      requires Valid()
      modifies this
      ensures Valid() && Gets(old(all), arc, all, r)
      ensures all == old(all) ==> lists == old(lists)
      ensures all != old(all) ==> lists == old(lists)[(arc.from, arc.jmp) := [r] + ListAt(old(lists), arc.from, arc.jmp)]
    {
      hide ListsOk, Rep, HashOf, ListAt, Load;
      if arc.to in lruTo && lruTo[arc.to].arc.from == arc.from && lruTo[arc.to].arc.jmp == arc.jmp {
        return lruTo[arc.to];
      }
      if arc.from in lruFrom && lruFrom[arc.from].arc.to == arc.to && lruFrom[arc.from].arc.jmp == arc.jmp {
        return lruFrom[arc.from];
      }
      var found := Search(arc);
      if found.Some? {
        r := found.value;
      } else {
        r := New(arc);
      }
      SetShortcuts(r);
    }

    method SetShortcuts(r: Jcc)
      requires Valid() && r in all
      modifies this`lruFrom, this`lruTo
      ensures Valid()
    {
      hide Distinct, ListsOk, Rep, Load;
      lruFrom := lruFrom[r.arc.from := r];
      lruTo := lruTo[r.arc.to := r];
    }
  }

  // ---------------------------------------------------------------- runs

  ghost predicate Run(ss: seq<set<Jcc>>, arcs: seq<Arc>, rs: seq<Jcc>) {
    && |ss| == |arcs| + 1 == |rs| + 1 && Distinct(ss[0], |ss[0]|)
    && forall i :: 0 <= i < |arcs| ==> Gets(ss[i], arcs[i], ss[i + 1], rs[i])
  }

  lemma GetsKeeps(all: set<Jcc>, arc: Arc, all': set<Jcc>, r: Jcc)
    requires Gets(all, arc, all', r) && Distinct(all, |all|)
    ensures all <= all' && Distinct(all', |all'|)
  {
    if all' != all {
      DistinctAdd(all, |all|, r);
    }
  }

  lemma {:induction false} RunGrows(ss: seq<set<Jcc>>, arcs: seq<Arc>, rs: seq<Jcc>, i: nat, j: nat)
    requires Run(ss, arcs, rs) && i <= j <= |arcs|
    ensures ss[i] <= ss[j] && Distinct(ss[j], |ss[j]|)
    decreases j
  {
    hide Distinct, Gets;
    if j > 0 {
      RunGrows(ss, arcs, rs, if i < j then i else j - 1, j - 1);
      GetsKeeps(ss[j - 1], arcs[j - 1], ss[j], rs[j - 1]);
    }
  }

  /** Over any run, whatever the shortcuts hold and however often the table was enlarged, two lookups return the
      same arc exactly if caller, jump and callee are the same. */
  lemma SameCallSameArc(ss: seq<set<Jcc>>, arcs: seq<Arc>, rs: seq<Jcc>, i: nat, j: nat)
    requires Run(ss, arcs, rs) && i < |arcs| && j < |arcs|
    ensures rs[i].id == rs[j].id <==> arcs[i] == arcs[j]
  {
    RunGrows(ss, arcs, rs, i + 1, |arcs|);
    RunGrows(ss, arcs, rs, j + 1, |arcs|);
    assert Gets(ss[i], arcs[i], ss[i + 1], rs[i]) && Gets(ss[j], arcs[j], ss[j + 1], rs[j]);
  }
}
