/**
 A table of hash chains, as Valgrind's and Callgrind's own tables are built: new entries go
 to the front of a chain, and a table is enlarged by moving every entry over.
*/
module HashChains {
  ghost predicate NoDup<T>(s: seq<T>) {
    forall i, j :: 0 <= i < j < |s| ==> s[i] != s[j]
  }

  ghost function Elements<T>(s: seq<T>): set<T> { set e | e in s }

  /** The chains of `t` hold the entries `all`, each once, and each in the chain that its hash says. */
  ghost predicate Rep<T(!new)>(t: seq<seq<T>>, all: set<T>, h: T -> nat) {
    |t| > 0 && forall k :: 0 <= k < |t| ==> ChainOk(t[k], all, h, |t|, k)
  }

  ghost predicate ChainOk<T(!new)>(chain: seq<T>, all: set<T>, h: T -> nat, size: nat, k: nat)
    requires size > 0
  {
    NoDup(chain) && forall e :: e in chain <==> e in all && h(e) % size == k
  }

  lemma Prepend<T(!new)>(t: seq<seq<T>>, all: set<T>, h: T -> nat, e: T)
    requires Rep(t, all, h) && e !in all
    ensures var k := h(e) % |t|; Rep(t[k := [e] + t[k]], all + {e}, h)
  {
    var k := h(e) % |t|;
    var t' := t[k := [e] + t[k]];
    forall g | 0 <= g < |t| ensures ChainOk(t'[g], all + {e}, h, |t|, g) {
      assert ChainOk(t[g], all, h, |t|, g);
    }
  }

  /** Moving an entry one step towards the front of its chain. */
  function StepUp<T>(chain: seq<T>, i: nat): seq<T>
    requires 0 < i < |chain|
  {
    chain[i := chain[i - 1]][i - 1 := chain[i]]
  }

  lemma StepUpOk<T(!new)>(t: seq<seq<T>>, all: set<T>, h: T -> nat, k: nat, i: nat)
    requires Rep(t, all, h) && k < |t| && 0 < i < |t[k]|
    ensures Rep(t[k := StepUp(t[k], i)], all, h)
  {
    var c, c' := t[k], StepUp(t[k], i);
    assert ChainOk(c, all, h, |t|, k);
    assert c'[i] == c[i - 1] && c'[i - 1] == c[i];
    forall e ensures e in c' <==> e in c {
      if e in c {
        var j :| 0 <= j < |c| && c[j] == e;
        assert c'[if j == i then i - 1 else if j == i - 1 then i else j] == e;
      }
    }
  }

  /** Enlarges a table: every entry is moved to the front of its new chain. */
  method Rehash<T(!new)>(t: seq<seq<T>>, size: nat, h: T -> nat, ghost all: set<T>) returns (r: seq<seq<T>>)
    requires Rep(t, all, h) && size > 0
    ensures Rep(r, all, h) && |r| == size
  {
    r := seq(size, _ => []);
    ghost var moved: set<T> := {};
    var i := 0;
    while i < |t|
      invariant i <= |t| && |r| == size && Rep(r, moved, h)
      invariant forall e :: e in moved <==> e in all && h(e) % |t| < i
    {
      r := MoveChain(t[i], r, h, moved);
      ghost var now := moved + Elements(t[i]);
      assert ChainOk(t[i], all, h, |t|, i);
      moved := now;
      i := i + 1;
    }
    assert moved == all;
  }

  method MoveChain<T(!new)>(chain: seq<T>, t: seq<seq<T>>, h: T -> nat, ghost moved: set<T>) returns (r: seq<seq<T>>)
    requires Rep(t, moved, h) && NoDup(chain) && forall e :: e in chain ==> e !in moved
    ensures |r| == |t| && Rep(r, moved + Elements(chain), h)
  {
    r := t;
    var cur := 0;
    ghost var now := moved;
    while cur < |chain|
      invariant cur <= |chain| && |r| == |t| && Rep(r, now, h)
      invariant now == moved + Elements(chain[..cur])
    {
      var e := chain[cur];
      assert e !in chain[..cur];
      Prepend(r, now, h, e);
      r := r[h(e) % |r| := [e] + r[h(e) % |r|]];
      assert chain[..cur + 1] == chain[..cur] + [e];
      now := now + {e};
      cur := cur + 1;
    }
    assert chain[..cur] == chain;
  }
}
