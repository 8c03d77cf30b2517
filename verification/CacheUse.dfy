/**
 Callgrind's cache-use statistics (`sim.c`), which keep a slot number in the low bits of each
 tag: the slots of a set are never shared, and each records the line its entry is for.
*/
module CacheUse {
  import opened Common
  import opened CacheSim
  import opened WriteBack

  // ---------------------------------------------------------------- one set

  /** The entries of a set, most recent first, and what its slots record. */
  datatype Row = Row(entries: seq<nat>, loaded: seq<nat>)

  /** `m` is 1 << tag_shift; the low part of an entry is a slot number. */
  function High(m: nat, e: nat): nat requires m > 0 { e - e % m }

  function Slot(m: nat, e: nat): nat requires m > 0 { e % m }

  function Highs(m: nat, s: seq<nat>): (r: seq<nat>)
    requires m > 0
    ensures |r| == |s| && forall i :: 0 <= i < |s| ==> r[i] == High(m, s[i])
  {
    seq(|s|, i requires 0 <= i < |s| => High(m, s[i]))
  }

  /** A reference to a set, in `doRead` and `cacheuse_LL_access`: a line that is there keeps its slot, a new
      one takes over that of the line it replaces. */
  function Use(m: nat, row: Row, tag: nat, memline: nat): (r: (Row, bool))
    requires m > 0 && row.entries != []
    ensures |r.0.entries| == |row.entries| && |r.0.loaded| == |row.loaded|
  {
    var s := row.entries;
    var i := IndexOf(Highs(m, s), tag);
    if i < |s| then (Row(Shift(s, i, s[i]), row.loaded), false)
    else
      var slot := Slot(m, s[|s| - 1]);
      (Row(Shift(s, |s| - 1, tag + slot), if slot < |row.loaded| then row.loaded[slot := memline] else row.loaded), true)
  }

  /** Each slot number below the associativity is in use once. */
  ghost predicate SlotsOk(m: nat, s: seq<nat>)
    requires m > 0
  {
    && (forall i :: 0 <= i < |s| ==> Slot(m, s[i]) < |s|)
    && (forall i, j :: 0 <= i < j < |s| ==> Slot(m, s[i]) != Slot(m, s[j]))
  }

  /** The slot of an entry records a line of set `k` with its tag; an entry that has not been used yet has tag 0, and
      nothing is recorded for it. */
  ghost predicate RowOk(m: nat, lineSize: nat, k: nat, row: Row)
    requires m > 0 && 0 < lineSize <= m
  {
    && row.entries != [] && |row.loaded| == |row.entries| && SlotsOk(m, row.entries)
    && forall i :: 0 <= i < |row.entries| ==> Recorded(m, lineSize, k, row, i)
  }

  /** Initially the entries are just slot numbers. */
  function EmptyRow(assoc: nat): Row { Row(seq(assoc, i => i), seq(assoc, _ => 0)) }

  lemma EmptyRowOk(m: nat, lineSize: nat, k: nat, assoc: nat)
    requires 0 < assoc <= m && 0 < lineSize <= m
    ensures RowOk(m, lineSize, k, EmptyRow(assoc))
    ensures Highs(m, EmptyRow(assoc).entries) == seq(assoc, _ => 0)
  {
    var row := EmptyRow(assoc);
    forall i | 0 <= i < assoc ensures Slot(m, row.entries[i]) == i && High(m, row.entries[i]) == 0 {
      Remainder(i, m, 0, i);
    }
    hide High, Slot;
    forall i | 0 <= i < assoc ensures Recorded(m, lineSize, k, row, i) {
    }
  }

  lemma TagPlusSlot(m: nat, tag: nat, slot: nat)
    requires m > 0 && tag % m == 0 && slot < m
    ensures High(m, tag + slot) == tag && Slot(m, tag + slot) == slot
  {
    var q := tag / m;
    assert tag == m * q;
    Remainder(tag + slot, m, q, slot);
  }

  /** Apart from the slots, the set is the plain LRU one. */
  lemma UseIsLru(m: nat, row: Row, tag: nat, memline: nat)
    requires m > 0 && row.entries != [] && tag % m == 0
    ensures var (r, miss) := Use(m, row, tag, memline);
      Highs(m, r.entries) == SetRef(Highs(m, row.entries), tag).0 && miss == SetRef(Highs(m, row.entries), tag).1
  {
    var s, h := row.entries, Highs(m, row.entries);
    var i := IndexOf(h, tag);
    var e := if i < |s| then s[i] else tag + Slot(m, s[|s| - 1]);
    assert High(m, e) == tag by {
      if i == |s| {
        TagPlusSlot(m, tag, Slot(m, s[|s| - 1]));
      } else {
        assert h[i] == tag;
      }
    }
    hide High, Slot;
    var n := if i < |s| then i else |s| - 1;
    var l, r := Highs(m, Shift(s, n, e)), Shift(h, n, tag);
    forall k | 0 <= k < |s| ensures l[k] == r[k] {
      if 0 < k <= n {
        assert Shift(s, n, e)[k] == s[k - 1] && h[k - 1] == High(m, s[k - 1]);
      } else if k > n {
        assert Shift(s, n, e)[k] == s[k] && h[k] == High(m, s[k]);
      }
    }
  }

  // ---------------------------------------------------------------- slots

  /** Where the entry at `k` was before. */
  function Before(i: nat, k: nat): nat { if k == 0 then i else if k <= i then k - 1 else k }

  lemma ShiftFrom(s: seq<nat>, i: nat, x: nat, k: nat)
    requires i < |s| && k < |s|
    ensures Before(i, k) < |s| && Shift(s, i, x)[k] == if k == 0 then x else s[Before(i, k)]
    ensures forall l :: 0 <= l < |s| && l != k ==> Before(i, l) != Before(i, k)
  {
  }

  /** What an entry is after a reference. */
  lemma EntryFrom(m: nat, row: Row, tag: nat, memline: nat, j: nat)
    requires m > 0 && tag % m == 0 && j < |row.entries|
    ensures var s, r, i := row.entries, Use(m, row, tag, memline).0, IndexOf(Highs(m, row.entries), tag);
      var n := if i < |s| then i else |s| - 1;
      && Before(n, j) < |s| && Slot(m, r.entries[j]) == Slot(m, s[Before(n, j)])
      && (if j == 0 && i == |s| then High(m, r.entries[j]) == tag else r.entries[j] == s[Before(n, j)])
  {
    var s := row.entries;
    var i := IndexOf(Highs(m, s), tag);
    var n := if i < |s| then i else |s| - 1;
    TagPlusSlot(m, tag, Slot(m, s[n]));
    hide High, Slot;
    ShiftFrom(s, n, if i < |s| then s[i] else tag + Slot(m, s[n]), j);
  }

  lemma UseKeepsSlots(m: nat, row: Row, tag: nat, memline: nat)
    requires m > 0 && tag % m == 0 && row.entries != [] && SlotsOk(m, row.entries)
    ensures SlotsOk(m, Use(m, row, tag, memline).0.entries)
  {
    hide High, Slot, Use, IndexOf;
    var s, r, i := row.entries, Use(m, row, tag, memline).0, IndexOf(Highs(m, row.entries), tag);
    var n := if i < |s| then i else |s| - 1;
    forall a | 0 <= a < |s| ensures Slot(m, r.entries[a]) < |s| {
      EntryFrom(m, row, tag, memline, a);
    }
    forall a, b | 0 <= a < b < |s| ensures Slot(m, r.entries[a]) != Slot(m, r.entries[b]) {
      EntryFrom(m, row, tag, memline, a);
      EntryFrom(m, row, tag, memline, b);
      assert Before(n, a) != Before(n, b);
    }
  }

  /** The first byte of a line of set `k` whose tag is `tag`; `m` is the line size times the number of sets. */
  predicate IsLine(m: nat, lineSize: nat, k: nat, tag: nat, line: nat)
    requires m > 0 && 0 < lineSize <= m
  {
    UpperTag(m, line) == tag && line % lineSize == 0 && SetOf(lineSize, m / lineSize, line) == k
  }

  ghost predicate Recorded(m: nat, lineSize: nat, k: nat, row: Row, j: nat)
    requires m > 0 && 0 < lineSize <= m && j < |row.entries| && Slot(m, row.entries[j]) < |row.loaded|
  {
    var tag, line := High(m, row.entries[j]), row.loaded[Slot(m, row.entries[j])];
    IsLine(m, lineSize, k, tag, line) || (line == 0 && tag == 0)
  }

  lemma UseRecords(m: nat, lineSize: nat, k: nat, row: Row, tag: nat, memline: nat, j: nat)
    requires m > 0 && 0 < lineSize <= m && RowOk(m, lineSize, k, row) && tag % m == 0 && IsLine(m, lineSize, k, tag, memline)
    requires j < |row.entries| && SlotsOk(m, Use(m, row, tag, memline).0.entries)
    ensures Recorded(m, lineSize, k, Use(m, row, tag, memline).0, j)
  {
    var s, r, i := row.entries, Use(m, row, tag, memline).0, IndexOf(Highs(m, row.entries), tag);
    var n := if i < |s| then i else |s| - 1;
    EntryFrom(m, row, tag, memline, j);
    assert Recorded(m, lineSize, k, row, Before(n, j));
    hide High, Slot, IndexOf, Shift, IsLine;
    if i == |s| {
      assert Slot(m, s[n]) < |s|;
      if j > 0 {
        assert Before(n, j) < n;
        assert Slot(m, s[Before(n, j)]) != Slot(m, s[n]);
      }
    }
  }

  /** Every slot stays in range, in use once, and records the line of its entry. */
  lemma UseKeepsRow(m: nat, lineSize: nat, k: nat, row: Row, tag: nat, memline: nat)
    requires m > 0 && 0 < lineSize <= m && RowOk(m, lineSize, k, row) && tag % m == 0 && IsLine(m, lineSize, k, tag, memline)
    ensures RowOk(m, lineSize, k, Use(m, row, tag, memline).0)
  {
    hide Use, IsLine;
    UseKeepsSlots(m, row, tag, memline);
    forall j | 0 <= j < |row.entries| ensures Recorded(m, lineSize, k, Use(m, row, tag, memline).0, j) {
      UseRecords(m, lineSize, k, row, tag, memline, j);
    }
  }

  /** All slot numbers are in use: they are a permutation. */
  lemma SlotsCover(m: nat, s: seq<nat>, slot: nat) returns (i: nat)
    requires m > 0 && SlotsOk(m, s) && slot < |s|
    ensures i < |s| && Slot(m, s[i]) == slot
  {
    var used := SlotSet(m, s, |s|);
    SlotCount(m, s, |s|);
    if slot !in used {
      Subsets(used, Below(|s|) - {slot});
    }
    i :| 0 <= i < |s| && Slot(m, s[i]) == slot;
  }

  ghost function Below(n: nat): (r: set<nat>)
    ensures |r| == n && forall x: nat :: x in r <==> x < n
  {
    if n == 0 then {} else Below(n - 1) + {n - 1}
  }

  ghost function SlotSet(m: nat, s: seq<nat>, n: nat): set<nat>
    requires m > 0 && n <= |s|
  {
    set i | 0 <= i < n :: Slot(m, s[i])
  }

  lemma {:induction false} SlotCount(m: nat, s: seq<nat>, n: nat)
    requires m > 0 && SlotsOk(m, s) && n <= |s|
    ensures |SlotSet(m, s, n)| == n
  {
    hide Slot;
    if n > 0 {
      SlotCount(m, s, n - 1);
      assert SlotSet(m, s, n) == SlotSet(m, s, n - 1) + {Slot(m, s[n - 1])};
    }
  }

  lemma {:induction false} Subsets(a: set<nat>, b: set<nat>)
    requires a <= b
    ensures |a| <= |b|
  {
    if a != {} {
      var x :| x in a;
      Subsets(a - {x}, b - {x});
    }
  }

  // ---------------------------------------------------------------- a whole cache

  /** `m` is the line size times the number of sets. */
  ghost predicate CacheOk(lineSize: nat, m: nat, c: seq<Row>) {
    0 < lineSize <= m && c != [] && forall k :: 0 <= k < |c| ==> RowOk(m, lineSize, k, c[k])
  }

  /** The part of a reference that falls into the line of `a`. */
  function UseLine(lineSize: nat, m: nat, c: seq<Row>, a: nat): (r: (seq<Row>, bool))
    requires CacheOk(lineSize, m, c)
    ensures |r.0| == |c|
  {
    var k := SetOf(lineSize, |c|, a);
    var (row, miss) := Use(m, c[k], UpperTag(m, a), a - a % lineSize);
    (c[k := row], miss)
  }

  /** A tag and a set make a line, for addresses below 2^32. */
  lemma LineAddress(lineSize: nat, sets: nat, a: nat)
    requires lineSize > 0 && sets > 0 && a < UINT
    ensures lineSize * sets > 0
    ensures var m := lineSize * sets;
      UpperTag(m, a) % m == 0 && a - a % lineSize == UpperTag(m, a) + SetOf(lineSize, sets, a) * lineSize
  {
    MulOrder(lineSize, 1, sets);
    TagOfBlock(lineSize, sets, a);
    Whole(lineSize, sets, a / lineSize);
    hide UpperTag;
    Remainder(TagOf(lineSize, sets, a / lineSize), lineSize * sets, a / lineSize / sets, 0);
  }

  lemma Whole(lineSize: nat, sets: nat, b: nat)
    requires sets > 0
    ensures lineSize * b == TagOf(lineSize, sets, b) + b % sets * lineSize
    ensures TagOf(lineSize, sets, b) == lineSize * sets * (b / sets)
  {
    Distribute(lineSize, sets, b / sets, b % sets);
  }

  /** The first byte of the line of an address is one of its set, with its tag. */
  lemma IsLineOf(lineSize: nat, sets: nat, a: nat)
    requires lineSize > 0 && sets > 0 && UINT % lineSize == 0
    ensures lineSize <= lineSize * sets
    ensures var m := lineSize * sets;
      UpperTag(m, a) % m == 0 && IsLine(m, lineSize, SetOf(lineSize, sets, a), UpperTag(m, a), a - a % lineSize)
  {
    MulOrder(lineSize, 1, sets);
    Remainder(lineSize * sets, lineSize, sets, 0);
    LineStart(lineSize, a);
    TagOfStart(lineSize, lineSize * sets, a);
    hide UpperTag;
  }

  lemma LineStart(l: nat, a: nat)
    requires l > 0
    ensures a % l <= a && (a - a % l) % l == 0 && (a - a % l) / l == a / l
  {
    Remainder(a - a % l, l, a / l, 0);
  }

  lemma TagOfStart(l: nat, m: nat, a: nat)
    requires l > 0 && m > 0 && m % l == 0 && UINT % l == 0 && a % l <= a
    ensures UpperTag(m, a) % m == 0 && UpperTag(m, a - a % l) == UpperTag(m, a)
  {
    ClippedTwice(l, m, UINT, a);
  }

  lemma ClippedTwice(l: nat, m: nat, u: nat, a: nat)
    requires l > 0 && m > 0 && u > 0 && m % l == 0 && u % l == 0 && a % l <= a
    ensures var x, y := a % u, (a - a % l) % u; (x - x % m) % m == 0 && y - y % m == x - x % m
  {
    var x, y := a % u, (a - a % l) % u;
    Clipped(a, u, l);
    assert y == x - x % l;
    Clipped(x, m, l);
    Multiple(x, m);
  }

  lemma Multiple(x: nat, m: nat)
    requires m > 0
    ensures (x - x % m) % m == 0
  {
    Remainder(x - x % m, m, x / m, 0);
  }

  /** Cutting off the low part of a number does not change its multiple of `m`, but cuts off that of its remainder. */
  lemma Clipped(a: nat, m: nat, l: nat)
    requires l > 0 && m > 0 && m % l == 0
    ensures a % l == a % m % l && (a - a % l) % m == a % m - a % m % l
    ensures (a - a % l) - (a - a % l) % m == a - a % m
  {
    var t, q, x := m / l, a / m, a % m;
    var p, r := x / l, x % l;
    assert m == l * t by { DivMod(m, l); }
    assert a == m * q + x by { DivMod(a, m); }
    assert x == l * p + r by { DivMod(x, l); }
    ClippedAt(l, t, q, p, r, m, x, a);
  }

  lemma DivMod(a: nat, d: nat)
    requires d > 0
    ensures a == d * (a / d) + a % d && a % d < d
  {
  }

  lemma ClippedAt(l: nat, t: nat, q: nat, p: nat, r: nat, m: nat, x: nat, a: nat)
    requires 0 < l && r < l && x == l * p + r < m == l * t && a == m * q + x
    ensures a >= r && a % l == r && a % m == x && x % l == r && (a - r) % m == x - r && (a - r) - (a - r) % m == m * q
  {
    Regroup(l, t, q, p, r);
    Remainder(a, l, t * q + p, r);
    Remainder(x, l, p, r);
    Remainder(a, m, q, x);
    Remainder(a - r, m, q, l * p);
  }

  lemma Regroup(l: nat, t: nat, q: nat, p: nat, r: nat)
    ensures l * t * q + (l * p + r) == l * (t * q + p) + r
  {
  }

  lemma UseLineOk(lineSize: nat, m: nat, c: seq<Row>, a: nat)
    requires CacheOk(lineSize, m, c) && m == lineSize * |c| && UINT % lineSize == 0
    ensures CacheOk(lineSize, m, UseLine(lineSize, m, c, a).0)
  {
    hide Use, RowOk, UpperTag, IsLine;
    var k := SetOf(lineSize, |c|, a);
    assert k < |c|;
    hide SetOf;
    IsLineOf(lineSize, |c|, a);
    UseKeepsRow(m, lineSize, k, c[k], UpperTag(m, a), a - a % lineSize);
  }

  /** `doRead`: the line of the first byte, and that of the last one if its set is the next. */
  ghost function Read(lineSize: nat, m: nat, c: seq<Row>, a: nat, size: nat): seq<Row>
    requires CacheOk(lineSize, m, c) && m == lineSize * |c| && size > 0 && UINT % lineSize == 0
  {
    var last := a + size - 1;
    var k1, k2 := SetOf(lineSize, |c|, a), SetOf(lineSize, |c|, last);
    if k1 == k2 then UseLine(lineSize, m, c, a).0
    else if (k1 + 1) % |c| == k2 then
      UseLineOk(lineSize, m, c, a);
      UseLine(lineSize, m, UseLine(lineSize, m, c, a).0, last).0
    else c
  }

  lemma ReadOk(lineSize: nat, m: nat, c: seq<Row>, a: nat, size: nat)
    requires CacheOk(lineSize, m, c) && m == lineSize * |c| && size > 0 && UINT % lineSize == 0
    ensures CacheOk(lineSize, m, Read(lineSize, m, c, a, size)) && |Read(lineSize, m, c, a, size)| == |c|
  {
    UseLineOk(lineSize, m, c, a);
    hide UseLine, SetOf;
    UseLineOk(lineSize, m, UseLine(lineSize, m, c, a).0, a + size - 1);
    if SetOf(lineSize, |c|, a) == SetOf(lineSize, |c|, a + size - 1) {
      UseLineOk(lineSize, m, c, a);
    }
  }

  /** A state after some references, from a cleared cache on. */
  ghost predicate Reached(lineSize: nat, m: nat, sets: nat, assoc: nat, trace: seq<(nat, nat)>, c: seq<Row>)
    requires lineSize > 0 && UINT % lineSize == 0
    decreases |trace|
  {
    if trace == [] then c == seq(sets, _ => EmptyRow(assoc))
    else
      var (a, size) := Last(trace);
      && size > 0
      && exists d :: CacheOk(lineSize, m, d) && m == lineSize * |d|
                  && Reached(lineSize, m, sets, assoc, Front(trace), d) && c == Read(lineSize, m, d, a, size)
  }

  /** In every state reached, the slots of each set are a permutation of 0 to assoc - 1, and each slot records
      the line of its entry. */
  lemma {:induction false} EveryState(lineSize: nat, m: nat, sets: nat, assoc: nat, trace: seq<(nat, nat)>, c: seq<Row>)
    requires lineSize > 0 && UINT % lineSize == 0 && sets > 0 && 0 < assoc <= m && m == lineSize * sets
    requires Reached(lineSize, m, sets, assoc, trace, c)
    ensures CacheOk(lineSize, m, c) && |c| == sets
    decreases |trace|
  {
    if trace == [] {
      forall k | 0 <= k < sets ensures RowOk(m, lineSize, k, c[k]) {
        EmptyRowOk(m, lineSize, k, assoc);
      }
    } else {
      hide CacheOk, Read;
      var (a, size) := Last(trace);
      var d :| CacheOk(lineSize, m, d) && m == lineSize * |d|
        && Reached(lineSize, m, sets, assoc, Front(trace), d) && c == Read(lineSize, m, d, a, size);
      EveryState(lineSize, m, sets, assoc, Front(trace), d);
      ReadOk(lineSize, m, d, a, size);
    }
  }

  /** The index of a slot in the arrays of the whole cache belongs to one set and one slot. */
  lemma IndexUnique(assoc: nat, k: nat, slot: nat, k2: nat, slot2: nat)
    requires slot < assoc && slot2 < assoc && k * assoc + slot == k2 * assoc + slot2
    ensures k == k2 && slot == slot2
  {
    Remainder(assoc * k + slot, assoc, k, slot);
    Remainder(assoc * k2 + slot2, assoc, k2, slot2);
  }
}
