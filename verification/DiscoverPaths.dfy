/**
 The paths through a function that the leak detector looks at (`LeakDetector.cpp`): all walks
 along branches from the entry to a block without one, in which no block occurs more than
 three times.  Any control flow graph, cyclic or not, has only so many.
*/
module DiscoverPaths {
  import opened Common

  datatype Instruction = Branch(successors: seq<nat>) | Other

  /** The blocks of a function, by number. */
  type Cfg = seq<seq<Instruction>>

  ghost predicate Closed(cfg: Cfg) {
    forall b, i, j :: 0 <= b < |cfg| && 0 <= i < |cfg[b]| && cfg[b][i].Branch? && 0 <= j < |cfg[b][i].successors| ==>
      cfg[b][i].successors[j] < |cfg|
  }

  /** The successors that the first branch of a block has. */
  function FirstBranch(block: seq<Instruction>): Option<seq<nat>> {
    if block == [] then None
    else if block[0].Branch? then Some(block[0].successors)
    else FirstBranch(block[1..])
  }

  lemma {:induction false} FirstBranchIn(block: seq<Instruction>)
    requires FirstBranch(block).Some?
    ensures Branch(FirstBranch(block).value) in block
  {
    if !block[0].Branch? {
      FirstBranchIn(block[1..]);
    }
  }

  /** Instructions after the first branch do not matter. */
  lemma {:induction false} FirstBranchIs(before: seq<Instruction>, succs: seq<nat>, after: seq<Instruction>)
    requires forall i :: 0 <= i < |before| ==> before[i].Other?
    ensures FirstBranch(before + [Branch(succs)] + after) == Some(succs) && FirstBranch(before) == None
  {
    if before != [] {
      assert (before + [Branch(succs)] + after)[1..] == before[1..] + [Branch(succs)] + after;
      FirstBranchIs(before[1..], succs, after);
    }
  }

  ghost predicate InRange(cfg: Cfg, succs: seq<nat>) { forall j :: 0 <= j < |succs| ==> succs[j] < |cfg| }

  lemma SuccessorsInRange(cfg: Cfg, b: nat)
    requires Closed(cfg) && b < |cfg| && FirstBranch(cfg[b]).Some?
    ensures InRange(cfg, FirstBranch(cfg[b]).value)
  {
    FirstBranchIn(cfg[b]);
  }

  function Count(path: seq<nat>, b: nat): nat { multiset(path)[b] }

  // ---------------------------------------------------------------- why it ends

  /** How often blocks may still be visited. */
  function Room(path: seq<nat>, n: nat): nat {
    if n == 0 then 0 else Room(path, n - 1) + (if Count(path, n - 1) < 3 then 3 - Count(path, n - 1) else 0)
  }

  lemma {:induction false} RoomPush(path: seq<nat>, b: nat, n: nat)
    requires Count(path, b) <= 2
    ensures Room(path + [b], n) == Room(path, n) - (if b < n then 1 else 0)
  {
    if n > 0 {
      RoomPush(path, b, n - 1);
    }
  }

  // ---------------------------------------------------------------- the walks, in the order in which they are found

  /** A path and the successor indices that lead along it. */
  datatype Walk = Walk(turns: seq<nat>, path: seq<nat>)

  function Turned(j: nat, ws: seq<Walk>): seq<Walk> {
    seq(|ws|, i requires 0 <= i < |ws| => Walk([j] + ws[i].turns, ws[i].path))
  }

  ghost function Walks(cfg: Cfg, path: seq<nat>, b: nat): seq<Walk>
    requires Closed(cfg) && b < |cfg|
    decreases Room(path, |cfg|), 0
  {
    if Count(path, b) > 2 then []
    else
      RoomPush(path, b, |cfg|);
      match FirstBranch(cfg[b])
      case None => [Walk([], path + [b])]
      case Some(succs) =>
        SuccessorsInRange(cfg, b);
        WalksVia(cfg, path + [b], succs, |succs|)
  }

  /** Those through the first `j` successors. */
  ghost function WalksVia(cfg: Cfg, path: seq<nat>, succs: seq<nat>, j: nat): seq<Walk>
    requires Closed(cfg) && InRange(cfg, succs) && j <= |succs|
    decreases Room(path, |cfg|), j
  {
    if j == 0 then [] else WalksVia(cfg, path, succs, j - 1) + Turned(j - 1, Walks(cfg, path, succs[j - 1]))
  }

  ghost function PathsOf(ws: seq<Walk>): seq<seq<nat>> { seq(|ws|, i requires 0 <= i < |ws| => ws[i].path) }

  class LeakDetector {
    var paths: seq<seq<nat>>

    constructor ()
      ensures paths == []
    {
      paths := [];
    }

    method DiscoverPaths(cfg: Cfg, path0: seq<nat>, b: nat)
      requires Closed(cfg) && b < |cfg|
      modifies this
      ensures paths == old(paths) + PathsOf(Walks(cfg, path0, b))
      decreases Room(path0, |cfg|), 0
    {
      if Count(path0, b) > 2 {
        return;
      }
      RoomPush(path0, b, |cfg|);
      var path := path0 + [b];
      var i := 0;
      while i < |cfg[b]|
        invariant i <= |cfg[b]| && paths == old(paths) && FirstBranch(cfg[b]) == FirstBranch(cfg[b][i..])
      {
        if cfg[b][i].Branch? {
          Follow(cfg, path, cfg[b][i].successors);
          return;
        }
        i := i + 1;
      }
      paths := paths + [path];
    }

    /** The loop over the successors of a branch. */
    method Follow(cfg: Cfg, path: seq<nat>, succs: seq<nat>)
      requires Closed(cfg) && InRange(cfg, succs)
      modifies this
      ensures paths == old(paths) + PathsOf(WalksVia(cfg, path, succs, |succs|))
      decreases Room(path, |cfg|), 1
    {
      var j := 0;
      while j < |succs|
        invariant j <= |succs| && paths == old(paths) + PathsOf(WalksVia(cfg, path, succs, j))
      {
        DiscoverPaths(cfg, path, succs[j]);
        j := j + 1;
      }
    }
  }

  // ---------------------------------------------------------------- which walks these are

  ghost predicate Bounded(path: seq<nat>) { forall b :: Count(path, b) <= 3 }

  ghost predicate TurnOk(cfg: Cfg, from: nat, turn: nat, to: nat) {
    from < |cfg| && FirstBranch(cfg[from]).Some? && turn < |FirstBranch(cfg[from]).value| && FirstBranch(cfg[from]).value[turn] == to
  }

  /** A walk that goes on from `path` with block `b`: every turn is one that a branch offers, the last block has no
      branch, and no block occurs more than three times. */
  ghost predicate IsWalk(cfg: Cfg, path: seq<nat>, b: nat, w: Walk) {
    var n := |path|;
    && |w.path| == n + |w.turns| + 1 && path <= w.path && w.path[n] == b
    && (forall i :: 0 <= i < |w.turns| ==> TurnOk(cfg, w.path[n + i], w.turns[i], w.path[n + i + 1]))
    && Ends(cfg, w.path[|w.path| - 1])
    && Bounded(w.path)
  }

  ghost predicate Ends(cfg: Cfg, b: nat) { b < |cfg| && FirstBranch(cfg[b]).None? }

  lemma CountPush(path: seq<nat>, b: nat, c: nat)
    ensures Count(path + [b], c) == Count(path, c) + (if b == c then 1 else 0)
  {
  }

  lemma CountPrefix(p: seq<nat>, q: seq<nat>, b: nat)
    requires p <= q
    ensures Count(p, b) <= Count(q, b)
  {
    assert q == p + q[|p|..];
  }

  lemma BoundedPush(path: seq<nat>, b: nat)
    requires Bounded(path) && Count(path, b) <= 2
    ensures Bounded(path + [b])
  {
    forall c ensures Count(path + [b], c) <= 3 {
      CountPush(path, b, c);
    }
  }

  function Rest(w: Walk): Walk
    requires w.turns != []
  {
    Walk(w.turns[1..], w.path)
  }

  /** The first step of a walk. */
  ghost predicate Begins(cfg: Cfg, path: seq<nat>, b: nat, w: Walk)
    requires b < |cfg|
  {
    && Count(path, b) <= 2
    && (match FirstBranch(cfg[b])
        case None => w == Walk([], path + [b])
        case Some(succs) => w.turns != [] && w.turns[0] < |succs| && IsWalk(cfg, path + [b], succs[w.turns[0]], Rest(w)))
  }

  lemma WalkBegins(cfg: Cfg, path: seq<nat>, b: nat, w: Walk)
    requires b < |cfg| && IsWalk(cfg, path, b, w)
    ensures Begins(cfg, path, b, w)
  {
    hide FirstBranch, Count;
    var n := |path|;
    var p := path + [b];
    assert p <= w.path by {
      assert w.path[..n + 1] == p;
    }
    CountPrefix(p, w.path, b);
    CountPush(path, b, b);
    if w.turns == [] {
      assert w.path == p;
    } else {
      assert TurnOk(cfg, w.path[n + 0], w.turns[0], w.path[n + 0 + 1]);
      forall i | 0 <= i < |w.turns| - 1 ensures TurnOk(cfg, w.path[n + 1 + i], w.turns[1..][i], w.path[n + 1 + i + 1]) {
        assert TurnOk(cfg, w.path[n + (i + 1)], w.turns[i + 1], w.path[n + (i + 1) + 1]);
      }
    }
  }

  lemma BeginsWalk(cfg: Cfg, path: seq<nat>, b: nat, w: Walk)
    requires b < |cfg| && Bounded(path) && Begins(cfg, path, b, w)
    ensures IsWalk(cfg, path, b, w)
  {
    hide FirstBranch, Count, Bounded;
    var n := |path|;
    var p := path + [b];
    BoundedPush(path, b);
    if w.turns != [] {
      assert p <= w.path;
      assert w.path[n] == p[n] && w.path[..n] == p[..n];
      forall i | 0 <= i < |w.turns| ensures TurnOk(cfg, w.path[n + i], w.turns[i], w.path[n + i + 1]) {
        if i > 0 {
          assert TurnOk(cfg, w.path[n + 1 + (i - 1)], w.turns[1..][i - 1], w.path[n + 1 + (i - 1) + 1]);
        }
      }
    }
  }

  lemma InTurned(j: nat, ws: seq<Walk>, w: Walk)
    ensures w in Turned(j, ws) <==> w.turns != [] && w.turns[0] == j && Rest(w) in ws
  {
    if w in Turned(j, ws) {
      var i :| 0 <= i < |ws| && Turned(j, ws)[i] == w;
      assert Rest(w) == ws[i];
    }
    if w.turns != [] && w.turns[0] == j && Rest(w) in ws {
      var i :| 0 <= i < |ws| && ws[i] == Rest(w);
      assert w.turns == [j] + w.turns[1..];
      assert Turned(j, ws)[i] == w;
    }
  }

  /** Exactly the walks are found. */
  lemma {:induction false} WalksExact(cfg: Cfg, path: seq<nat>, b: nat, w: Walk)
    requires Closed(cfg) && b < |cfg| && Bounded(path)
    ensures w in Walks(cfg, path, b) <==> IsWalk(cfg, path, b, w)
    decreases Room(path, |cfg|), 0
  {
    hide IsWalk, Closed, InRange, Bounded, Count;
    if IsWalk(cfg, path, b, w) {
      WalkBegins(cfg, path, b, w);
    }
    if Count(path, b) <= 2 {
      RoomPush(path, b, |cfg|);
      BoundedPush(path, b);
      match FirstBranch(cfg[b]) {
        case None =>
        case Some(succs) =>
          SuccessorsInRange(cfg, b);
          ViaExact(cfg, path + [b], succs, |succs|, w);
      }
      if Begins(cfg, path, b, w) {
        BeginsWalk(cfg, path, b, w);
      }
    }
  }

  lemma {:induction false} ViaExact(cfg: Cfg, path: seq<nat>, succs: seq<nat>, j: nat, w: Walk)
    requires Closed(cfg) && InRange(cfg, succs) && j <= |succs| && Bounded(path)
    ensures w in WalksVia(cfg, path, succs, j) <==>
      w.turns != [] && w.turns[0] < j && IsWalk(cfg, path, succs[w.turns[0]], Rest(w))
    decreases Room(path, |cfg|), j
  {
    hide IsWalk, Closed, Bounded, Turned;
    if j > 0 {
      ViaExact(cfg, path, succs, j - 1, w);
      InTurned(j - 1, Walks(cfg, path, succs[j - 1]), w);
      if w.turns != [] {
        WalksExact(cfg, path, succs[j - 1], Rest(w));
      }
    }
  }

  ghost predicate Distinct(ws: seq<Walk>) { forall i, k :: 0 <= i < k < |ws| ==> ws[i].turns != ws[k].turns }

  /** At the first branch where the turns differ, `a` takes the earlier successor. */
  ghost predicate Earlier(a: seq<nat>, b: seq<nat>) {
    exists k: nat :: k < |a| && k < |b| && a[..k] == b[..k] && a[k] < b[k]
  }

  ghost predicate InTurn(ws: seq<Walk>) { forall i, k :: 0 <= i < k < |ws| ==> Earlier(ws[i].turns, ws[k].turns) }

  /** Walks are found in the order of their turns. */
  lemma {:induction false} WalksInTurn(cfg: Cfg, path: seq<nat>, b: nat)
    requires Closed(cfg) && b < |cfg|
    ensures InTurn(Walks(cfg, path, b))
    decreases Room(path, |cfg|), 0
  {
    if Count(path, b) <= 2 && FirstBranch(cfg[b]).Some? {
      RoomPush(path, b, |cfg|);
      SuccessorsInRange(cfg, b);
      ViaInTurn(cfg, path + [b], FirstBranch(cfg[b]).value, |FirstBranch(cfg[b]).value|);
    }
  }

  lemma {:induction false} ViaInTurn(cfg: Cfg, path: seq<nat>, succs: seq<nat>, j: nat)
    requires Closed(cfg) && InRange(cfg, succs) && j <= |succs|
    ensures InTurn(WalksVia(cfg, path, succs, j))
    ensures forall w :: w in WalksVia(cfg, path, succs, j) ==> w.turns != [] && w.turns[0] < j
    decreases Room(path, |cfg|), j
  {
    hide Closed, Room, InTurn, Walks, Turned;
    NoneInTurn();
    if j > 0 {
      ViaInTurn(cfg, path, succs, j - 1);
      WalksInTurn(cfg, path, succs[j - 1]);
      TurnedInTurn(WalksVia(cfg, path, succs, j - 1), j - 1, Walks(cfg, path, succs[j - 1]));
    }
  }

  lemma NoneInTurn()
    ensures InTurn([])
  {
  }

  lemma FirstTurn(a: seq<nat>, b: seq<nat>)
    requires a != [] && b != [] && (a[0] < b[0] || (a[0] == b[0] && Earlier(a[1..], b[1..])))
    ensures Earlier(a, b)
  {
    if a[0] < b[0] {
      assert a[..0] == b[..0];
    } else {
      var k: nat :| k < |a[1..]| && k < |b[1..]| && a[1..][..k] == b[1..][..k] && a[1..][k] < b[1..][k];
      var n := k + 1;
      assert a[..n] == [a[0]] + a[1..][..k] && b[..n] == [b[0]] + b[1..][..k];
      assert a[n] < b[n];
    }
  }

  lemma TurnedInTurn(vs: seq<Walk>, j: nat, ws: seq<Walk>)
    requires InTurn(vs) && InTurn(ws) && forall w :: w in vs ==> w.turns != [] && w.turns[0] < j
    ensures InTurn(vs + Turned(j, ws))
    ensures forall w :: w in vs + Turned(j, ws) ==> w.turns != [] && w.turns[0] < j + 1
  {
    hide Earlier;
    var all := vs + Turned(j, ws);
    forall i, k | 0 <= i < k < |all| ensures Earlier(all[i].turns, all[k].turns) {
      if k < |vs| {
        assert all[i] == vs[i] && all[k] == vs[k];
      } else {
        assert all[k].turns[0] == j && all[k].turns[1..] == ws[k - |vs|].turns;
        if i < |vs| {
          assert vs[i] in vs;
        } else {
          assert all[i].turns[0] == j && all[i].turns[1..] == ws[i - |vs|].turns;
        }
        FirstTurn(all[i].turns, all[k].turns);
      }
    }
  }

  /** No walk is found twice, even if two of a branch's successors are the same block. */
  lemma WalksDistinct(cfg: Cfg, path: seq<nat>, b: nat)
    requires Closed(cfg) && b < |cfg|
    ensures Distinct(Walks(cfg, path, b))
  {
    hide Closed, Walks;
    WalksInTurn(cfg, path, b);
  }

  /** From the entry of any function, what is appended to `paths` are exactly the walks from there to a block without
      a branch in which no block occurs more than three times, one for each way to choose successors, in the order of the choices. */
  lemma AllWalksOnce(cfg: Cfg, entry: nat, w: Walk)
    requires Closed(cfg) && entry < |cfg|
    ensures IsWalk(cfg, [], entry, w) <==> w in Walks(cfg, [], entry)
    ensures Distinct(Walks(cfg, [], entry)) && InTurn(Walks(cfg, [], entry))
  {
    WalksExact(cfg, [], entry, w);
    WalksDistinct(cfg, [], entry);
    WalksInTurn(cfg, [], entry);
  }
}
