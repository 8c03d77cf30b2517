/**
 What the counters of Cachegrind count.  The accesses of a run go to a first-level cache, of instructions or of data;
 those that miss there go to the last-level cache.  For every source line and every kind of access the three counters
 grow by the accesses, by those that miss the first level, and by those that miss both.
*/
module CacheCounts {
  import opened Common
  import opened CacheSim
  import opened InstrumentModel

  datatype Kind = Fetch | Read | Write

  datatype Access = Access(kind: Kind, line: nat, addr: nat, size: nat)

  /** The access that an action makes, if any: the guard may not hold.  Sizes of data are passed on in one byte. */
  function AccessOf(info: seq<InstrInfo>, env: Env, a: Action): seq<Access>
    requires a.n < |info|
  {
    var at := info[a.n].addr;
    match a
    case AIr(_) => [Access(Fetch, env.Line(at), at, info[a.n].len)]
    case ARead(_, ea, sz, g) => if g.Some? && env.Val(g.value) == 0 then [] else [Access(Read, env.Line(at), env.Val(ea), sz % 256)]
    case AWrite(_, ea, sz, g) => if g.Some? && env.Val(g.value) == 0 then [] else [Access(Write, env.Line(at), env.Val(ea), sz % 256)]
    case ACond(_, _, _) => []
    case AInd(_, _) => []
  }

  function Accesses(info: seq<InstrInfo>, env: Env, acts: seq<Action>): seq<Access>
    requires ActionsIn(acts, |info|)
  {
    if acts == [] then [] else Accesses(info, env, Front(acts)) + AccessOf(info, env, Last(acts))
  }

  /** The addresses that reach one of the first-level caches. */
  function Addresses(xs: seq<Access>, fetches: bool): Trace {
    if xs == [] then []
    else Addresses(Front(xs), fetches) + if Last(xs).kind.Fetch? == fetches then [(Last(xs).addr, Last(xs).size)] else []
  }

  /** An access after others misses its first-level cache, ... */
  predicate MissesFirst(s: Sim, m: Machine, before: seq<Access>, x: Access)
    requires s.Ok() && m.Ok()
  {
    if x.kind.Fetch? then CacheRef(s.lineI1, CacheAfter(s.lineI1, m.i1, Addresses(before, true)), x.addr, x.size).1
    else CacheRef(s.lineD1, CacheAfter(s.lineD1, m.d1, Addresses(before, false)), x.addr, x.size).1
  }

  /** The addresses that reach the last-level cache. */
  function ToLast(s: Sim, m: Machine, xs: seq<Access>): Trace
    requires s.Ok() && m.Ok()
  {
    if xs == [] then []
    else ToLast(s, m, Front(xs)) + if MissesFirst(s, m, Front(xs), Last(xs)) then [(Last(xs).addr, Last(xs).size)] else []
  }

  /** ... and the last-level cache too. */
  predicate MissesBoth(s: Sim, m: Machine, before: seq<Access>, x: Access)
    requires s.Ok() && m.Ok()
  {
    MissesFirst(s, m, before, x) && CacheRef(s.lineLL, CacheAfter(s.lineLL, m.ll, ToLast(s, m, before)), x.addr, x.size).1
  }

  /** Accesses of a kind from a line. */
  function Number(xs: seq<Access>, k: Kind, line: nat): nat {
    if xs == [] then 0 else Number(Front(xs), k, line) + if Last(xs).kind == k && Last(xs).line == line then 1 else 0
  }

  function FirstMisses(s: Sim, m: Machine, xs: seq<Access>, k: Kind, line: nat): nat
    requires s.Ok() && m.Ok()
  {
    if xs == [] then 0
    else FirstMisses(s, m, Front(xs), k, line)
         + if Last(xs).kind == k && Last(xs).line == line && MissesFirst(s, m, Front(xs), Last(xs)) then 1 else 0
  }

  function LastMisses(s: Sim, m: Machine, xs: seq<Access>, k: Kind, line: nat): nat
    requires s.Ok() && m.Ok()
  {
    if xs == [] then 0
    else LastMisses(s, m, Front(xs), k, line)
         + if Last(xs).kind == k && Last(xs).line == line && MissesBoth(s, m, Front(xs), Last(xs)) then 1 else 0
  }

  /** The counters of a line. */
  function Counter(m: Machine, k: Kind, line: nat): CacheCC {
    var table := match k case Fetch => m.ir case Read => m.dr case Write => m.dw;
    if line in table then table[line] else CacheCC(0, 0, 0)
  }

  /** Caches and counters are those that `xs` leads to from `m`. */
  ghost predicate Counted(s: Sim, m: Machine, xs: seq<Access>, m': Machine)
    requires s.Ok() && m.Ok()
  {
    && CachesAfter(s, m, xs, m')
    && forall k, line :: CounterIs(s, m, xs, k, line, Counter(m', k, line))
  }

  predicate CachesAfter(s: Sim, m: Machine, xs: seq<Access>, m': Machine)
    requires s.Ok() && m.Ok()
  {
    && m'.i1 == CacheAfter(s.lineI1, m.i1, Addresses(xs, true))
    && m'.d1 == CacheAfter(s.lineD1, m.d1, Addresses(xs, false))
    && m'.ll == CacheAfter(s.lineLL, m.ll, ToLast(s, m, xs))
  }

  predicate CounterIs(s: Sim, m: Machine, xs: seq<Access>, k: Kind, line: nat, c: CacheCC)
    requires s.Ok() && m.Ok()
  {
    && c.a == Counter(m, k, line).a + Number(xs, k, line)
    && c.m1 == Counter(m, k, line).m1 + FirstMisses(s, m, xs, k, line)
    && c.mL == Counter(m, k, line).mL + LastMisses(s, m, xs, k, line)
  }

  // ---------------------------------------------------------------- one access

  lemma AfterOne(lineSize: nat, c: Tags, t: Trace, a: nat, size: nat)
    requires Shaped(c) && lineSize > 0
    ensures CacheAfter(lineSize, c, t + [(a, size)]) == CacheRef(lineSize, CacheAfter(lineSize, c, t), a, size).0
  {
    var u := t + [(a, size)];
    assert u[..|u| - 1] == t;
  }

  /** Both levels after one more access. */
  lemma CachesStep(s: Sim, m: Machine, xs: seq<Access>, x: Access)
    requires s.Ok() && m.Ok()
    ensures var ys, at := xs + [x], (x.addr, x.size);
      && Addresses(ys, true) == Addresses(xs, true) + (if x.kind.Fetch? then [at] else [])
      && Addresses(ys, false) == Addresses(xs, false) + (if x.kind.Fetch? then [] else [at])
      && ToLast(s, m, ys) == ToLast(s, m, xs) + if MissesFirst(s, m, xs, x) then [at] else []
  {
    hide CacheRef, CacheAfter;
    assert Front(xs + [x]) == xs && Last(xs + [x]) == x;
  }

  lemma NumbersStep(s: Sim, m: Machine, xs: seq<Access>, x: Access, k: Kind, line: nat)
    requires s.Ok() && m.Ok()
    ensures var ys, here := xs + [x], x.kind == k && x.line == line;
      && Number(ys, k, line) == Number(xs, k, line) + (if here then 1 else 0)
      && FirstMisses(s, m, ys, k, line) == FirstMisses(s, m, xs, k, line) + (if here && MissesFirst(s, m, xs, x) then 1 else 0)
      && LastMisses(s, m, ys, k, line) == LastMisses(s, m, xs, k, line) + (if here && MissesBoth(s, m, xs, x) then 1 else 0)
  {
    hide MissesFirst, MissesBoth;
    assert Front(xs + [x]) == xs && Last(xs + [x]) == x;
  }

  /** What an action with an access does to the machine. */
  function AccessRun(s: Sim, env: Env, m: Machine, ii: InstrInfo, x: Access): (m': Machine)
    requires s.Ok() && m.Ok()
    ensures m'.Ok()
  {
    match x.kind
    case Fetch => FetchGen(s, env, m, ii)
    case Read => DataRead(s, env, m, ii, x.addr, x.size)
    case Write => DataWrite(s, env, m, ii, x.addr, x.size)
  }

  lemma OneAccess(s: Sim, info: seq<InstrInfo>, env: Env, m: Machine, a: Action)
    requires s.Ok() && m.Ok() && a.n < |info| && s.cacheSim && AccessOf(info, env, a) != []
    ensures |AccessOf(info, env, a)| == 1
    ensures var x := AccessOf(info, env, a)[0];
      && AccessFits(env, info[a.n], x) && RunAction(s, info, env, m, a) == AccessRun(s, env, m, info[a.n], x)
  {
    hide FetchGen, DataRead, DataWrite;
    if !a.AIr? {
      SameNarrow(s, env, m, info[a.n], env.Val(a.ea), a.szB);
    }
  }

  /** Cutting a size down twice is cutting it down once. */
  lemma SameNarrow(s: Sim, env: Env, m: Machine, ii: InstrInfo, ea: nat, sz: nat)
    requires s.Ok() && m.Ok()
    ensures DataRead(s, env, m, ii, ea, sz) == DataRead(s, env, m, ii, ea, sz % 256)
    ensures DataWrite(s, env, m, ii, ea, sz) == DataWrite(s, env, m, ii, ea, sz % 256)
  {
    hide RefGen, Bump, Cost;
    Twice(sz);
  }

  lemma Twice(sz: nat)
    ensures Narrow(sz) == Narrow(sz % 256)
  {
  }

  predicate AccessFits(env: Env, ii: InstrInfo, x: Access) {
    x.line == env.Line(ii.addr) && if x.kind.Fetch? then x.addr == ii.addr && x.size == ii.len else x.size < 256
  }

  /** What an access through cache `c` adds to the counters of its line. */
  function Delta(miss1: bool, missL: bool): CacheCC {
    CacheCC(1, if miss1 then 1 else 0, if miss1 && missL then 1 else 0)
  }

  lemma BothLevels(line1: nat, lineL: nat, l1: Tags, ll: Tags, a: nat, size: nat)
    requires Shaped(l1) && Shaped(ll) && line1 > 0 && lineL > 0
    ensures var f, l, r := CacheRef(line1, l1, a, size), CacheRef(lineL, ll, a, size), RefGen(line1, lineL, l1, ll, a, size);
      r.l1 == f.0 && r.ll == (if f.1 then l.0 else ll) && Cost(r) == Delta(f.1, l.1)
  {
    hide CacheRef;
  }

  /** Both levels, and what is added to the counters of the line. */
  lemma FetchParts(s: Sim, env: Env, m: Machine, ii: InstrInfo)
    requires s.Ok() && m.Ok()
    ensures var f, l := CacheRef(s.lineI1, m.i1, ii.addr, ii.len), CacheRef(s.lineLL, m.ll, ii.addr, ii.len);
      FetchGen(s, env, m, ii)
        == m.(i1 := f.0, ll := if f.1 then l.0 else m.ll, ir := Bump(m.ir, env.Line(ii.addr), Delta(f.1, l.1)))
  {
    BothLevels(s.lineI1, s.lineLL, m.i1, m.ll, ii.addr, ii.len);
    hide RefGen, CacheRef, Bump, Cost, Delta;
  }

  lemma ReadParts(s: Sim, env: Env, m: Machine, ii: InstrInfo, a: nat, size: nat)
    requires s.Ok() && m.Ok() && Narrow(size) == size
    ensures var f, l := CacheRef(s.lineD1, m.d1, a, size), CacheRef(s.lineLL, m.ll, a, size);
      DataRead(s, env, m, ii, a, size)
        == m.(d1 := f.0, ll := if f.1 then l.0 else m.ll, dr := Bump(m.dr, env.Line(ii.addr), Delta(f.1, l.1)))
  {
    BothLevels(s.lineD1, s.lineLL, m.d1, m.ll, a, size);
    hide RefGen, CacheRef, Bump, Cost, Delta, Narrow;
  }

  lemma WriteParts(s: Sim, env: Env, m: Machine, ii: InstrInfo, a: nat, size: nat)
    requires s.Ok() && m.Ok() && Narrow(size) == size
    ensures var f, l := CacheRef(s.lineD1, m.d1, a, size), CacheRef(s.lineLL, m.ll, a, size);
      DataWrite(s, env, m, ii, a, size)
        == m.(d1 := f.0, ll := if f.1 then l.0 else m.ll, dw := Bump(m.dw, env.Line(ii.addr), Delta(f.1, l.1)))
  {
    BothLevels(s.lineD1, s.lineLL, m.d1, m.ll, a, size);
    hide RefGen, CacheRef, Bump, Cost, Delta, Narrow;
  }

  lemma AccessParts(s: Sim, env: Env, m: Machine, ii: InstrInfo, x: Access)
    requires s.Ok() && m.Ok() && AccessFits(env, ii, x)
    ensures var r, f := AccessRun(s, env, m, ii, x), CacheRef(if x.kind.Fetch? then s.lineI1 else s.lineD1,
                                                            if x.kind.Fetch? then m.i1 else m.d1, x.addr, x.size);
      var l := CacheRef(s.lineLL, m.ll, x.addr, x.size);
      var d := Delta(f.1, l.1);
      && r.i1 == (if x.kind.Fetch? then f.0 else m.i1) && r.d1 == (if x.kind.Fetch? then m.d1 else f.0)
      && r.ll == (if f.1 then l.0 else m.ll)
      && r.ir == (if x.kind.Fetch? then Bump(m.ir, x.line, d) else m.ir)
      && r.dr == (if x.kind.Read? then Bump(m.dr, x.line, d) else m.dr)
      && r.dw == (if x.kind.Write? then Bump(m.dw, x.line, d) else m.dw)
  {
    hide CacheRef, Bump, Delta, Narrow, FetchGen, DataRead, DataWrite;
    NarrowSmall(env, ii, x);
    match x.kind
    case Fetch => FetchParts(s, env, m, ii);
    case Read => ReadParts(s, env, m, ii, x.addr, x.size);
    case Write => WriteParts(s, env, m, ii, x.addr, x.size);
  }

  lemma NarrowSmall(env: Env, ii: InstrInfo, x: Access)
    requires AccessFits(env, ii, x)
    ensures !x.kind.Fetch? ==> Narrow(x.size) == x.size
  {
  }

  /** The caches in one step, ... */
  lemma CachesOne(s: Sim, env: Env, m0: Machine, xs: seq<Access>, m: Machine, ii: InstrInfo, x: Access)
    requires s.Ok() && m0.Ok() && m.Ok() && CachesAfter(s, m0, xs, m) && AccessFits(env, ii, x)
    ensures CachesAfter(s, m0, xs + [x], AccessRun(s, env, m, ii, x))
  {
    hide CacheRef, CacheAfter, Addresses, ToLast, Bump, AccessRun, AccessFits;
    AccessParts(s, env, m, ii, x);
    CachesStep(s, m0, xs, x);
    AfterOne(s.lineI1, m0.i1, Addresses(xs, true), x.addr, x.size);
    AfterOne(s.lineD1, m0.d1, Addresses(xs, false), x.addr, x.size);
    AfterOne(s.lineLL, m0.ll, ToLast(s, m0, xs), x.addr, x.size);
    NothingMore(Addresses(xs, true));
    NothingMore(Addresses(xs, false));
    NothingMore(ToLast(s, m0, xs));
  }

  lemma NothingMore(t: Trace)
    ensures t + [] == t
  {
  }

  /** ... and the counters. */
  lemma CounterOne(s: Sim, env: Env, m0: Machine, xs: seq<Access>, m: Machine, ii: InstrInfo, x: Access, k: Kind, line: nat)
    requires s.Ok() && m0.Ok() && m.Ok() && CachesAfter(s, m0, xs, m) && AccessFits(env, ii, x)
    requires CounterIs(s, m0, xs, k, line, Counter(m, k, line))
    ensures CounterIs(s, m0, xs + [x], k, line, Counter(AccessRun(s, env, m, ii, x), k, line))
  {
    hide *;
    Grows(s, env, m0, xs, m, ii, x, k, line);
    AddsUp(s, m0, xs, x, k, line, Counter(m, k, line), Counter(AccessRun(s, env, m, ii, x), k, line));
  }

  lemma AddsUp(s: Sim, m0: Machine, xs: seq<Access>, x: Access, k: Kind, line: nat, c: CacheCC, d: CacheCC)
    requires s.Ok() && m0.Ok() && CounterIs(s, m0, xs, k, line, c)
    requires var here := x.kind == k && x.line == line;
      && d.a == c.a + (if here then 1 else 0)
      && d.m1 == c.m1 + (if here && MissesFirst(s, m0, xs, x) then 1 else 0)
      && d.mL == c.mL + (if here && MissesBoth(s, m0, xs, x) then 1 else 0)
    ensures CounterIs(s, m0, xs + [x], k, line, d)
  {
    hide Number, FirstMisses, LastMisses, Counter, MissesFirst, MissesBoth, Shaped;
    NumbersStep(s, m0, xs, x, k, line);
  }

  lemma Grows(s: Sim, env: Env, m0: Machine, xs: seq<Access>, m: Machine, ii: InstrInfo, x: Access, k: Kind, line: nat)
    requires s.Ok() && m0.Ok() && m.Ok() && CachesAfter(s, m0, xs, m) && AccessFits(env, ii, x)
    ensures var c, d, here := Counter(m, k, line), Counter(AccessRun(s, env, m, ii, x), k, line), x.kind == k && x.line == line;
      && d.a == c.a + (if here then 1 else 0)
      && d.m1 == c.m1 + (if here && MissesFirst(s, m0, xs, x) then 1 else 0)
      && d.mL == c.mL + (if here && MissesBoth(s, m0, xs, x) then 1 else 0)
  {
    hide CacheRef, CacheAfter, Addresses, ToLast, AccessRun, AccessFits, Bump, Counter;
    AccessParts(s, env, m, ii, x);
    Bumped(m, AccessRun(s, env, m, ii, x), x, k, line);
  }

  /** The counters of one line of one kind change. */
  lemma Bumped(m: Machine, r: Machine, x: Access, k: Kind, line: nat)
    ensures forall d ::
      (&& r.ir == (if x.kind.Fetch? then Bump(m.ir, x.line, d) else m.ir)
       && r.dr == (if x.kind.Read? then Bump(m.dr, x.line, d) else m.dr)
       && r.dw == (if x.kind.Write? then Bump(m.dw, x.line, d) else m.dw)) ==>
        Counter(r, k, line) == if x.kind == k && x.line == line then Counter(m, k, line).Plus(d) else Counter(m, k, line)
  {
  }

  /** From any state, the caches are those after the addresses that reach them, and each counter of each line grows by
      its accesses, by those that miss the first level, and by those that miss both. */
  lemma {:induction false} CountersExact(s: Sim, info: seq<InstrInfo>, env: Env, m: Machine, acts: seq<Action>)
    requires s.Ok() && m.Ok() && s.cacheSim && ActionsIn(acts, |info|)
    ensures Counted(s, m, Accesses(info, env, acts), RunActions(s, info, env, m, acts))
  {
    hide CacheRef, CacheAfter, RunAction, CachesAfter, CounterIs, AccessOf, Counter, AccessRun;
    var m' := RunActions(s, info, env, m, acts);
    if acts == [] {
      NoneYet(s, m);
    } else {
      CountersExact(s, info, env, m, Front(acts));
      CountersStep(s, info, env, m, Accesses(info, env, Front(acts)), RunActions(s, info, env, m, Front(acts)), Last(acts));
    }
  }

  lemma NoneYet(s: Sim, m: Machine)
    requires s.Ok() && m.Ok()
    ensures Counted(s, m, [], m)
  {
  }

  lemma CountersStep(s: Sim, info: seq<InstrInfo>, env: Env, m0: Machine, xs: seq<Access>, m: Machine, a: Action)
    requires s.Ok() && m0.Ok() && m.Ok() && s.cacheSim && a.n < |info| && Counted(s, m0, xs, m)
    ensures Counted(s, m0, xs + AccessOf(info, env, a), RunAction(s, info, env, m, a))
  {
    hide CacheRef, CacheAfter, RunAction, CachesAfter, CounterIs, AccessOf, Counter, AccessRun, AccessFits;
    if AccessOf(info, env, a) == [] {
      assert xs + AccessOf(info, env, a) == xs;
      NoAccess(s, info, env, m0, xs, m, a);
    } else {
      OneAccess(s, info, env, m, a);
      var x := AccessOf(info, env, a)[0];
      assert AccessOf(info, env, a) == [x];
      CachesOne(s, env, m0, xs, m, info[a.n], x);
      forall k, line ensures CounterIs(s, m0, xs + [x], k, line, Counter(AccessRun(s, env, m, info[a.n], x), k, line)) {
        CounterOne(s, env, m0, xs, m, info[a.n], x, k, line);
      }
    }
  }

  /** Branches, and accesses whose guard does not hold, touch no cache and no counter. */
  lemma NoAccess(s: Sim, info: seq<InstrInfo>, env: Env, m0: Machine, xs: seq<Access>, m: Machine, a: Action)
    requires s.Ok() && m0.Ok() && m.Ok() && a.n < |info| && Counted(s, m0, xs, m) && AccessOf(info, env, a) == []
    ensures Counted(s, m0, xs, RunAction(s, info, env, m, a))
  {
    var m' := RunAction(s, info, env, m, a);
    assert m' == m.(branches := m'.branches);
    SameCounters(m, m');
    hide CacheRef, CacheAfter, RunAction, CounterIs, Counter, ToLast, Addresses;
  }

  lemma SameCounters(m: Machine, m': Machine)
    requires m' == m.(branches := m'.branches)
    ensures forall k, line :: Counter(m', k, line) == Counter(m, k, line)
  {
  }

  // ---------------------------------------------------------------- branches

  /** What the predictors are shown: a conditional branch of the guest is taken if its side exit is, or, where the side
      exit leads to the next instruction, if it is not. */
  function BranchOf(info: seq<InstrInfo>, env: Env, a: Action): seq<(nat, Branch)>
    requires a.n < |info|
  {
    var at := info[a.n].addr;
    match a
    case ACond(_, g, inv) =>
      [(env.Line(at), Cond(at, if inv then env.Val(g) == 0 else env.Val(g) != 0))]
    case AInd(_, d) => [(env.Line(at), Indirect(at, env.Val(d)))]
    case _ => []
  }

  function BranchesOf(info: seq<InstrInfo>, env: Env, acts: seq<Action>): seq<(nat, Branch)>
    requires ActionsIn(acts, |info|)
  {
    if acts == [] then [] else BranchesOf(info, env, Front(acts)) + BranchOf(info, env, Last(acts))
  }

  lemma {:induction false} BranchesExact(s: Sim, info: seq<InstrInfo>, env: Env, m: Machine, acts: seq<Action>)
    requires s.Ok() && m.Ok() && ActionsIn(acts, |info|)
    ensures RunActions(s, info, env, m, acts).branches == m.branches + BranchesOf(info, env, acts)
  {
    hide RunAction, BranchOf;
    if acts != [] {
      BranchesExact(s, info, env, m, Front(acts));
      OneBranch(s, info, env, RunActions(s, info, env, m, Front(acts)), Last(acts));
    }
  }

  lemma OneBranch(s: Sim, info: seq<InstrInfo>, env: Env, m: Machine, a: Action)
    requires s.Ok() && m.Ok() && a.n < |info|
    ensures RunAction(s, info, env, m, a).branches == m.branches + BranchOf(info, env, a)
  {
    hide RefGen;
  }

  // ---------------------------------------------------------------- without cache simulation

  /** Then only instructions are counted. */
  lemma {:induction false} OnlyFetches(s: Sim, info: seq<InstrInfo>, env: Env, m: Machine, acts: seq<Action>, line: nat)
    requires s.Ok() && m.Ok() && !s.cacheSim && ActionsIn(acts, |info|)
    requires forall i :: 0 <= i < |acts| ==> !acts[i].ARead? && !acts[i].AWrite?
    ensures OneFetchCounted(m, RunActions(s, info, env, m, acts), Accesses(info, env, acts), line)
  {
    hide RunAction, AccessOf, OneFetchCounted, Counter;
    if acts == [] {
      NoFetch(m, line);
    } else {
      OnlyFetches(s, info, env, m, Front(acts), line);
      FetchMore(s, info, env, m, Accesses(info, env, Front(acts)), RunActions(s, info, env, m, Front(acts)), Last(acts), line);
    }
  }

  /** Only the first counter of fetches has changed, by their number. */
  predicate OneFetchCounted(m: Machine, m': Machine, xs: seq<Access>, line: nat) {
    && m' == m.(ir := m'.ir, branches := m'.branches)
    && Counter(m', Fetch, line) == Counter(m, Fetch, line).(a := Counter(m, Fetch, line).a + Number(xs, Fetch, line))
  }

  lemma NoFetch(m: Machine, line: nat)
    ensures OneFetchCounted(m, m, [], line)
  {
  }

  lemma FetchMore(s: Sim, info: seq<InstrInfo>, env: Env, m0: Machine, xs: seq<Access>, m: Machine, a: Action, line: nat)
    requires s.Ok() && m0.Ok() && m.Ok() && !s.cacheSim && a.n < |info| && !a.ARead? && !a.AWrite?
    requires OneFetchCounted(m0, m, xs, line)
    ensures OneFetchCounted(m0, RunAction(s, info, env, m, a), xs + AccessOf(info, env, a), line)
  {
    hide Number, Counter, RunAction, Bump, Zero;
    if a.AIr? {
      OneFetch(s, info, env, m, a, line);
      NumberMore(xs, AccessOf(info, env, a)[0], Fetch, line);
    } else {
      NoMore(xs);
      NoFetchHere(s, info, env, m, a, line);
    }
  }

  lemma OneFetch(s: Sim, info: seq<InstrInfo>, env: Env, m: Machine, a: Action, line: nat)
    requires s.Ok() && m.Ok() && !s.cacheSim && a.n < |info| && a.AIr?
    ensures var r, c, d := RunAction(s, info, env, m, a), Counter(m, Fetch, line), Counter(RunAction(s, info, env, m, a), Fetch, line);
      && r == m.(ir := r.ir) && d == if env.Line(info[a.n].addr) == line then c.(a := c.a + 1) else c
  {
    hide Bump, Counter, Zero, Shaped;
    var r, x := RunAction(s, info, env, m, a), Access(Fetch, env.Line(info[a.n].addr), 0, 0);
    assert r == m.(ir := Bump(m.ir, x.line, CacheCC(1, 0, 0)));
    Bumped(m, r, x, Fetch, line);
  }

  lemma NoFetchHere(s: Sim, info: seq<InstrInfo>, env: Env, m: Machine, a: Action, line: nat)
    requires s.Ok() && m.Ok() && !s.cacheSim && a.n < |info| && (a.ACond? || a.AInd?)
    ensures var r := RunAction(s, info, env, m, a);
      r == m.(branches := r.branches) && Counter(r, Fetch, line) == Counter(m, Fetch, line) && AccessOf(info, env, a) == []
  {
  }

  lemma NoMore(xs: seq<Access>)
    ensures xs + [] == xs
  {
  }

  lemma NumberMore(xs: seq<Access>, x: Access, k: Kind, line: nat)
    ensures Number(xs + [x], k, line) == Number(xs, k, line) + if x.kind == k && x.line == line then 1 else 0
  {
    assert Front(xs + [x]) == xs;
  }
}
