/**
 The vocabulary of Cachegrind's instrumentation pass (`cg_main.c`): flat superblocks, the
 event queue's entries, the helper calls inserted for them, and what all of these mean
 when the block is executed.

 Executing a block is described by a valuation of its atoms: in a flat block every
 temporary is assigned once, so an address has the same value wherever it is used.
*/
module InstrumentModel {
  import opened Common
  import opened CacheSim

  // ---------------------------------------------------------------- superblocks

  datatype Atom = Tmp(t: nat) | Const(c: nat)

  datatype Effect = Reads | Writes | Modifies

  datatype JumpKind = Boring | Call | Ret | OtherJump

  /** A flat statement; `id` tells apart statements that the pass only copies. */
  datatype Stmt =
    | Plain(id: nat)                               // NoOp, AbiHint, Put, PutI, MBE, and writes that are no loads
    | IMark(addr: nat, len: nat)
    | Load(dst: nat, addrOf: Atom, size: nat)
    | Store(addrOf: Atom, size: nat, id: nat)
    | StoreG(addrOf: Atom, size: nat, guard: Atom, id: nat)
    | LoadG(addrOf: Atom, size: nat, guard: Atom, id: nat)
    | Dirty(fx: Effect, addrOf: Atom, size: nat, id: nat)
    | Cas(addrOf: Atom, size: nat, double: bool, id: nat)
    | LoadLinked(addrOf: Atom, size: nat, id: nat)
    | StoreCond(addrOf: Atom, size: nat, id: nat)
    | Exit(guard: Atom, jk: JumpKind, dst: nat)

  datatype Block = Block(stmts: seq<Stmt>, jumpkind: JumpKind, next: Atom)

  datatype InstrInfo = InstrInfo(addr: nat, len: nat)

  // ---------------------------------------------------------------- events and calls

  /** A queued event.  `inode` is the index of its instruction in the block. */
  datatype Event =
    | IrNoX(inode: nat)
    | IrGen(inode: nat)
    | Dr(inode: nat, ea: Atom, szB: nat)
    | Dw(inode: nat, ea: Atom, szB: nat)
    | Dm(inode: nat, ea: Atom, szB: nat)
    | Bc(inode: nat, taken: Atom, inverted: bool)
    | Bi(inode: nat, dst: Atom)
  {
    predicate IsData() { Dr? || Dw? || Dm? }
  }

  /** A call of one of the `log_...` helpers. */
  datatype Helper =
    | Log1Ir(n: nat)
    | Log2Ir(n: nat, n2: nat)
    | Log3Ir(n: nat, n2: nat, n3: nat)
    | Log1IrGen0D(n: nat)
    | Log1IrNoX0D(n: nat)
    | Log2IrNoX0D(n: nat, n2: nat)
    | Log3IrNoX0D(n: nat, n2: nat, n3: nat)
    | Log1IrNoX1Dr(n: nat, ea: Atom, szB: nat)
    | Log1IrNoX1Dw(n: nat, ea: Atom, szB: nat)
    | Log0Ir1Dr(n: nat, ea: Atom, szB: nat, guard: Option<Atom>)
    | Log0Ir1Dw(n: nat, ea: Atom, szB: nat, guard: Option<Atom>)
    | LogCondBranch(n: nat, taken: Atom, inverted: bool)
    | LogIndBranch(n: nat, dst: Atom)

  /** A statement of the output block: a copied one, a helper call, or the temporaries that widen (and
      possibly invert) the guard of an exit. */
  datatype OutStmt =
    | Copied(st: Stmt)
    | Insert(call: Helper)
    | Widen(guard: Atom, inverted: bool)

  // ---------------------------------------------------------------- execution

  datatype Sim = Sim(cacheSim: bool, branchSim: bool, lineI1: nat, lineD1: nat, lineLL: nat, minLine: nat)
  {
    predicate Ok() {
      lineI1 > 0 && lineD1 > 0 && lineLL > 0 && minLine > 0
    }

    predicate NoX(ii: InstrInfo)
      requires Ok()
    {
      IsIrNoX(lineI1, lineLL, ii.addr, ii.len)
    }
  }

  datatype CacheCC = CacheCC(a: nat, m1: nat, mL: nat)
  {
    function Plus(d: CacheCC): CacheCC { CacheCC(a + d.a, m1 + d.m1, mL + d.mL) }
  }

  const Zero := CacheCC(0, 0, 0)

  /** What the run looks at: the value of every temporary, and the source line of every address. */
  datatype Env = Env(tmps: map<nat, nat>, lines: map<nat, nat>)
  {
    function Val(a: Atom): nat {
      match a case Const(c) => c case Tmp(t) => if t in tmps then tmps[t] else 0
    }
    function Line(addr: nat): nat { if addr in lines then lines[addr] else 0 }
  }

  /** One consultation of a branch predictor. */
  datatype Branch = Cond(addr: nat, taken: bool) | Indirect(addr: nat, target: nat)

  /** Caches, counters per source line, and the branches shown to the predictors (whose mispredict
      counts are a function of that history). */
  datatype Machine = Machine(i1: Tags, d1: Tags, ll: Tags,
                             ir: map<nat, CacheCC>, dr: map<nat, CacheCC>, dw: map<nat, CacheCC>,
                             branches: seq<(nat, Branch)>)
  {
    ghost predicate Ok() { Shaped(i1) && Shaped(d1) && Shaped(ll) }
  }

  function Bump(m: map<nat, CacheCC>, line: nat, d: CacheCC): map<nat, CacheCC> {
    m[line := (if line in m then m[line] else Zero).Plus(d)]
  }

  function Cost(lv: Levels): CacheCC {
    CacheCC(1, if lv.miss1 then 1 else 0, if lv.missL then 1 else 0)
  }

  /** The size parameter of the data helpers is one byte wide. */
  function Narrow(szB: nat): nat { szB % 0x100 }

  function FetchGen(s: Sim, env: Env, m: Machine, ii: InstrInfo): (m': Machine)
    requires s.Ok() && m.Ok()
    ensures m'.Ok()
  {
    var lv := RefGen(s.lineI1, s.lineLL, m.i1, m.ll, ii.addr, ii.len);
    m.(i1 := lv.l1, ll := lv.ll, ir := Bump(m.ir, env.Line(ii.addr), Cost(lv)))
  }

  function FetchNoX(s: Sim, env: Env, m: Machine, ii: InstrInfo): (m': Machine)
    requires s.Ok() && m.Ok()
    ensures m'.Ok()
  {
    var lv := RefNoX(s.lineI1, m.i1, m.ll, ii.addr);
    m.(i1 := lv.l1, ll := lv.ll, ir := Bump(m.ir, env.Line(ii.addr), Cost(lv)))
  }

  function CountIr(env: Env, m: Machine, ii: InstrInfo): (m': Machine)
    requires m.Ok()
    ensures m'.Ok()
  {
    m.(ir := Bump(m.ir, env.Line(ii.addr), CacheCC(1, 0, 0)))
  }

  function DataRead(s: Sim, env: Env, m: Machine, ii: InstrInfo, ea: nat, szB: nat): (m': Machine)
    requires s.Ok() && m.Ok()
    ensures m'.Ok()
  {
    var lv := RefGen(s.lineD1, s.lineLL, m.d1, m.ll, ea, Narrow(szB));
    m.(d1 := lv.l1, ll := lv.ll, dr := Bump(m.dr, env.Line(ii.addr), Cost(lv)))
  }

  function DataWrite(s: Sim, env: Env, m: Machine, ii: InstrInfo, ea: nat, szB: nat): (m': Machine)
    requires s.Ok() && m.Ok()
    ensures m'.Ok()
  {
    var lv := RefGen(s.lineD1, s.lineLL, m.d1, m.ll, ea, Narrow(szB));
    m.(d1 := lv.l1, ll := lv.ll, dw := Bump(m.dw, env.Line(ii.addr), Cost(lv)))
  }

  predicate Holds(env: Env, guard: Option<Atom>) {
    guard.None? || env.Val(guard.value) != 0
  }

  function NoteBranch(env: Env, m: Machine, ii: InstrInfo, b: Branch): (m': Machine)
    requires m.Ok()
    ensures m'.Ok()
  {
    m.(branches := m.branches + [(env.Line(ii.addr), b)])
  }

  /** What each helper does, following its C body. */
  function RunHelper(s: Sim, info: seq<InstrInfo>, env: Env, m: Machine, h: Helper): (m': Machine)
    requires s.Ok() && m.Ok() && HelperIn(h, |info|)
    ensures m'.Ok()
  {
    match h
    case Log1Ir(n) => CountIr(env, m, info[n])
    case Log2Ir(n, n2) => CountIr(env, CountIr(env, m, info[n]), info[n2])
    case Log3Ir(n, n2, n3) => CountIr(env, CountIr(env, CountIr(env, m, info[n]), info[n2]), info[n3])
    case Log1IrGen0D(n) => FetchGen(s, env, m, info[n])
    case Log1IrNoX0D(n) => FetchNoX(s, env, m, info[n])
    case Log2IrNoX0D(n, n2) => FetchNoX(s, env, FetchNoX(s, env, m, info[n]), info[n2])
    case Log3IrNoX0D(n, n2, n3) =>
      FetchNoX(s, env, FetchNoX(s, env, FetchNoX(s, env, m, info[n]), info[n2]), info[n3])
    case Log1IrNoX1Dr(n, ea, szB) => DataRead(s, env, FetchNoX(s, env, m, info[n]), info[n], env.Val(ea), szB)
    case Log1IrNoX1Dw(n, ea, szB) => DataWrite(s, env, FetchNoX(s, env, m, info[n]), info[n], env.Val(ea), szB)
    case Log0Ir1Dr(n, ea, szB, g) => if Holds(env, g) then DataRead(s, env, m, info[n], env.Val(ea), szB) else m
    case Log0Ir1Dw(n, ea, szB, g) => if Holds(env, g) then DataWrite(s, env, m, info[n], env.Val(ea), szB) else m
    case LogCondBranch(n, g, inv) => NoteBranch(env, m, info[n], Cond(info[n].addr, (env.Val(g) != 0) != inv))
    case LogIndBranch(n, d) => NoteBranch(env, m, info[n], Indirect(info[n].addr, env.Val(d)))
  }

  predicate HelperIn(h: Helper, n: nat) {
    h.n < n && (h.Log2Ir? || h.Log2IrNoX0D? || h.Log3Ir? || h.Log3IrNoX0D? ==> h.n2 < n)
    && (h.Log3Ir? || h.Log3IrNoX0D? ==> h.n3 < n)
  }

  // ---------------------------------------------------------------- single actions

  /** One event, handled by itself on the generic path.  A modify is one read. */
  datatype Action =
    | AIr(n: nat)
    | ARead(n: nat, ea: Atom, szB: nat, guard: Option<Atom>)
    | AWrite(n: nat, ea: Atom, szB: nat, guard: Option<Atom>)
    | ACond(n: nat, taken: Atom, inverted: bool)
    | AInd(n: nat, dst: Atom)

  function RunAction(s: Sim, info: seq<InstrInfo>, env: Env, m: Machine, a: Action): (m': Machine)
    requires s.Ok() && m.Ok() && a.n < |info|
    ensures m'.Ok()
  {
    match a
    case AIr(n) => if s.cacheSim then FetchGen(s, env, m, info[n]) else CountIr(env, m, info[n])
    case ARead(n, ea, szB, g) => if Holds(env, g) then DataRead(s, env, m, info[n], env.Val(ea), szB) else m
    case AWrite(n, ea, szB, g) => if Holds(env, g) then DataWrite(s, env, m, info[n], env.Val(ea), szB) else m
    case ACond(n, g, inv) => NoteBranch(env, m, info[n], Cond(info[n].addr, (env.Val(g) != 0) != inv))
    case AInd(n, d) => NoteBranch(env, m, info[n], Indirect(info[n].addr, env.Val(d)))
  }

  ghost predicate ActionsIn(acts: seq<Action>, n: nat) {
    forall i :: 0 <= i < |acts| ==> acts[i].n < n
  }

  function RunActions(s: Sim, info: seq<InstrInfo>, env: Env, m: Machine, acts: seq<Action>): (m': Machine)
    requires s.Ok() && m.Ok() && ActionsIn(acts, |info|)
    ensures m'.Ok()
  {
    if acts == [] then m
    else RunAction(s, info, env, RunActions(s, info, env, m, acts[..|acts| - 1]), acts[|acts| - 1])
  }

  lemma {:induction false} RunAppend(s: Sim, info: seq<InstrInfo>, env: Env, m: Machine, a: seq<Action>, b: seq<Action>)
    requires s.Ok() && m.Ok() && ActionsIn(a, |info|) && ActionsIn(b, |info|)
    ensures ActionsIn(a + b, |info|)
    ensures RunActions(s, info, env, m, a + b) == RunActions(s, info, env, RunActions(s, info, env, m, a), b)
  {
    if b == [] {
      assert a + b == a;
    } else {
      RunAppend(s, info, env, m, a, b[..|b| - 1]);
      assert (a + b)[..|a + b| - 1] == a + b[..|b| - 1];
    }
  }

  /** The actions that a queued event stands for, ... */
  function Micro(e: Event): seq<Action> {
    match e
    case IrNoX(n) => [AIr(n)]
    case IrGen(n) => [AIr(n)]
    case Dr(n, ea, szB) => [ARead(n, ea, szB, None)]
    case Dm(n, ea, szB) => [ARead(n, ea, szB, None)]
    case Dw(n, ea, szB) => [AWrite(n, ea, szB, None)]
    case Bc(n, g, inv) => [ACond(n, g, inv)]
    case Bi(n, d) => [AInd(n, d)]
  }

  function Micros(q: seq<Event>): seq<Action> {
    if q == [] then [] else Micros(q[..|q| - 1]) + Micro(q[|q| - 1])
  }

  /** ... and those that a helper call stands for. */
  function Expand(h: Helper): seq<Action> {
    match h
    case Log1Ir(n) => [AIr(n)]
    case Log2Ir(n, n2) => [AIr(n), AIr(n2)]
    case Log3Ir(n, n2, n3) => [AIr(n), AIr(n2), AIr(n3)]
    case Log1IrGen0D(n) => [AIr(n)]
    case Log1IrNoX0D(n) => [AIr(n)]
    case Log2IrNoX0D(n, n2) => [AIr(n), AIr(n2)]
    case Log3IrNoX0D(n, n2, n3) => [AIr(n), AIr(n2), AIr(n3)]
    case Log1IrNoX1Dr(n, ea, szB) => [AIr(n), ARead(n, ea, szB, None)]
    case Log1IrNoX1Dw(n, ea, szB) => [AIr(n), AWrite(n, ea, szB, None)]
    case Log0Ir1Dr(n, ea, szB, g) => [ARead(n, ea, szB, g)]
    case Log0Ir1Dw(n, ea, szB, g) => [AWrite(n, ea, szB, g)]
    case LogCondBranch(n, g, inv) => [ACond(n, g, inv)]
    case LogIndBranch(n, d) => [AInd(n, d)]
  }

  /** The calls that the pass may emit: counting helpers without cache simulation, fast-path helpers
      only for instructions that passed the fast-path test. */
  ghost predicate HelperOk(s: Sim, info: seq<InstrInfo>, h: Helper)
    requires s.Ok()
  {
    && HelperIn(h, |info|)
    && (h.Log1Ir? || h.Log2Ir? || h.Log3Ir? ==> !s.cacheSim)
    && (h.Log1IrGen0D? ==> s.cacheSim)
    && (h.Log1IrNoX0D? || h.Log2IrNoX0D? || h.Log3IrNoX0D? || h.Log1IrNoX1Dr? || h.Log1IrNoX1Dw? ==>
          s.cacheSim && s.NoX(info[h.n]))
    && (h.Log2IrNoX0D? || h.Log3IrNoX0D? ==> s.NoX(info[h.n2]))
    && (h.Log3IrNoX0D? ==> s.NoX(info[h.n3]))
  }

  lemma FetchNoXIsGen(s: Sim, env: Env, m: Machine, ii: InstrInfo)
    requires s.Ok() && m.Ok() && s.NoX(ii)
    ensures FetchNoX(s, env, m, ii) == FetchGen(s, env, m, ii)
  {
    NoXIsGen(s.lineI1, s.lineLL, m.i1, m.ll, ii.addr, ii.len);
  }

  lemma RunSnoc(s: Sim, info: seq<InstrInfo>, env: Env, m: Machine, acts: seq<Action>, a: Action)
    requires s.Ok() && m.Ok() && ActionsIn(acts, |info|) && a.n < |info|
    ensures ActionsIn(acts + [a], |info|)
    ensures RunActions(s, info, env, m, acts + [a]) == RunAction(s, info, env, RunActions(s, info, env, m, acts), a)
  {
    hide RunAction;
    assert (acts + [a])[..|acts|] == acts;
  }

  lemma RunOne(s: Sim, info: seq<InstrInfo>, env: Env, m: Machine, a: Action)
    requires s.Ok() && m.Ok() && a.n < |info|
    ensures ActionsIn([a], |info|) && RunActions(s, info, env, m, [a]) == RunAction(s, info, env, m, a)
  {
    RunSnoc(s, info, env, m, [], a);
    assert [] + [a] == [a];
  }

  lemma RunTwo(s: Sim, info: seq<InstrInfo>, env: Env, m: Machine, a: Action, b: Action)
    requires s.Ok() && m.Ok() && a.n < |info| && b.n < |info|
    ensures ActionsIn([a, b], |info|)
    ensures RunActions(s, info, env, m, [a, b]) == RunAction(s, info, env, RunAction(s, info, env, m, a), b)
  {
    hide RunAction;
    RunOne(s, info, env, m, a);
    RunSnoc(s, info, env, m, [a], b);
    assert [a] + [b] == [a, b];
  }

  lemma RunThree(s: Sim, info: seq<InstrInfo>, env: Env, m: Machine, a: Action, b: Action, c: Action)
    requires s.Ok() && m.Ok() && a.n < |info| && b.n < |info| && c.n < |info|
    ensures ActionsIn([a, b, c], |info|)
    ensures RunActions(s, info, env, m, [a, b, c])
         == RunAction(s, info, env, RunAction(s, info, env, RunAction(s, info, env, m, a), b), c)
  {
    hide RunAction;
    RunTwo(s, info, env, m, a, b);
    RunSnoc(s, info, env, m, [a, b], c);
    assert [a, b] + [c] == [a, b, c];
  }

  /** A helper call does what its events do one at a time. */
  lemma HelperIsActions(s: Sim, info: seq<InstrInfo>, env: Env, m: Machine, h: Helper)
    requires s.Ok() && m.Ok() && HelperOk(s, info, h)
    ensures ActionsIn(Expand(h), |info|)
    ensures RunHelper(s, info, env, m, h) == RunActions(s, info, env, m, Expand(h))
  {
    if h.Log3Ir? || h.Log3IrNoX0D? {
      ThreeIsActions(s, info, env, m, h);
    } else if h.Log2Ir? || h.Log2IrNoX0D? || h.Log1IrNoX1Dr? || h.Log1IrNoX1Dw? {
      TwoIsActions(s, info, env, m, h);
    } else {
      OneIsAction(s, info, env, m, h);
    }
  }

  lemma OneIsAction(s: Sim, info: seq<InstrInfo>, env: Env, m: Machine, h: Helper)
    requires s.Ok() && m.Ok() && HelperOk(s, info, h) && |Expand(h)| == 1
    ensures ActionsIn(Expand(h), |info|)
    ensures RunHelper(s, info, env, m, h) == RunActions(s, info, env, m, Expand(h))
  {
    match h
    case Log1Ir(n) => RunOne(s, info, env, m, AIr(n));
    case Log1IrGen0D(n) => RunOne(s, info, env, m, AIr(n));
    case Log1IrNoX0D(n) =>
      RunOne(s, info, env, m, AIr(n));
      FetchNoXIsGen(s, env, m, info[n]);
    case Log0Ir1Dr(n, ea, szB, g) => RunOne(s, info, env, m, ARead(n, ea, szB, g));
    case Log0Ir1Dw(n, ea, szB, g) => RunOne(s, info, env, m, AWrite(n, ea, szB, g));
    case LogCondBranch(n, g, inv) => RunOne(s, info, env, m, ACond(n, g, inv));
    case LogIndBranch(n, d) => RunOne(s, info, env, m, AInd(n, d));
  }

  lemma TwoIsActions(s: Sim, info: seq<InstrInfo>, env: Env, m: Machine, h: Helper)
    requires s.Ok() && m.Ok() && HelperOk(s, info, h)
    requires h.Log2Ir? || h.Log2IrNoX0D? || h.Log1IrNoX1Dr? || h.Log1IrNoX1Dw?
    ensures ActionsIn(Expand(h), |info|)
    ensures RunHelper(s, info, env, m, h) == RunActions(s, info, env, m, Expand(h))
  {
    hide FetchNoX, FetchGen, CountIr, DataRead, DataWrite;
    RunTwo(s, info, env, m, Expand(h)[0], Expand(h)[1]);
    if !h.Log2Ir? {
      FetchNoXIsGen(s, env, m, info[h.n]);
      if h.Log2IrNoX0D? {
        FetchNoXIsGen(s, env, FetchGen(s, env, m, info[h.n]), info[h.n2]);
      }
    }
  }

  lemma ThreeFetches(s: Sim, env: Env, m: Machine, i: InstrInfo, i2: InstrInfo, i3: InstrInfo)
    requires s.Ok() && m.Ok() && s.NoX(i) && s.NoX(i2) && s.NoX(i3)
    ensures FetchNoX(s, env, FetchNoX(s, env, FetchNoX(s, env, m, i), i2), i3)
         == FetchGen(s, env, FetchGen(s, env, FetchGen(s, env, m, i), i2), i3)
  {
    hide FetchNoX, FetchGen;
    var m1 := FetchGen(s, env, m, i);
    FetchNoXIsGen(s, env, m, i);
    FetchNoXIsGen(s, env, m1, i2);
    FetchNoXIsGen(s, env, FetchGen(s, env, m1, i2), i3);
  }

  lemma ThreeIsActions(s: Sim, info: seq<InstrInfo>, env: Env, m: Machine, h: Helper)
    requires s.Ok() && m.Ok() && HelperOk(s, info, h) && (h.Log3Ir? || h.Log3IrNoX0D?)
    ensures ActionsIn(Expand(h), |info|)
    ensures RunHelper(s, info, env, m, h) == RunActions(s, info, env, m, Expand(h))
  {
    hide FetchNoX, FetchGen, CountIr;
    RunThree(s, info, env, m, AIr(h.n), AIr(h.n2), AIr(h.n3));
    if h.Log3IrNoX0D? {
      ThreeFetches(s, env, m, info[h.n], info[h.n2], info[h.n3]);
    }
  }
}
