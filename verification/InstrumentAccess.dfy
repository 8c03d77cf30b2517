/**
 What a block does to memory, said of its statements alone: which of them read and which write, where, and under which
 guard.  The pass posts a read for each statement that reads and a write for each that writes, in order; a write is
 left out exactly if it belongs to a read of the same place just before.
*/
module InstrumentAccess {
  import opened Common
  import opened CacheSim
  import opened InstrumentModel
  import opened InstrumentRef

  /** `size` bytes from `addr` on, if the guard holds. */
  datatype Touch = Touch(addr: Atom, size: nat, guard: Option<Atom>)

  /** What a statement reads when it is executed.  A compare-and-swap reads the place it may change. */
  function ReadBy(st: Stmt): Option<Touch> {
    match st
    case Load(_, a, sz) => Some(Touch(a, sz, None))
    case LoadG(a, sz, g, _) => Some(Touch(a, sz, Some(g)))
    case LoadLinked(a, sz, _) => Some(Touch(a, sz, None))
    case Cas(a, sz, double, _) => Some(Touch(a, if double then sz + sz else sz, None))
    case Dirty(fx, a, sz, _) => if fx == Reads || fx == Modifies then Some(Touch(a, sz, None)) else None
    case _ => None
  }

  /** What it writes. */
  function WrittenBy(st: Stmt): Option<Touch> {
    match st
    case Store(a, sz, _) => Some(Touch(a, sz, None))
    case StoreG(a, sz, g, _) => Some(Touch(a, sz, Some(g)))
    case StoreCond(a, sz, _) => Some(Touch(a, sz, None))
    case Cas(a, sz, double, _) => Some(Touch(a, if double then sz + sz else sz, None))
    case Dirty(fx, a, sz, _) => if fx == Writes || fx == Modifies then Some(Touch(a, sz, None)) else None
    case _ => None
  }

  /** Accesses longer than a cache line count as one of a line. */
  function Capped(s: Sim, size: nat): nat { if size > s.minLine then s.minLine else size }

  /** The instructions begun. */
  function Begun(stmts: seq<Stmt>): nat {
    if stmts == [] then 0 else Begun(Front(stmts)) + if Last(stmts).IMark? then 1 else 0
  }

  /** The last statement that does more than compute. */
  function LastActive(stmts: seq<Stmt>): Option<Stmt> {
    if stmts == [] then None else if Last(stmts).Plain? then LastActive(Front(stmts)) else Some(Last(stmts))
  }

  /** A read that a write may still belong to: not a guarded or a linked one, nor one that has its write already. */
  predicate OpenRead(st: Stmt) {
    st.Load? || (st.Dirty? && st.fx == Reads)
  }

  /** The write of `st`, which follows `before`, belongs to a read of the same place by the same instruction. */
  predicate BelongsToRead(s: Sim, before: seq<Stmt>, st: Stmt)
    requires WrittenBy(st).Some?
  {
    var w := WrittenBy(st).value;
    w.guard.None? && (ReadBy(st).Some? || ReadJustBefore(s, before, w.addr, Capped(s, w.size)))
  }

  /** The last statement that does anything has read `sz` bytes there. */
  predicate ReadJustBefore(s: Sim, before: seq<Stmt>, a: Atom, sz: nat) {
    var p := LastActive(before);
    p.Some? && OpenRead(p.value) && p.value.addrOf == a && Capped(s, p.value.size) == sz
  }

  /** Where the instruction that was begun last ends. */
  function NextInstr(stmts: seq<Stmt>): nat {
    if stmts == [] then 0
    else if Last(stmts).IMark? then (Last(stmts).addr + if Last(stmts).len == 0 then 1 else Last(stmts).len) % ADDR_SPACE
    else NextInstr(Front(stmts))
  }

  /** The data accesses of a statement that belongs to instruction `n`. */
  function ReadActs(s: Sim, n: nat, st: Stmt): seq<Action> {
    match ReadBy(st) case None => [] case Some(t) => [ARead(n, t.addr, Capped(s, t.size), t.guard)]
  }

  function WriteActs(s: Sim, n: nat, before: seq<Stmt>, st: Stmt): seq<Action> {
    match WrittenBy(st)
    case None => []
    case Some(t) => if BelongsToRead(s, before, st) then [] else [AWrite(n, t.addr, Capped(s, t.size), t.guard)]
  }

  /** The branch of a side exit in guest code.  One that leads to the next instruction has had its sense inverted. */
  function ExitActs(s: Sim, n: nat, before: seq<Stmt>, st: Stmt): seq<Action> {
    if st.Exit? && s.branchSim && (st.jk == Boring || st.jk == Call || st.jk == Ret)
    then [ACond(n, st.guard, NextInstr(before) == st.dst)] else []
  }

  /** All that one statement adds. */
  function Adds(s: Sim, before: seq<Stmt>, st: Stmt): seq<Action> {
    var n := Begun(before);
    if st.IMark? then [AIr(n)]
    else if n == 0 then []
    else (if s.cacheSim then ReadActs(s, n - 1, st) + WriteActs(s, n - 1, before, st) else []) + ExitActs(s, n - 1, before, st)
  }

  function AllAdds(s: Sim, stmts: seq<Stmt>): seq<Action> {
    if stmts == [] then [] else AllAdds(s, Front(stmts)) + Adds(s, Front(stmts), Last(stmts))
  }

  /** From the first instruction on, the pass's demands are met. */
  ghost predicate StmtsOk(s: Sim, stmts: seq<Stmt>) {
    forall i :: 0 <= i < |stmts| && Begun(stmts[..i]) > 0 ==> StmtOk(s, stmts[i])
  }

  lemma OkBefore(s: Sim, stmts: seq<Stmt>)
    requires StmtsOk(s, stmts) && stmts != []
    ensures StmtsOk(s, Front(stmts)) && (Begun(Front(stmts)) > 0 ==> StmtOk(s, Last(stmts)))
  {
    var t := Front(stmts);
    forall i | 0 <= i < |t| && Begun(t[..i]) > 0 ensures StmtOk(s, t[i]) {
      assert t[..i] == stmts[..i];
    }
    assert t == stmts[..|stmts| - 1];
  }

  // ---------------------------------------------------------------- what is posted

  /** What is known of the reference state after some statements. */
  ghost predicate Agrees(s: Sim, stmts: seq<Stmt>, r: Ref) {
    && |r.info| == Begun(stmts) && r.acts == AllAdds(s, stmts)
    && (r.info != [] ==> (r.info[|r.info| - 1].addr + r.info[|r.info| - 1].len) % ADDR_SPACE == NextInstr(stmts))
    && (r.open <==> s.cacheSim && r.info != [] && LastActive(stmts).Some? && OpenRead(LastActive(stmts).value))
    && (r.open ==>
          var p := LastActive(stmts).value;
          r.acts != [] && Last(r.acts) == ARead(|r.info| - 1, p.addrOf, Capped(s, p.size), None))
  }

  lemma NoStmts(s: Sim)
    ensures Agrees(s, [], RefAll(s, []))
  {
  }

  /** What one statement more changes. */
  lemma OneMore(s: Sim, before: seq<Stmt>, st: Stmt)
    ensures var all := before + [st];
      && Begun(all) == Begun(before) + (if st.IMark? then 1 else 0)
      && AllAdds(s, all) == AllAdds(s, before) + Adds(s, before, st)
      && (!st.IMark? ==> NextInstr(all) == NextInstr(before))
      && (st.IMark? ==> NextInstr(all) == (st.addr + InstrLen(st.len)) % ADDR_SPACE)
      && LastActive(all) == if st.Plain? then LastActive(before) else Some(st)
  {
    hide Adds;
    assert Front(before + [st]) == before && Last(before + [st]) == st;
  }

  lemma MarkAgrees(s: Sim, before: seq<Stmt>, r: Ref, st: Stmt)
    requires Agrees(s, before, r) && st.IMark?
    ensures Agrees(s, before + [st], Step(s, r, st))
  {
    OneMore(s, before, st);
    hide Begun, AllAdds, NextInstr, LastActive, InstrLen;
  }

  lemma SilentAgrees(s: Sim, before: seq<Stmt>, r: Ref, st: Stmt)
    requires Agrees(s, before, r) && !st.IMark? && (st.Plain? || Begun(before) == 0)
    ensures Agrees(s, before + [st], Step(s, r, st))
  {
    hide *;
    OneMore(s, before, st);
    SilentStep(s, before, r, st);
    AgreesActs(s, before, r);
    ActsSame(s, before, r);
    SameAgrees(s, before, before + [st], r);
  }

  /** Statements that post nothing. */
  lemma SameAgrees(s: Sim, before: seq<Stmt>, all: seq<Stmt>, r: Ref)
    requires Agrees(s, before, r) && Begun(all) == Begun(before) && AllAdds(s, all) == AllAdds(s, before)
    requires NextInstr(all) == NextInstr(before) && (Begun(before) > 0 ==> LastActive(all) == LastActive(before))
    ensures Agrees(s, all, r)
  {
    hide Begun, AllAdds, NextInstr, LastActive, Capped;
  }

  lemma SilentStep(s: Sim, before: seq<Stmt>, r: Ref, st: Stmt)
    requires Agrees(s, before, r) && !st.IMark? && (st.Plain? || Begun(before) == 0)
    ensures Step(s, r, st) == r && Adds(s, before, st) == []
  {
    hide Begun, AllAdds, NextInstr, LastActive;
  }

  /** A state that differs only in its actions. */
  lemma StateAgrees(s: Sim, before: seq<Stmt>, r: Ref, st: Stmt, q: Ref)
    requires Agrees(s, before, r) && !st.IMark? && !st.Plain? && Begun(before) > 0
    requires q.info == r.info && q.acts == r.acts + Adds(s, before, st) && (q.open <==> s.cacheSim && OpenRead(st))
    requires q.open ==> q.acts != [] && Last(q.acts) == ARead(|r.info| - 1, st.addrOf, Capped(s, st.size), None)
    ensures Agrees(s, before + [st], q)
  {
    OneMore(s, before, st);
    hide Begun, AllAdds, NextInstr, LastActive, Adds;
  }

  /** What `Agrees` says of the last instruction and of the read that is open. */
  lemma Known(s: Sim, before: seq<Stmt>, r: Ref)
    requires Agrees(s, before, r) && Begun(before) > 0
    ensures var n := Begun(before) - 1;
      && r.info != [] && |r.info| - 1 == n && (r.open ==> s.cacheSim)
      && (forall dst :: Inverted(r.info[n], dst) <==> NextInstr(before) == dst)
      && forall a, sz :: (r.open && r.acts != [] && Last(r.acts) == ARead(n, a, sz, None)) <==>
           s.cacheSim && ReadJustBefore(s, before, a, sz)
  {
    hide Begun, AllAdds, NextInstr, LastActive, Capped;
  }

  lemma GuardedAgrees(s: Sim, before: seq<Stmt>, r: Ref, st: Stmt)
    requires Agrees(s, before, r) && (st.StoreG? || st.LoadG? || st.Exit?) && Begun(before) > 0 && StmtOk(s, st)
    ensures Agrees(s, before + [st], Step(s, r, st))
  {
    hide *;
    AddsGuarded(s, before, st);
    Known(s, before, r);
    GuardedStep(s, r, st);
    if st.Exit? {
      ExitAdds(s, before, r, st);
    }
    ActsSame(s, before, r);
    NotOpen(st);
    StateAgrees(s, before, r, st, Step(s, r, st));
  }

  lemma NotOpen(st: Stmt)
    ensures OpenRead(st) <==> st.Load? || (st.Dirty? && st.fx == Reads)
  {
  }

  lemma GuardedStep(s: Sim, r: Ref, st: Stmt)
    requires r.info != [] && (st.StoreG? || st.LoadG? || st.Exit?) && (r.open ==> s.cacheSim)
    ensures var n, q := |r.info| - 1, Step(s, r, st);
      && q.info == r.info && !q.open
      && (st.StoreG? ==> q.acts == if s.cacheSim then r.acts + [AWrite(n, st.addrOf, st.size, Some(st.guard))] else r.acts)
      && (st.LoadG? ==> q.acts == if s.cacheSim then r.acts + [ARead(n, st.addrOf, st.size, Some(st.guard))] else r.acts)
      && (st.Exit? ==> q.acts == if s.branchSim && (st.jk == Boring || st.jk == Call || st.jk == Ret)
                                 then r.acts + [ACond(n, st.guard, Inverted(r.info[n], st.dst))] else r.acts)
  {
    hide Inverted;
  }

  lemma ExitAdds(s: Sim, before: seq<Stmt>, r: Ref, st: Stmt)
    requires st.Exit? && Begun(before) > 0 && |r.info| == Begun(before)
    requires Inverted(r.info[Begun(before) - 1], st.dst) <==> NextInstr(before) == st.dst
    ensures var n := Begun(before) - 1;
      ExitActs(s, n, before, st) == if s.branchSim && (st.jk == Boring || st.jk == Call || st.jk == Ret)
                                    then [ACond(n, st.guard, Inverted(r.info[n], st.dst))] else []
  {
    hide Inverted, NextInstr, Begun;
  }

  lemma ActsSame(s: Sim, before: seq<Stmt>, r: Ref)
    ensures r.acts + [] == r.acts
  {
  }

  lemma AddsGuarded(s: Sim, before: seq<Stmt>, st: Stmt)
    requires (st.StoreG? || st.LoadG? || st.Exit?) && Begun(before) > 0 && StmtOk(s, st)
    ensures Adds(s, before, st) ==
      if st.Exit? then ExitActs(s, Begun(before) - 1, before, st)
      else if !s.cacheSim then []
      else if st.StoreG? then [AWrite(Begun(before) - 1, st.addrOf, st.size, Some(st.guard))]
      else [ARead(Begun(before) - 1, st.addrOf, st.size, Some(st.guard))]
  {
    hide Begun, LastActive, NextInstr;
  }

  /** What is added by statements with unguarded accesses. */
  lemma AddsPlain(s: Sim, before: seq<Stmt>, st: Stmt)
    requires !st.IMark? && !st.Exit? && Begun(before) > 0
    ensures var n := Begun(before) - 1;
      Adds(s, before, st) == if s.cacheSim then ReadActs(s, n, st) + WriteActs(s, n, before, st) else []
  {
    hide Begun, LastActive, NextInstr, ReadActs, WriteActs;
    var n := Begun(before) - 1;
    assert ExitActs(s, n, before, st) == [];
    if s.cacheSim {
      assert ReadActs(s, n, st) + WriteActs(s, n, before, st) + [] == ReadActs(s, n, st) + WriteActs(s, n, before, st);
    }
  }

  lemma ReadAgrees(s: Sim, before: seq<Stmt>, r: Ref, st: Stmt)
    requires Agrees(s, before, r) && Begun(before) > 0 && StmtOk(s, st)
    requires st.Load? || st.LoadLinked? || (st.Dirty? && st.fx == Reads)
    ensures Agrees(s, before + [st], Step(s, r, st))
  {
    hide *;
    AddsPlain(s, before, st);
    Known(s, before, r);
    ReadOnly(s, Begun(before) - 1, before, st);
    ReadStep(s, r, st);
    NotOpen(st);
    ActsSame(s, before, r);
    StateAgrees(s, before, r, st, Step(s, r, st));
  }

  lemma ReadOnly(s: Sim, n: nat, before: seq<Stmt>, st: Stmt)
    requires st.Load? || st.LoadLinked? || (st.Dirty? && st.fx == Reads)
    ensures ReadActs(s, n, st) + WriteActs(s, n, before, st) == [ARead(n, st.addrOf, Capped(s, st.size), None)]
  {
  }

  lemma ReadStep(s: Sim, r: Ref, st: Stmt)
    requires r.info != [] && StmtOk(s, st) && (st.Load? || st.LoadLinked? || (st.Dirty? && st.fx == Reads))
    requires r.open ==> s.cacheSim
    ensures var n, q := |r.info| - 1, Step(s, r, st);
      && q.info == r.info && (q.open <==> s.cacheSim && !st.LoadLinked?)
      && (q.open ==> q.acts != [] && Last(q.acts) == ARead(n, st.addrOf, Capped(s, st.size), None))
      && q.acts == if s.cacheSim then r.acts + [ARead(n, st.addrOf, Capped(s, st.size), None)] else r.acts
  {
  }

  lemma WriteAgrees(s: Sim, before: seq<Stmt>, r: Ref, st: Stmt)
    requires Agrees(s, before, r) && Begun(before) > 0 && StmtOk(s, st)
    requires st.Store? || st.StoreCond? || (st.Dirty? && st.fx == Writes)
    ensures Agrees(s, before + [st], Step(s, r, st))
  {
    hide *;
    AddsPlain(s, before, st);
    Known(s, before, r);
    WriteOnly(s, Begun(before) - 1, before, st);
    WriteStep(s, r, st);
    NotOpen(st);
    ActsSame(s, before, r);
    StateAgrees(s, before, r, st, Step(s, r, st));
  }

  lemma WriteOnly(s: Sim, n: nat, before: seq<Stmt>, st: Stmt)
    requires st.Store? || st.StoreCond? || (st.Dirty? && st.fx == Writes)
    ensures ReadActs(s, n, st) + WriteActs(s, n, before, st)
      == if ReadJustBefore(s, before, st.addrOf, Capped(s, st.size)) then [] else [AWrite(n, st.addrOf, Capped(s, st.size), None)]
  {
    hide ReadJustBefore;
  }

  lemma WriteStep(s: Sim, r: Ref, st: Stmt)
    requires r.info != [] && StmtOk(s, st) && (st.Store? || st.StoreCond? || (st.Dirty? && st.fx == Writes))
    requires r.open ==> s.cacheSim
    ensures var n, q, sz := |r.info| - 1, Step(s, r, st), Capped(s, st.size);
      && q.info == r.info && !q.open
      && q.acts == if !s.cacheSim || (r.open && r.acts != [] && Last(r.acts) == ARead(n, st.addrOf, sz, None)) then r.acts
                   else r.acts + [AWrite(n, st.addrOf, sz, None)]
  {
  }

  lemma ModifyAgrees(s: Sim, before: seq<Stmt>, r: Ref, st: Stmt)
    requires Agrees(s, before, r) && Begun(before) > 0 && (st.Cas? || (st.Dirty? && st.fx == Modifies))
    ensures Agrees(s, before + [st], Step(s, r, st))
  {
    hide *;
    AddsPlain(s, before, st);
    Known(s, before, r);
    BothActs(s, Begun(before) - 1, before, st);
    Modified(s, r, st);
    NotOpen(st);
    ActsSame(s, before, r);
    StateAgrees(s, before, r, st, Step(s, r, st));
  }

  lemma BothActs(s: Sim, n: nat, before: seq<Stmt>, st: Stmt)
    requires st.Cas? || (st.Dirty? && st.fx == Modifies)
    ensures ReadBy(st).Some?
    ensures ReadActs(s, n, st) + WriteActs(s, n, before, st) == [ARead(n, st.addrOf, Capped(s, ReadBy(st).value.size), None)]
  {
    hide ReadJustBefore;
  }

  /** A write that follows its own read adds nothing. */
  lemma Modified(s: Sim, r: Ref, st: Stmt)
    requires r.info != [] && (st.Cas? || (st.Dirty? && st.fx == Modifies)) && (r.open ==> s.cacheSim)
    ensures var n, q := |r.info| - 1, Step(s, r, st);
      && q.info == r.info && !q.open
      && q.acts == if s.cacheSim then r.acts + [ARead(n, st.addrOf, Capped(s, ReadBy(st).value.size), None)] else r.acts
  {
  }

  /** One statement more. */
  lemma AgreesStep(s: Sim, before: seq<Stmt>, r: Ref, st: Stmt)
    requires Agrees(s, before, r) && (Begun(before) > 0 ==> StmtOk(s, st))
    ensures Agrees(s, before + [st], Step(s, r, st))
  {
    hide Agrees, Step, StmtOk, Begun;
    if st.IMark? {
      MarkAgrees(s, before, r, st);
    } else if st.Plain? || Begun(before) == 0 {
      SilentAgrees(s, before, r, st);
    } else if st.StoreG? || st.LoadG? || st.Exit? {
      GuardedAgrees(s, before, r, st);
    } else if st.Load? || st.LoadLinked? || (st.Dirty? && st.fx == Reads) {
      ReadAgrees(s, before, r, st);
    } else if st.Store? || st.StoreCond? || (st.Dirty? && st.fx == Writes) {
      WriteAgrees(s, before, r, st);
    } else {
      ModifyAgrees(s, before, r, st);
    }
  }

  /** The actions of a block are those that its statements add, one after the other. */
  lemma {:induction false} ActionsExactly(s: Sim, stmts: seq<Stmt>)
    requires StmtsOk(s, stmts)
    ensures RefAll(s, stmts).acts == AllAdds(s, stmts) && Agrees(s, stmts, RefAll(s, stmts))
  {
    hide Agrees, Step, AllAdds, StmtsOk;
    if stmts == [] {
      NoStmts(s);
    } else {
      OkBefore(s, stmts);
      ActionsExactly(s, Front(stmts));
      AgreesStep(s, Front(stmts), RefAll(s, Front(stmts)), Last(stmts));
      assert Front(stmts) + [Last(stmts)] == stmts;
    }
    AgreesActs(s, stmts, RefAll(s, stmts));
  }

  lemma AgreesActs(s: Sim, stmts: seq<Stmt>, r: Ref)
    requires Agrees(s, stmts, r)
    ensures r.acts == AllAdds(s, stmts)
  {
  }

  // ---------------------------------------------------------------- leaving a block

  /** No side exit is taken. */
  predicate NoExit(env: Env, stmts: seq<Stmt>) {
    forall i :: 0 <= i < |stmts| && stmts[i].Exit? ==> env.Val(stmts[i].guard) == 0
  }

  lemma {:induction false} RunThrough(s: Sim, env: Env, stmts: seq<Stmt>)
    requires StmtsOk(s, stmts) && NoExit(env, stmts)
    ensures RefRun(s, env, stmts) == (AllAdds(s, stmts), false)
  {
    hide Step, AllAdds, StmtsOk;
    if stmts == [] {
      NoAdds(s);
    } else {
      OkBefore(s, stmts);
      RunThrough(s, env, Front(stmts));
      ActionsExactly(s, stmts);
    }
  }

  lemma NoAdds(s: Sim)
    ensures AllAdds(s, []) == []
  {
  }

  /** After the first side exit that is taken nothing happens. */
  lemma {:induction false} RunStops(s: Sim, env: Env, before: seq<Stmt>, exit: Stmt, after: seq<Stmt>)
    requires StmtsOk(s, before + [exit]) && NoExit(env, before) && exit.Exit? && env.Val(exit.guard) != 0
    ensures RefRun(s, env, before + [exit] + after) == (AllAdds(s, before + [exit]), true)
  {
    hide StmtsOk, AllAdds, Step;
    var all := before + [exit] + after;
    if after == [] {
      OkBefore(s, before + [exit]);
      assert all == before + [exit] && all[..|all| - 1] == before && all[|all| - 1] == exit && Front(before + [exit]) == before;
      RunThrough(s, env, before);
      ActionsExactly(s, before + [exit]);
    } else {
      assert all[..|all| - 1] == before + [exit] + Front(after);
      RunStops(s, env, before, exit, Front(after));
    }
  }

  /** A block that is left at its end does what its statements add; then its jump to a computed address, other than a
      return, is one indirect branch of the last instruction. */
  lemma BlockExactly(s: Sim, env: Env, sb: Block)
    requires StmtsOk(s, sb.stmts) && NoExit(env, sb.stmts)
    ensures var n := Begun(sb.stmts);
      && (s.branchSim && n > 0 && sb.next.Tmp? && (sb.jumpkind == Boring || sb.jumpkind == Call) ==>
            RefBlock(s, env, sb) == (AllAdds(s, sb.stmts) + [AInd(n - 1, sb.next)], false))
      && (!s.branchSim || n == 0 || sb.next.Const? || sb.jumpkind == Ret || sb.jumpkind == OtherJump ==>
            RefBlock(s, env, sb) == (AllAdds(s, sb.stmts), false))
  {
    hide RefAll, AllAdds, StmtsOk, NoExit, Begun, RefRun;
    RunThrough(s, env, sb.stmts);
    ActionsExactly(s, sb.stmts);
    BegunIs(s, sb.stmts, RefAll(s, sb.stmts));
    EndsWith(AllAdds(s, sb.stmts));
    hide Agrees;
  }

  lemma EndsWith(acts: seq<Action>)
    ensures acts + [] == acts
  {
  }

  lemma BegunIs(s: Sim, stmts: seq<Stmt>, r: Ref)
    requires Agrees(s, stmts, r)
    ensures |r.info| == Begun(stmts)
  {
  }

  // ---------------------------------------------------------------- reads and writes one by one

  /** The statements from the first instruction on that read, in order, and where. */
  function AllReads(s: Sim, stmts: seq<Stmt>): seq<Action> {
    if stmts == [] then []
    else
      var n := Begun(Front(stmts));
      AllReads(s, Front(stmts)) + if n == 0 then [] else ReadActs(s, n - 1, Last(stmts))
  }

  function ReadsOf(acts: seq<Action>): seq<Action> {
    if acts == [] then [] else ReadsOf(Front(acts)) + if Last(acts).ARead? then [Last(acts)] else []
  }

  function WritesOf(acts: seq<Action>): seq<Action> {
    if acts == [] then [] else WritesOf(Front(acts)) + if Last(acts).AWrite? then [Last(acts)] else []
  }

  lemma {:induction false} OfAppend(a: seq<Action>, b: seq<Action>)
    ensures ReadsOf(a + b) == ReadsOf(a) + ReadsOf(b) && WritesOf(a + b) == WritesOf(a) + WritesOf(b)
  {
    if b == [] {
      assert a + b == a;
    } else {
      OfAppend(a, Front(b));
      assert Front(a + b) == a + Front(b) && Last(a + b) == Last(b);
    }
  }

  lemma OfOne(a: Action)
    ensures ReadsOf([a]) == (if a.ARead? then [a] else []) && WritesOf([a]) == if a.AWrite? then [a] else []
  {
    assert Front([a]) == [];
  }

  /** The statements that write, in order, but for writes that belong to a read. */
  function AllWrites(s: Sim, stmts: seq<Stmt>): seq<Action> {
    if stmts == [] then []
    else
      var n := Begun(Front(stmts));
      AllWrites(s, Front(stmts)) + if n == 0 then [] else WriteActs(s, n - 1, Front(stmts), Last(stmts))
  }

  lemma OfAdds(s: Sim, before: seq<Stmt>, st: Stmt)
    requires s.cacheSim
    ensures var n := Begun(before);
      && ReadsOf(Adds(s, before, st)) == (if n == 0 then [] else ReadActs(s, n - 1, st))
      && WritesOf(Adds(s, before, st)) == (if n == 0 then [] else WriteActs(s, n - 1, before, st))
  {
    var n := Begun(before);
    hide Begun, BelongsToRead, NextInstr, ReadsOf, WritesOf;
    OfNone();
    if st.IMark? {
      OfOne(AIr(n));
    } else if n > 0 {
      var r, w, x := ReadActs(s, n - 1, st), WriteActs(s, n - 1, before, st), ExitActs(s, n - 1, before, st);
      OfAppend(r + w, x);
      OfAppend(r, w);
      if r != [] { OfOne(r[0]); }
      if w != [] { OfOne(w[0]); }
      if x != [] { OfOne(x[0]); }
      Ends(ReadsOf(r));
      Ends(WritesOf(w));
    }
  }

  lemma OfNone()
    ensures ReadsOf([]) == [] && WritesOf([]) == []
  {
  }

  lemma Ends<T>(a: seq<T>)
    ensures a + [] == a && [] + a == a
  {
  }

  /** The read actions of a block are those of the statements that read, in order; and the write actions those of the
      statements that write, in order, without the writes that belong to a read. */
  lemma {:induction false} DataExactly(s: Sim, stmts: seq<Stmt>)
    requires s.cacheSim && StmtsOk(s, stmts)
    ensures var acts := RefAll(s, stmts).acts; ReadsOf(acts) == AllReads(s, stmts) && WritesOf(acts) == AllWrites(s, stmts)
  {
    ActionsExactly(s, stmts);
    DataOfAdds(s, stmts);
  }

  lemma {:induction false} DataOfAdds(s: Sim, stmts: seq<Stmt>)
    requires s.cacheSim
    ensures ReadsOf(AllAdds(s, stmts)) == AllReads(s, stmts) && WritesOf(AllAdds(s, stmts)) == AllWrites(s, stmts)
  {
    hide ReadsOf, WritesOf, Adds, ReadActs, WriteActs;
    if stmts == [] {
      OfNone();
    } else {
      DataOfAdds(s, Front(stmts));
      OfAppend(AllAdds(s, Front(stmts)), Adds(s, Front(stmts), Last(stmts)));
      OfAdds(s, Front(stmts), Last(stmts));
    }
  }

  /** One statement after others. */
  lemma AfterStmt(s: Sim, stmts: seq<Stmt>, st: Stmt)
    requires StmtsOk(s, stmts) && StmtOk(s, st)
    ensures var before, after := RefAll(s, stmts).acts, RefAll(s, stmts + [st]).acts;
      Agrees(s, stmts, RefAll(s, stmts)) && after == before + Adds(s, stmts, st)
  {
    hide *;
    ActionsExactly(s, stmts);
    AgreesStep(s, stmts, RefAll(s, stmts), st);
    RefMore(s, stmts, st);
    AgreesActs(s, stmts + [st], RefAll(s, stmts + [st]));
    OneMore(s, stmts, st);
  }

  lemma RefMore(s: Sim, stmts: seq<Stmt>, st: Stmt)
    ensures RefAll(s, stmts + [st]) == Step(s, RefAll(s, stmts), st)
  {
    hide Step;
    var all := stmts + [st];
    assert all[..|all| - 1] == stmts && all[|all| - 1] == st;
  }

  /** The read that a write belongs to. */
  lemma OpenBefore(s: Sim, stmts: seq<Stmt>, r: Ref, a: Atom, sz: nat)
    requires s.cacheSim && Agrees(s, stmts, r) && Begun(stmts) > 0 && ReadJustBefore(s, stmts, a, sz)
    ensures r.acts != [] && Last(r.acts) == ARead(Begun(stmts) - 1, a, sz, None)
  {
    hide *;
    Known(s, stmts, r);
  }

  lemma Belongs(s: Sim, stmts: seq<Stmt>, st: Stmt)
    requires WrittenBy(st).Some? && BelongsToRead(s, stmts, st)
    ensures var w := WrittenBy(st).value;
      && w.guard.None? && (ReadBy(st).None? ==> ReadJustBefore(s, stmts, w.addr, Capped(s, w.size)))
      && (ReadBy(st).Some? ==> ReadBy(st).value == w)
  {
    hide ReadJustBefore, Capped;
  }

  /** A write that is left out has the place of the read that the same instruction has just done. */
  lemma JoinedWrite(s: Sim, stmts: seq<Stmt>, st: Stmt)
    requires s.cacheSim && StmtsOk(s, stmts) && Begun(stmts) > 0 && StmtOk(s, st) && WrittenBy(st).Some?
    requires BelongsToRead(s, stmts, st)
    ensures var w, acts := WrittenBy(st).value, RefAll(s, stmts + [st]).acts;
      acts != [] && Last(acts) == ARead(Begun(stmts) - 1, w.addr, Capped(s, w.size), None)
  {
    hide *;
    var w := WrittenBy(st).value;
    AfterStmt(s, stmts, st);
    Belongs(s, stmts, st);
    AddedActs(s, stmts, st);
    LastAdded(RefAll(s, stmts).acts, Adds(s, stmts, st));
    if ReadBy(st).None? {
      OpenBefore(s, stmts, RefAll(s, stmts), w.addr, Capped(s, w.size));
    }
  }

  lemma LastAdded(acts: seq<Action>, adds: seq<Action>)
    ensures |adds| == 1 ==> acts + adds != [] && Last(acts + adds) == adds[0] == (acts + adds)[|acts|]
    ensures adds == [] ==> acts + adds == acts
    ensures acts <= acts + adds
  {
  }

  // ---------------------------------------------------------------- bytes

  /** A byte is touched: it lies in the range and the guard holds. */
  predicate Touches(env: Env, t: Touch, byte: nat) {
    (t.guard.None? || env.Val(t.guard.value) != 0) && env.Val(t.addr) <= byte < env.Val(t.addr) + t.size
  }

  /** An action is for exactly the bytes of a touch. */
  ghost predicate Covers(env: Env, a: Action, t: Touch) {
    (a.ARead? || a.AWrite?) && forall byte: nat :: Touches(env, Touch(a.ea, a.szB, a.guard), byte) <==> Touches(env, t, byte)
  }

  /** If no access is longer than a line, every byte that a statement reads is covered by a read action of its own, and
      every byte that it writes by a write action of its own or by a read that its instruction has just done. */
  lemma NoByteMissed(s: Sim, env: Env, stmts: seq<Stmt>, st: Stmt)
    requires s.cacheSim && StmtsOk(s, stmts) && Begun(stmts) > 0 && StmtOk(s, st)
    requires ReadBy(st).Some? ==> ReadBy(st).value.size <= s.minLine
    requires WrittenBy(st).Some? ==> WrittenBy(st).value.size <= s.minLine
    ensures var n, before, after := Begun(stmts) - 1, RefAll(s, stmts).acts, RefAll(s, stmts + [st]).acts;
      && before <= after
      && (ReadBy(st).Some? ==> |after| > |before| && after[|before|].ARead? && after[|before|].n == n
                               && Covers(env, after[|before|], ReadBy(st).value))
      && (WrittenBy(st).Some? ==> after != [] && Last(after).n == n && Covers(env, Last(after), WrittenBy(st).value))
      && (WrittenBy(st).Some? && ReadBy(st).None? ==>
            if BelongsToRead(s, stmts, st) then after == before else |after| == |before| + 1 && Last(after).AWrite?)
  {
    hide *;
    AfterStmt(s, stmts, st);
    AddedActs(s, stmts, st);
    LastAdded(RefAll(s, stmts).acts, Adds(s, stmts, st));
    if ReadBy(st).Some? {
      CoversRead(s, env, Begun(stmts) - 1, ReadBy(st).value);
    }
    if WrittenBy(st).Some? {
      CoversRead(s, env, Begun(stmts) - 1, WrittenBy(st).value);
      if BelongsToRead(s, stmts, st) {
        JoinedWrite(s, stmts, st);
        Belongs(s, stmts, st);
      } else {
        NotJoined(s, stmts, st);
      }
    }
  }

  lemma NotJoined(s: Sim, stmts: seq<Stmt>, st: Stmt)
    requires WrittenBy(st).Some? && !BelongsToRead(s, stmts, st)
    ensures ReadBy(st).None?
  {
    hide ReadJustBefore;
  }

  lemma CoversRead(s: Sim, env: Env, n: nat, t: Touch)
    requires t.size <= s.minLine
    ensures Covers(env, ARead(n, t.addr, Capped(s, t.size), t.guard), t)
    ensures Covers(env, AWrite(n, t.addr, Capped(s, t.size), t.guard), t)
  {
  }

  /** What a statement adds, at most one read and one write. */
  lemma AddedActs(s: Sim, before: seq<Stmt>, st: Stmt)
    requires s.cacheSim && Begun(before) > 0
    ensures var n, adds := Begun(before) - 1, Adds(s, before, st);
      && (ReadBy(st).Some? ==>
            var t := ReadBy(st).value; |adds| == 1 && adds[0] == ARead(n, t.addr, Capped(s, t.size), t.guard))
      && (WrittenBy(st).Some? && ReadBy(st).None? ==>
            var t := WrittenBy(st).value;
            adds == if BelongsToRead(s, before, st) then [] else [AWrite(n, t.addr, Capped(s, t.size), t.guard)])
  {
    hide Begun, NextInstr, ReadJustBefore;
  }
}
