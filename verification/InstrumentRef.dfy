/**
 What instrumenting a block is for: the reference semantics of `cg_instrument`.  Each
 statement posts its memory and branch events; a write that directly follows a read of the
 same place by the same instruction is part of it.  No queue, no batching, no fast path.
*/
module InstrumentRef {
  import opened Common
  import opened CacheSim
  import opened InstrumentModel

  /** The actions posted so far, whether the last one is a read that a write may still join, and the
      instructions seen. */
  datatype Ref = Ref(acts: seq<Action>, open: bool, info: seq<InstrInfo>)

  function PostRead(s: Sim, r: Ref, ea: Atom, szB: nat): (q: Ref)
    requires r.info != []
    ensures q.info == r.info
  {
    if s.cacheSim then r.(acts := r.acts + [ARead(|r.info| - 1, ea, szB, None)], open := true) else r
  }

  function PostWrite(s: Sim, r: Ref, ea: Atom, szB: nat): (q: Ref)
    requires r.info != []
    ensures q.info == r.info
  {
    var n := |r.info| - 1;
    if !s.cacheSim then r
    else if r.open && r.acts != [] && r.acts[|r.acts| - 1] == ARead(n, ea, szB, None) then r.(open := false)
    else r.(acts := r.acts + [AWrite(n, ea, szB, None)], open := false)
  }

  function PostOther(r: Ref, a: Action): Ref {
    r.(acts := r.acts + [a], open := false)
  }

  function Min(a: nat, b: nat): nat { if a <= b then a else b }

  const MIN_INSTR := 1
  const MAX_INSTR := 16
  const CLIENT_REQ := 19

  function InstrLen(len: nat): nat { if len == 0 then MIN_INSTR else len }

  predicate IsBranch(jk: JumpKind) { jk.Boring? || jk.Call? || jk.Ret? }

  /** Whether the optimiser has inverted a side exit: it then leads to the next instruction. */
  function Inverted(ii: InstrInfo, dst: nat): bool { (ii.addr + ii.len) % ADDR_SPACE == dst }

  /** The events of one statement.  Whatever precedes the first instruction mark posts nothing. */
  function Step(s: Sim, r: Ref, st: Stmt): Ref {
    if st.IMark? then
      Ref(r.acts + [AIr(|r.info|)], false, r.info + [InstrInfo(st.addr, InstrLen(st.len))])
    else if r.info == [] then r
    else
      var n := |r.info| - 1;
      match st
      case Plain(_) => r
      case Load(_, a, sz) => PostRead(s, r, a, sz)
      case Store(a, sz, _) => PostWrite(s, r, a, sz)
      case StoreG(a, sz, g, _) => if s.cacheSim then PostOther(r, AWrite(n, a, sz, Some(g))) else r
      case LoadG(a, sz, g, _) => if s.cacheSim then PostOther(r, ARead(n, a, sz, Some(g))) else r
      case Dirty(fx, a, sz, _) =>
        var r1 := if fx.Writes? then r else PostRead(s, r, a, Min(sz, s.minLine));
        if fx.Reads? then r1 else PostWrite(s, r1, a, Min(sz, s.minLine))
      case Cas(a, sz, double, _) =>
        var sz' := Min(if double then 2 * sz else sz, s.minLine);
        PostWrite(s, PostRead(s, r, a, sz'), a, sz')
      case LoadLinked(a, sz, _) => PostRead(s, r, a, sz).(open := false)
      case StoreCond(a, sz, _) => PostWrite(s, r, a, sz)
      case Exit(g, jk, dst) =>
        if IsBranch(jk) && s.branchSim then PostOther(r, ACond(n, g, Inverted(r.info[n], dst)))
        else r.(open := false)
  }

  function RefAll(s: Sim, stmts: seq<Stmt>): Ref {
    if stmts == [] then Ref([], false, []) else Step(s, RefAll(s, stmts[..|stmts| - 1]), stmts[|stmts| - 1])
  }

  function Fetches(acts: seq<Action>): nat {
    if acts == [] then 0 else Fetches(acts[..|acts| - 1]) + if acts[|acts| - 1].AIr? then 1 else 0
  }

  lemma FetchesPost(acts: seq<Action>, a: Action)
    ensures Fetches(acts + [a]) == Fetches(acts) + if a.AIr? then 1 else 0
  {
    assert (acts + [a])[..|acts|] == acts;
  }

  /** Data accesses are no fetches. */
  lemma FetchesData(s: Sim, r: Ref, ea: Atom, szB: nat)
    requires r.info != []
    ensures Fetches(PostRead(s, r, ea, szB).acts) == Fetches(r.acts)
    ensures Fetches(PostWrite(s, r, ea, szB).acts) == Fetches(r.acts)
  {
    FetchesPost(r.acts, ARead(|r.info| - 1, ea, szB, None));
    FetchesPost(r.acts, AWrite(|r.info| - 1, ea, szB, None));
  }

  lemma FetchesModify(s: Sim, r: Ref, ea: Atom, szB: nat)
    requires r.info != []
    ensures Fetches(PostWrite(s, PostRead(s, r, ea, szB), ea, szB).acts) == Fetches(r.acts)
  {
    FetchesData(s, r, ea, szB);
    FetchesData(s, PostRead(s, r, ea, szB), ea, szB);
  }

  lemma FetchesOther(r: Ref, a: Action)
    requires !a.AIr?
    ensures Fetches(PostOther(r, a).acts) == Fetches(r.acts)
  {
    FetchesPost(r.acts, a);
  }

  /** Guarded accesses and exits are no fetches. */
  lemma FetchesGuarded(s: Sim, r: Ref, st: Stmt)
    requires r.info != [] && (st.StoreG? || st.LoadG? || st.Exit?)
    ensures Fetches(Step(s, r, st).acts) == Fetches(r.acts) && Step(s, r, st).info == r.info
  {
    var n := |r.info| - 1;
    hide Fetches;
    match st
    case StoreG(a, sz, g, _) => FetchesOther(r, AWrite(n, a, sz, Some(g)));
    case LoadG(a, sz, g, _) => FetchesOther(r, ARead(n, a, sz, Some(g)));
    case Exit(g, jk, dst) => FetchesOther(r, ACond(n, g, Inverted(r.info[n], dst)));
  }

  /** Nor are accesses of several kinds. */
  lemma FetchesMixed(s: Sim, r: Ref, st: Stmt)
    requires r.info != [] && (st.Dirty? || st.Cas?)
    ensures Fetches(Step(s, r, st).acts) == Fetches(r.acts) && Step(s, r, st).info == r.info
  {
    hide Fetches, PostRead, PostWrite, Min;
    match st
    case Dirty(_, a, sz, _) =>
      FetchesData(s, r, a, Min(sz, s.minLine));
      FetchesModify(s, r, a, Min(sz, s.minLine));
    case Cas(a, sz, double, _) => FetchesModify(s, r, a, Min(if double then 2 * sz else sz, s.minLine));
  }

  /** Nor are plain accesses. */
  lemma FetchesPlain(s: Sim, r: Ref, st: Stmt)
    requires r.info != [] && (st.Plain? || st.Load? || st.Store? || st.LoadLinked? || st.StoreCond?)
    ensures Fetches(Step(s, r, st).acts) == Fetches(r.acts) && Step(s, r, st).info == r.info
  {
    hide Fetches, PostRead, PostWrite, Min;
    match st
    case Plain(_) =>
    case Load(_, a, sz) => FetchesData(s, r, a, sz);
    case Store(a, sz, _) => FetchesData(s, r, a, sz);
    case LoadLinked(a, sz, _) => FetchesData(s, r, a, sz);
    case StoreCond(a, sz, _) => FetchesData(s, r, a, sz);
  }

  lemma FetchesMark(s: Sim, r: Ref, st: Stmt)
    requires st.IMark?
    ensures Fetches(Step(s, r, st).acts) == Fetches(r.acts) + 1 && |Step(s, r, st).info| == |r.info| + 1
  {
    FetchesPost(r.acts, AIr(|r.info|));
  }

  lemma FetchesBefore(s: Sim, r: Ref, st: Stmt)
    requires r.info == [] && !st.IMark?
    ensures Step(s, r, st) == r
  {
  }

  lemma FetchesStep(s: Sim, r: Ref, st: Stmt)
    ensures Fetches(Step(s, r, st).acts) - Fetches(r.acts) == |Step(s, r, st).info| - |r.info|
  {
    hide Step, Fetches;
    if st.IMark? {
      FetchesMark(s, r, st);
    } else if r.info == [] {
      FetchesBefore(s, r, st);
    } else if st.StoreG? || st.LoadG? || st.Exit? {
      FetchesGuarded(s, r, st);
    } else if st.Dirty? || st.Cas? {
      FetchesMixed(s, r, st);
    } else {
      FetchesPlain(s, r, st);
    }
  }

  /** Every instruction is fetched exactly once, whatever else it does. */
  lemma {:induction false} OneFetchEach(s: Sim, stmts: seq<Stmt>)
    ensures Fetches(RefAll(s, stmts).acts) == |RefAll(s, stmts).info|
  {
    if stmts != [] {
      OneFetchEach(s, stmts[..|stmts| - 1]);
      FetchesStep(s, RefAll(s, stmts[..|stmts| - 1]), stmts[|stmts| - 1]);
    }
  }

  predicate ExitTaken(env: Env, st: Stmt) { st.Exit? && env.Val(st.guard) != 0 }

  /** The actions of a run, up to and including the first side exit that is taken. */
  function RefRun(s: Sim, env: Env, stmts: seq<Stmt>): (seq<Action>, bool) {
    if stmts == [] then ([], false)
    else
      var before := RefRun(s, env, stmts[..|stmts| - 1]);
      if before.1 then before else (RefAll(s, stmts).acts, ExitTaken(env, stmts[|stmts| - 1]))
  }

  /** The indirect branch that ends a block, if it counts as one. */
  function Ending(s: Sim, sb: Block): seq<Action> {
    var info := RefAll(s, sb.stmts).info;
    if s.branchSim && (sb.jumpkind.Boring? || sb.jumpkind.Call?) && sb.next.Tmp? && info != []
    then [AInd(|info| - 1, sb.next)] else []
  }

  function RefBlock(s: Sim, env: Env, sb: Block): (seq<Action>, bool) {
    var (acts, stopped) := RefRun(s, env, sb.stmts);
    if stopped then (acts, true) else (acts + Ending(s, sb), false)
  }

  /** What the pass demands of the statements from the first instruction mark on. */
  predicate StmtOk(s: Sim, st: Stmt) {
    match st
    case IMark(_, len) => MIN_INSTR <= InstrLen(len) <= MAX_INSTR || len == CLIENT_REQ
    case Load(_, _, sz) => 1 <= sz <= s.minLine
    case Store(_, sz, _) => 1 <= sz <= s.minLine
    case StoreG(_, sz, _, _) => 1 <= sz <= s.minLine
    case LoadG(_, sz, _, _) => 1 <= sz <= s.minLine
    case LoadLinked(_, sz, _) => 1 <= sz <= s.minLine
    case StoreCond(_, sz, _) => 1 <= sz <= s.minLine
    case Dirty(_, _, sz, _) => sz != 0
    case Cas(_, sz, _, _) => sz != 0
    case _ => true
  }

  ghost predicate BlockOk(s: Sim, sb: Block) {
    && (exists i :: 0 <= i < |sb.stmts| && sb.stmts[i].IMark?)
    && forall i, j :: 0 <= j <= i < |sb.stmts| && sb.stmts[j].IMark? ==> StmtOk(s, sb.stmts[i])
  }

  // ---------------------------------------------------------------- the output block

  /** The statements that were there before. */
  function Erase(out: seq<OutStmt>): seq<Stmt> {
    if out == [] then []
    else
      var rest := Erase(out[..|out| - 1]);
      match out[|out| - 1] case Copied(st) => rest + [st] case _ => rest
  }

  /** All actions of the helper calls in a piece of output. */
  function Acts(out: seq<OutStmt>): seq<Action> {
    if out == [] then []
    else
      var rest := Acts(out[..|out| - 1]);
      match out[|out| - 1] case Insert(h) => rest + Expand(h) case _ => rest
  }

  /** The actions of the calls reached in a run, and whether a side exit ended it. */
  function Reach(env: Env, out: seq<OutStmt>): (seq<Action>, bool) {
    if out == [] then ([], false)
    else
      var rest := Reach(env, out[..|out| - 1]);
      if rest.1 then rest
      else
        match out[|out| - 1]
        case Insert(h) => (rest.0 + Expand(h), false)
        case Copied(st) => (rest.0, ExitTaken(env, st))
        case Widen(_, _) => rest
  }

  /** Executing the output block. */
  function RunOut(s: Sim, info: seq<InstrInfo>, env: Env, m: Machine, out: seq<OutStmt>): (r: (Machine, bool))
    requires s.Ok() && m.Ok() && OutOk(s, info, out)
    ensures r.0.Ok()
  {
    if out == [] then (m, false)
    else
      var rest := RunOut(s, info, env, m, out[..|out| - 1]);
      if rest.1 then rest
      else
        match out[|out| - 1]
        case Insert(h) => (RunHelper(s, info, env, rest.0, h), false)
        case Copied(st) => (rest.0, ExitTaken(env, st))
        case Widen(_, _) => rest
  }

  ghost predicate OutOk(s: Sim, info: seq<InstrInfo>, out: seq<OutStmt>)
    requires s.Ok()
  {
    forall i :: 0 <= i < |out| && out[i].Insert? ==> HelperOk(s, info, out[i].call)
  }

  /** Executing the output block does what the reached actions do one at a time. */
  lemma {:induction false} RunOutIsReach(s: Sim, info: seq<InstrInfo>, env: Env, m: Machine, out: seq<OutStmt>)
    requires s.Ok() && m.Ok() && OutOk(s, info, out)
    ensures ActionsIn(Reach(env, out).0, |info|)
    ensures RunOut(s, info, env, m, out) == (RunActions(s, info, env, m, Reach(env, out).0), Reach(env, out).1)
  {
    if out != [] {
      var front := out[..|out| - 1];
      RunOutIsReach(s, info, env, m, front);
      var (m1, stopped) := RunOut(s, info, env, m, front);
      if !stopped && out[|out| - 1].Insert? {
        var h := out[|out| - 1].call;
        HelperIsActions(s, info, env, m1, h);
        RunAppend(s, info, env, m, Reach(env, front).0, Expand(h));
      }
    }
  }

  /** Inserted statements only. */
  predicate AllInserted(out: seq<OutStmt>) {
    forall i :: 0 <= i < |out| ==> !out[i].Copied?
  }

  lemma ActsSnoc(out: seq<OutStmt>, x: OutStmt)
    requires !x.Copied?
    ensures Acts(out + [x]) == Acts(out) + (if x.Insert? then Expand(x.call) else [])
    ensures Erase(out + [x]) == Erase(out)
  {
    assert (out + [x])[..|out|] == out;
  }

  lemma {:induction false} ActsAppend(out: seq<OutStmt>, ins: seq<OutStmt>)
    requires AllInserted(ins)
    ensures Acts(out + ins) == Acts(out) + Acts(ins) && Erase(out + ins) == Erase(out)
  {
    hide *;
    if ins == [] {
      NoActs();
      assert out + ins == out;
    } else {
      var front, x := ins[..|ins| - 1], ins[|ins| - 1];
      LastInserted(ins);
      ActsAppend(out, front);
      assert out + ins == out + front + [x] && ins == front + [x];
      ActsSnoc(out + front, x);
      ActsSnoc(front, x);
      Assoc(Acts(out), Acts(front), if x.Insert? then Expand(x.call) else []);
    }
  }

  lemma NoActs()
    ensures Acts([]) == []
  {
  }

  lemma LastInserted(ins: seq<OutStmt>)
    requires AllInserted(ins) && ins != []
    ensures AllInserted(ins[..|ins| - 1]) && !ins[|ins| - 1].Copied?
  {
  }

  lemma ReachSnoc(env: Env, out: seq<OutStmt>, x: OutStmt)
    requires !x.Copied?
    ensures Reach(env, out + [x]) == if Reach(env, out).1 || !x.Insert? then Reach(env, out)
                                     else (Reach(env, out).0 + Expand(x.call), false)
  {
    assert (out + [x])[..|out|] == out;
  }

  lemma {:induction false} ReachAppend(env: Env, out: seq<OutStmt>, ins: seq<OutStmt>)
    requires AllInserted(ins)
    ensures Reach(env, out).1 ==> Reach(env, out + ins) == Reach(env, out)
    ensures !Reach(env, out).1 ==> Reach(env, out + ins) == (Reach(env, out).0 + Acts(ins), false)
  {
    var r := Reach(env, out);
    if ins == [] {
      assert out + ins == out;
      assert r.0 + [] == r.0 && r == (r.0, r.1);
    } else {
      var front, x := ins[..|ins| - 1], ins[|ins| - 1];
      ReachAppend(env, out, front);
      assert out + ins == out + front + [x];
      ReachSnoc(env, out + front, x);
      if x.Insert? {
        Assoc(r.0, Acts(front), Expand(x.call));
      }
    }
  }

  lemma Assoc(a: seq<Action>, b: seq<Action>, c: seq<Action>)
    ensures a + b + c == a + (b + c)
  {
  }

  lemma AppendCopied(env: Env, out: seq<OutStmt>, st: Stmt)
    ensures Acts(out + [Copied(st)]) == Acts(out) && Erase(out + [Copied(st)]) == Erase(out) + [st]
    ensures Reach(env, out + [Copied(st)])
      == if Reach(env, out).1 then Reach(env, out) else (Reach(env, out).0, ExitTaken(env, st))
  {
    assert (out + [Copied(st)])[..|out|] == out;
  }
}
