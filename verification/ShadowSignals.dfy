/**
 Signal handlers leave the interrupted execution as it was: whatever a handler does between
 `pre_signal` and `post_signal`, the state, the call stack and the function stack come back.
*/
module ShadowSignals {
  import opened Common
  import opened ShadowModel
  import opened ShadowProof
  import opened ShadowRuns

  /** The number of markers on a function stack. */
  function Zeros(fns: seq<Fn>): nat {
    if fns == [] then 0 else Zeros(Front(fns)) + if Last(fns) == 0 then 1 else 0
  }

  lemma {:induction false} ZerosBelow(fns: seq<Fn>)
    requires fns != [] && fns[0] == 0
    ensures Zeros(fns) == Zeros(fns[..LastZero(fns)]) + 1
  {
    if Last(fns) != 0 {
      ZerosBelow(Front(fns));
      assert Front(fns)[..LastZero(fns)] == fns[..LastZero(fns)];
    }
  }

  /** There is one marker for each execution state. */
  lemma {:induction false} ZerosAre(states: seq<Exec>, e: Exec, frames: seq<Frame>, fns: seq<Fn>, strong: bool)
    requires PartsOk(states, e, frames, fns, strong)
    ensures Zeros(fns) == |states|
    decreases |states|
  {
    ZerosBelow(fns);
    var m := LastZero(fns);
    if |states| > 1 {
      ZerosAre(Front(states), states[|states| - 2], frames[..Last(states).bottom], fns[..m], strong);
    } else {
      assert fns[..0] == [];
    }
  }

  lemma {:induction false} BottomsUp(states: seq<Exec>, e: Exec, frames: seq<Frame>, fns: seq<Fn>, strong: bool, i: nat)
    requires PartsOk(states, e, frames, fns, strong) && i < |states|
    ensures states[i].bottom <= Last(states).bottom
    decreases |states|
  {
    if i < |states| - 1 {
      BottomsUp(Front(states), states[|states| - 2], frames[..Last(states).bottom], fns[..LastZero(fns)], strong, i);
    }
  }

  /** `s` is reached inside a handler that has interrupted `s0`, and has left what it interrupted alone. */
  ghost predicate Above(s0: State, s: State) {
    && s0.states != [] && |s.states| > |s0.states|
    && s.states[..|s0.states|] == Save(s0).states && s.states[|s0.states|].bottom == |s0.frames|
    && |s.frames| >= |s0.frames| && s.frames[..|s0.frames|] == s0.frames
    && |s.fns| > |s0.fns| && s.fns[..|s0.fns|] == s0.fns && s.fns[|s0.fns|] == 0
    && |s.costs| > |s0.costs| == |s0.states| && s.costs[..|s0.costs|] == s0.costs
    && Zeros(s0.fns) == |s0.states|
  }

  /** The part of the stacks in use lies above what was interrupted. */
  lemma AboveTop(s0: State, s: State)
    requires Above(s0, s) && Inv(s, false)
    ensures Last(s.states).bottom >= |s0.frames| && LastZero(s.fns) >= |s0.fns|
    ensures |s.states| > |s0.states| + 1 ==> LastZero(s.fns) > |s0.fns|
    ensures |s.states| == |s0.states| + 1 ==> LastZero(s.fns) == |s0.fns|
  {
    BottomsUp(s.states, s.cur, s.frames, s.fns, false, |s0.states|);
    ZerosAre(s.states, s.cur, s.frames, s.fns, false);
    ZerosBelow(s.fns);
    var m, t := LastZero(s.fns), |s0.fns|;
    if m == t {
      assert s.fns[..m] == s0.fns;
    } else {
      ZerosSplit(s.fns[..m], t);
      assert s.fns[..m][..t] == s0.fns;
    }
  }

  lemma {:induction false} ZerosSplit(fns: seq<Fn>, t: nat)
    requires t < |fns| && fns[t] == 0
    ensures Zeros(fns) > Zeros(fns[..t])
  {
    if t < |fns| - 1 {
      ZerosSplit(Front(fns), t);
      assert Front(fns)[..t] == fns[..t];
    }
  }

  lemma AbovePopFrame(c: Conf, s0: State, s: State)
    requires Above(s0, s) && Inv(s, false) && |s.frames| > Last(s.states).bottom
    ensures Above(s0, PopFrame(c, s))
  {
    hide PartsOk, PopFrame;
    TopPart(s, false);
    AboveTop(s0, s);
    var t := |s0.fns|;
    if Last(s.frames).jcc.Some? {
      PopFrameFns(s, false);
      assert s.fns[..Last(s.frames).fnSp + 1][..t] == s.fns[..t];
    }
    PopParts(c, s);
    assert Front(s.frames)[..|s0.frames|] == s.frames[..|s0.frames|];
  }

  lemma {:induction false} AboveToBottom(c: Conf, s0: State, s: State)
    requires Above(s0, s) && Inv(s, false)
    ensures Above(s0, ToBottom(c, s))
    decreases |s.frames|
  {
    if |s.frames| > Last(s.states).bottom {
      AbovePopFrame(c, s0, s);
      InvPopFrame(c, s, false);
      AboveToBottom(c, s0, PopFrame(c, s));
    }
  }

  lemma AbovePostSignal(c: Conf, s0: State, s: State)
    requires Above(s0, s) && Inv(s, false) && |s.states| > |s0.states| + 1
    ensures Above(s0, PostSignal(c, s))
  {
    hide PartsOk, Inv, PopFrame;
    var u := ToBottom(c, s);
    AboveToBottom(c, s0, s);
    InvToBottom(c, s, false);
    AboveTop(s0, u);
    TopPart(u, false);
    DropPart(u, false);
    var m, t := LastZero(u.fns), |s0.fns|;
    assert u.fns[..m][..t] == u.fns[..t];
    assert Front(u.states)[..|s0.states|] == u.states[..|s0.states|];
    assert |u.costs| == |u.states| by { InvCosts(u); }
    assert Front(u.costs)[..|s0.costs|] == u.costs[..|s0.costs|];
  }

  lemma InvCosts(s: State)
    requires Inv(s, false)
    ensures |s.costs| == |s.states| && s.cur.cost == |s.states| - 1
  {
  }

  lemma AbovePop(c: Conf, s0: State, s: State)
    requires Above(s0, s) && Inv(s, false) && PopOk(s) && |Pop(c, s).states| > |s0.states|
    ensures Above(s0, Pop(c, s))
  {
    hide PartsOk;
    InvLeaveAtBottom(c, s, false);
    if s.cur.sig > 0 && |s.frames| == Last(s.states).bottom {
      AbovePostSignal(c, s0, s);
    }
    AbovePopFrame(c, s0, LeaveAtBottom(c, s));
  }

  lemma {:induction false} AboveUnwind(c: Conf, s0: State, s: State, sp: nat, minpops: int)
    requires Above(s0, s) && Inv(s, false) && UnwindOk(c, s, sp, minpops)
    requires |Unwind(c, s, sp, minpops).states| > |s0.states|
    ensures Above(s0, Unwind(c, s, sp, minpops))
    decreases |s.frames|
  {
    if Passed(s, sp, minpops) {
      hide Pop;
      InvPop(c, s, false);
      OnlyFewer(c, Pop(c, s), sp, minpops - 1);
      AbovePop(c, s0, s);
      AboveUnwind(c, s0, Pop(c, s), sp, minpops - 1);
    }
  }

  lemma {:induction false} OnlyFewer(c: Conf, s: State, sp: nat, minpops: int)
    requires s.states != []
    ensures |Unwind(c, s, sp, minpops).states| <= |s.states|
    decreases |s.frames|
  {
    if Passed(s, sp, minpops) {
      OnlyFewer(c, Pop(c, s), sp, minpops - 1);
    }
  }

  lemma AboveUnderflow(c: Conf, s0: State, s: State, caller: Fn, g: Found)
    requires Above(s0, s) && QInv(s, false) && NoCall(s) && s.cur.bbcc.Some? && caller != 0
    ensures Above(s0, Pop(c, Underflow(c, s, caller, g)))
  {
    hide PartsOk, Pop, Underflow;
    TopPart(s, false);
    AboveTop(s0, s);
    NoCallTop(s, false);
    UnderflowParts(c, s, caller, g);
    assert (Front(s.fns) + [caller])[..|s0.fns|] == s.fns[..|s0.fns|];
  }

  lemma AboveArrive(c: Conf, s0: State, s: State, bb: Bb, sp: nat, g: Found)
    requires Above(s0, s) && QInv(s, false) && bb.fn != 0 && ArriveOk(c, s, bb, sp, false)
    requires |Arrive(c, s, bb, sp, g).states| > |s0.states|
    ensures Above(s0, Arrive(c, s, bb, sp, g))
  {
    hide PartsOk, Pop, Underflow;
    if IsReturn(s, bb, sp) {
      if NoCall(s) {
        AboveUnderflow(c, s0, s, bb.fn, g);
      } else {
        AboveUnwind(c, s0, s, sp, ReturnPops(s, bb, sp));
      }
    } else {
      var o := PopOnJump(c, s, bb, sp);
      TopPart(s, false);
      InvPopOnJump(c, s, bb, sp, false);
      OnlyFewer(c, o.state, o.sp, 0);
      if o.state != s {
        var from := Some(Last(s.frames).jcc.value.from);
        PopIgnoresBbcc(c, s, from, false);
        AbovePop(c, s0, s.(cur := s.cur.(bbcc := from)));
      }
      AboveUnwind(c, s0, o.state, o.sp, 0);
    }
  }

  lemma EnterAppends(c: Conf, s: State, o: Origin, sp: nat, bbcc: Bbcc, skip: bool)
    ensures var r := Enter(c, s, o, sp, bbcc, skip);
      r.frames != [] && r.frames == s.frames + [Last(r.frames)] && r.fns == s.fns && r.states == s.states && r.costs == s.costs
  {
  }

  lemma SettleAppends(c: Conf, s: State, bb: Bb, calls: bool, skip: bool, o: Origin, sp: nat, id: nat)
    requires s.fns != []
    ensures var r := Settle(c, s, bb, calls, skip, o, sp, id);
      s.frames <= r.frames && s.fns <= r.fns && r.states == s.states && r.costs == s.costs
  {
    hide Enter, Choose;
    var s1 := if (calls && !skip) || s.cur.cxt.None? then PushCxt(s, bb.fn, id) else s;
    if s1.cur.cxt.Some? && calls {
      var (a, bbcc) := Choose(c, s1, bb, calls && !skip);
      EnterAppends(c, s1.(active := a), o, sp, bbcc, skip);
    }
  }

  lemma AboveLonger(s0: State, s: State, r: State)
    requires Above(s0, s) && s.frames <= r.frames && s.fns <= r.fns && r.states == s.states && r.costs == s.costs
    ensures Above(s0, r)
  {
    hide Save, Zeros;
    assert r.fns[..|s0.fns|] == s.fns[..|s0.fns|] && r.frames[..|s0.frames|] == s.frames[..|s0.frames|];
  }

  /** Entering functions only adds to the stacks. */
  lemma AboveSettle(c: Conf, s0: State, s: State, bb: Bb, calls: bool, skip: bool, o: Origin, sp: nat, id: nat)
    requires Above(s0, s)
    ensures Above(s0, Settle(c, s, bb, calls, skip, o, sp, id))
  {
    hide Settle, Save, Zeros;
    SettleAppends(c, s, bb, calls, skip, o, sp, id);
    AboveLonger(s0, s, Settle(c, s, bb, calls, skip, o, sp, id));
  }

  lemma AbovePreSignal(c: Conf, s0: State, s: State, sig: nat)
    requires Above(s0, s) && Inv(s, false)
    ensures Above(s0, PreSignal(c, s, sig))
  {
    var r, n := PreSignal(c, s, sig), |s0.states|;
    assert r.states[..n] == s.states[..n];
    assert r.fns[..|s0.fns|] == s.fns[..|s0.fns|];
    assert r.costs[..|s0.costs|] == s.costs[..|s0.costs|];
  }

  lemma AboveStep(c: Conf, s0: State, s: State, op: Op)
    requires Above(s0, s) && QInv(s, false) && Enabled(s, op) && Clean(c, s, op, false)
    requires |Step(c, s, op).states| > |s0.states|
    ensures Above(s0, Step(c, s, op))
  {
    hide PartsOk, PostSignal, PreSignal, Settle;
    match op
    case Block(bb, sp, g) =>
      var s1, o, calls := Arrive(c, s, bb, sp, g), PopOnJump(c, s, bb, sp), Calls(c, s, bb, sp);
      InvArrive(c, s, bb, sp, g, false);
      TopPart(s1, false);
      var sp' := if Emulated(s, bb, sp) && s1.frames != [] then Last(s1.frames).sp else o.sp;
      SettleStates(c, s1, bb, calls, bb.fn in c.skip, o, sp', g.entered);
      AboveArrive(c, s0, s, bb, sp, g);
      AboveSettle(c, s0, s1, bb, calls, bb.fn in c.skip, o, sp', g.entered);
    case Leave(jmp) =>
    case Spend(n) =>
      var r := Step(c, s, op);
      assert r.costs[..|s0.costs|] == s.costs[..|s0.costs|];
    case Signal(sig) => AbovePreSignal(c, s0, s, sig);
    case SigReturn => AbovePostSignal(c, s0, s);
  }

  lemma SettleStates(c: Conf, s: State, bb: Bb, calls: bool, skip: bool, o: Origin, sp: nat, id: nat)
    requires s.fns != []
    ensures Settle(c, s, bb, calls, skip, o, sp, id).states == s.states
  {
  }

  /** The run stays inside the handler: it does not jump out of it. */
  ghost predicate Inside(c: Conf, s: State, ops: seq<Op>, n: nat)
    requires Legal(c, s, ops, false)
    decreases |ops|
  {
    |s.states| > n && (ops != [] ==> Inside(c, Step(c, s, ops[0]), ops[1..], n))
  }

  lemma {:induction false} AboveRun(c: Conf, s0: State, s: State, ops: seq<Op>)
    requires Above(s0, s) && QInv(s, false) && Legal(c, s, ops, false) && Inside(c, s, ops, |s0.states|)
    ensures Above(s0, Run(c, s, ops, false)) && QInv(Run(c, s, ops, false), false)
    decreases |ops|
  {
    if ops != [] {
      InvStep(c, s, ops[0], false);
      AboveStep(c, s0, s, ops[0]);
      AboveRun(c, s0, Step(c, s, ops[0]), ops[1..]);
    }
  }

  lemma EnterAbove(c: Conf, s: State, sig: nat)
    requires QInv(s, false) && sig > 0
    ensures Above(s, PreSignal(c, s, sig)) && QInv(PreSignal(c, s, sig), false)
  {
    InvPreSignal(c, s, sig, false);
    ZerosAre(s.states, s.cur, s.frames, s.fns, false);
    var r := PreSignal(c, s, sig);
    assert r.states[..|s.states|] == Save(s).states;
    assert r.fns[..|s.fns|] == s.fns && r.costs[..|s.costs|] == s.costs;
  }

  lemma LeaveRestores(c: Conf, s0: State, s: State)
    requires Above(s0, s) && Inv(s, false) && |s.states| == |s0.states| + 1
    ensures var r := PostSignal(c, s);
      && r.states == Save(s0).states && r.cur == Last(Save(s0).states)
      && r.frames == s0.frames && r.fns == s0.fns && r.costs == s0.costs
      && r.sigCost == s.sigCost + CostOf(s)
  {
    hide PartsOk, Inv, PopFrame;
    var u := ToBottom(c, s);
    AboveToBottom(c, s0, s);
    InvToBottom(c, s, false);
    AboveTop(s0, u);
    DropPart(u, false);
    InvCosts(u);
    CostsKept(c, s);
    assert Front(u.states) == u.states[..|s0.states|];
    assert Front(u.costs) == u.costs[..|s0.costs|];
    assert u.frames[..|s0.frames|] == u.frames by { BottomIs(s0, s); }
  }

  lemma BottomIs(s0: State, s: State)
    requires Above(s0, s) && |s.states| == |s0.states| + 1
    ensures Last(s.states).bottom == |s0.frames|
  {
  }

  lemma {:induction false} CostsKept(c: Conf, s: State)
    requires s.states != []
    ensures var u := ToBottom(c, s); u.costs == s.costs && u.sigCost == s.sigCost && u.cur.cost == s.cur.cost
    decreases |s.frames|
  {
    if |s.frames| > Last(s.states).bottom {
      CostsKept(c, PopFrame(c, s));
    }
  }

  /**
   A signal arrives, a handler runs (with calls, returns, underflows and signals of its own, but without
   jumping out), and returns: the interrupted context, block, skipped call, collection state, jump
   position and cost array are those from before, and so are both stacks and the costs; the thread's
   cost of signal handlers has grown by what the handler has cost.
  */
  lemma SignalBracket(c: Conf, s: State, sig: nat, ops: seq<Op>)
    requires QInv(s, false) && Enabled(s, Signal(sig))
    requires Legal(c, PreSignal(c, s, sig), ops, false)
    requires Inside(c, PreSignal(c, s, sig), ops, |s.states|)
    requires |Run(c, PreSignal(c, s, sig), ops, false).states| == |s.states| + 1
    ensures var u := Run(c, PreSignal(c, s, sig), ops, false);
      var r := PostSignal(c, u);
      && r.cur == s.cur
      && r.frames == s.frames && r.fns == s.fns && r.costs == s.costs
      && r.states == Save(s).states
      && r.sigCost == u.sigCost + CostOf(u)
  {
    hide PartsOk, PreSignal, PostSignal;
    EnterAbove(c, s, sig);
    AboveRun(c, s, PreSignal(c, s, sig), ops);
    LeaveRestores(c, s, Run(c, PreSignal(c, s, sig), ops, false));
    InvCosts(s);
  }
}
