/**
 No cost is lost: what a thread has spent is in the cost arrays of the thread and of the handlers that run, or in the
 thread's cost of the handlers that are over.
*/
module ShadowCosts {
  import opened Common
  import opened ShadowModel
  import opened ShadowProof
  import opened ShadowRuns
  import opened ShadowSignals

  function Sum(costs: seq<int>): int {
    if costs == [] then 0 else Sum(Front(costs)) + Last(costs)
  }

  function Total(s: State): int { Sum(s.costs) + s.sigCost }

  /** What the steps of a run cost. */
  function Spent(ops: seq<Op>): int {
    if ops == [] then 0 else (if ops[0].Spend? then ops[0].n else 0) + Spent(ops[1..])
  }

  lemma {:induction false} SumUpdate(costs: seq<int>, i: nat, n: int)
    requires i < |costs|
    ensures Sum(costs[i := costs[i] + n]) == Sum(costs) + n
  {
    if i < |costs| - 1 {
      SumUpdate(Front(costs), i, n);
      assert Front(costs[i := costs[i] + n]) == Front(costs)[i := costs[i] + n];
    } else {
      assert Front(costs[i := costs[i] + n]) == Front(costs);
    }
  }

  lemma PostSignalTotal(c: Conf, s: State)
    requires Inv(s, false) && |s.states| > 1
    ensures Total(PostSignal(c, s)) == Total(s)
  {
    hide PartsOk, ToBottom, DropFns;
    InvCosts(s);
    CostsKept(c, s);
  }

  lemma PopTotal(c: Conf, s: State)
    requires Inv(s, false) && s.frames != [] && PopOk(s)
    ensures Total(Pop(c, s)) == Total(s)
  {
    hide PartsOk, PostSignal, PopFrame, Total;
    InvLeaveAtBottom(c, s, false);
    var l := LeaveAtBottom(c, s);
    if l != s {
      PostSignalTotal(c, s);
    }
    PopFrameCosts(c, l);
    SameCosts(l, PopFrame(c, l));
  }

  lemma PopFrameCosts(c: Conf, s: State)
    requires s.frames != []
    ensures PopFrame(c, s).costs == s.costs && PopFrame(c, s).sigCost == s.sigCost
  {
  }

  lemma SameCosts(s: State, r: State)
    requires r.costs == s.costs && r.sigCost == s.sigCost
    ensures Total(r) == Total(s)
  {
  }

  lemma {:induction false} UnwindTotal(c: Conf, s: State, sp: nat, minpops: int)
    requires Inv(s, false) && UnwindOk(c, s, sp, minpops)
    ensures Total(Unwind(c, s, sp, minpops)) == Total(s)
    decreases |s.frames|
  {
    hide PartsOk, Pop, Total, PopOk;
    if Passed(s, sp, minpops) {
      InvPop(c, s, false);
      PopTotal(c, s);
      UnwindTotal(c, Pop(c, s), sp, minpops - 1);
    }
  }

  lemma ArriveTotal(c: Conf, s: State, bb: Bb, sp: nat, g: Found)
    requires QInv(s, false) && bb.fn != 0 && ArriveOk(c, s, bb, sp, false)
    ensures s.fns != [] && s.states != [] && Total(Arrive(c, s, bb, sp, g)) == Total(s)
  {
    hide PartsOk, Pop, Underflow, Total, PopOk;
    TopPart(s, false);
    if IsReturn(s, bb, sp) {
      if NoCall(s) {
        NoCallTop(s, false);
        UnderflowParts(c, s, bb.fn, g);
        SameCosts(s, Pop(c, Underflow(c, s, bb.fn, g)));
      } else {
        UnwindTotal(c, s, sp, ReturnPops(s, bb, sp));
      }
    } else {
      var o := PopOnJump(c, s, bb, sp);
      InvPopOnJump(c, s, bb, sp, false);
      if o.state != s {
        var q := s.(cur := s.cur.(bbcc := Some(Last(s.frames).jcc.value.from)));
        PopIgnoresBbcc(c, s, q.cur.bbcc, false);
        SamePop(s, q);
        PopTotal(c, q);
        SameCosts(s, q);
      }
      UnwindTotal(c, o.state, o.sp, 0);
    }
  }

  lemma SamePop(s: State, q: State)
    requires s.states != [] && q.frames == s.frames && q.states == s.states
    ensures PopOk(s) <==> PopOk(q)
  {
  }

  lemma SettleCosts(c: Conf, s: State, bb: Bb, calls: bool, skip: bool, o: Origin, sp: nat, id: nat)
    requires s.fns != []
    ensures var r := Settle(c, s, bb, calls, skip, o, sp, id); r.costs == s.costs && r.sigCost == s.sigCost
  {
    hide Choose;
  }

  lemma StepTotal(c: Conf, s: State, op: Op)
    requires QInv(s, false) && s.fns != [] && s.states != [] && Enabled(s, op) && Clean(c, s, op, false)
    ensures Total(Step(c, s, op)) == Total(s) + if op.Spend? then op.n else 0
  {
    hide PartsOk, Arrive, Settle, PostSignal, PopOnJump, Calls;
    InvCosts(s);
    match op
    case Block(bb, sp, g) =>
      ArriveTotal(c, s, bb, sp, g);
      InvArrive(c, s, bb, sp, g, false);
      var s1, o, calls := Arrive(c, s, bb, sp, g), PopOnJump(c, s, bb, sp), Calls(c, s, bb, sp);
      TopPart(s1, false);
      SettleCosts(c, s1, bb, calls, bb.fn in c.skip, o, if Emulated(s, bb, sp) && s1.frames != [] then Last(s1.frames).sp else o.sp, g.entered);
    case Leave(jmp) =>
    case Spend(n) => SumUpdate(s.costs, s.cur.cost, n);
    case Signal(sig) => assert Front(s.costs + [0]) == s.costs;
    case SigReturn => PostSignalTotal(c, s);
  }

  /** In every run, cost arrays and the cost of handlers add up to all that has been spent. */
  lemma {:induction false} AllAccounted(c: Conf, s: State, ops: seq<Op>)
    requires QInv(s, false) && Legal(c, s, ops, false)
    ensures Total(Run(c, s, ops, false)) == Total(s) + Spent(ops)
    decreases |ops|
  {
    hide QInv, Step, Clean, Enabled, Total;
    if ops != [] {
      InvStep(c, s, ops[0], false);
      StepTotal(c, s, ops[0]);
      AllAccounted(c, Step(c, s, ops[0]), ops[1..]);
    }
  }
}
