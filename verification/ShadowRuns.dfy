/**
 What holds in every run of the shadow call stack: its invariant.
*/
module ShadowRuns {
  import opened Common
  import opened ShadowModel
  import opened ShadowProof

  /** The source keeps the sizes of both stacks in an `Int`. */
  predicate Fits(s: State) { |s.frames| < 0x7FFF_FFFF && |s.fns| < 0x7FFF_FFFF }

  /** When a step keeps the invariant; all of it can be told before the step. */
  ghost predicate Clean(c: Conf, s: State, op: Op, strong: bool)
    requires s.fns != [] && s.states != []
  {
    op.Block? ==> ArriveOk(c, s, op.bb, op.sp, strong)
  }

  ghost predicate Legal(c: Conf, s: State, ops: seq<Op>, strong: bool)
    decreases |ops|
  {
    && s.fns != [] && s.states != [] && Fits(s)
    && (ops != [] ==>
          Enabled(s, ops[0]) && Clean(c, s, ops[0], strong) && Legal(c, Step(c, s, ops[0]), ops[1..], strong))
  }

  ghost function Run(c: Conf, s: State, ops: seq<Op>, strong: bool): State
    requires Legal(c, s, ops, strong)
    decreases |ops|
  {
    if ops == [] then s else Run(c, Step(c, s, ops[0]), ops[1..], strong)
  }

  lemma InvStep(c: Conf, s: State, op: Op, strong: bool)
    requires QInv(s, strong) && Enabled(s, op) && Clean(c, s, op, strong)
    ensures QInv(Step(c, s, op), strong)
  {
    hide PartsOk, Arrive, Settle, PreSignal, PostSignal;
    TopPart(s, strong);
    match op
    case Block(bb, sp, g) =>
      InvArrive(c, s, bb, sp, g, strong);
      var s1, o, calls := Arrive(c, s, bb, sp, g), PopOnJump(c, s, bb, sp), Calls(c, s, bb, sp);
      TopPart(s1, strong);
      var sp' := if Emulated(s, bb, sp) && s1.frames != [] then Last(s1.frames).sp else o.sp;
      InvSettle(c, s1, bb, calls, bb.fn in c.skip, o, sp', g.entered, strong);
    case Leave(jmp) =>
      InvSame(s, s.active, s.cur.bbcc, jmp, strong);
      assert s.(active := s.active, cur := s.cur.(bbcc := s.cur.bbcc, jmps := jmp)) == Step(c, s, op);
    case Spend(n) => OnlyTop(s, Step(c, s, op), strong);
    case Signal(sig) =>
      InvPreSignal(c, s, sig, strong);
      NothingYet(c, s, sig);
    case SigReturn => InvPostSignal(c, s, strong);
  }

  lemma NothingYet(c: Conf, s: State, sig: nat)
    requires s.states != [] && s.fns != []
    ensures PreSignal(c, s, sig).cur.bbcc.None?
  {
  }

  /** The invariant holds in every state of every run in which every step is clean. */
  lemma {:induction false} InvRun(c: Conf, s: State, ops: seq<Op>, strong: bool)
    requires QInv(s, strong) && Legal(c, s, ops, strong)
    ensures QInv(Run(c, s, ops, strong), strong)
    decreases |ops|
  {
    if ops != [] {
      InvStep(c, s, ops[0], strong);
      InvRun(c, Step(c, s, ops[0]), ops[1..], strong);
    }
  }

  lemma InvInit(c: Conf, strong: bool)
    ensures QInv(Init(c), strong)
  {
  }

  /** ... and so in every state of every such run of a thread. */
  lemma InvFromStart(c: Conf, ops: seq<Op>, strong: bool)
    requires Legal(c, Init(c), ops, strong)
    ensures QInv(Run(c, Init(c), ops, strong), strong)
  {
    InvInit(c, strong);
    InvRun(c, Init(c), ops, strong);
  }

  lemma {:induction false} RunFits(c: Conf, s: State, ops: seq<Op>, strong: bool)
    requires Legal(c, s, ops, strong)
    ensures Fits(Run(c, s, ops, strong))
    decreases |ops|
  {
    if ops != [] {
      RunFits(c, Step(c, s, ops[0]), ops[1..], strong);
    }
  }
}
