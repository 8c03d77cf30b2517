/**
 A run in which the count of a function goes wrong, and what comes of it.
*/
module ShadowExamples {
  import opened Common
  import opened ShadowModel
  import opened ShadowProof
  import opened ShadowRuns
  import opened ShadowCounts

  const CONF := Conf(false, {}, {}, {}, map[])

  // f's only block ends in a tail call of f or in a return; it was called by g, and g by h, unseen.
  const F := Bb(100, 1, true, 0, 0, [Jmp(Jump, 0), Jmp(Return, 0)])
  const G1 := Bb(200, 2, false, 0, 0, [Jmp(Jump, 0)])
  const G2 := Bb(210, 2, false, 0, 0, [Jmp(Return, 0)])
  const H := Bb(300, 3, false, 0, 0, [Jmp(Jump, 0)])
  const CF := Cxt(1, 0)
  const CG := Cxt(2, 0)
  const CH := Cxt(3, 0)
  const MADE_UP := Bbcc(Bb(0, 0, false, 0, 0, []), Cxt(0, 0), 0)
  const FOUND := Found(MADE_UP, 0, 0, 0)

  const THREAD := Exec(0, false, None, 0, None, None, 0, 0)
  const TAIL_CALL := Frame(Some(Jcc(Bbcc(F, CF, 0), 0, Bbcc(F, CF, 1))), 0, 1000, 0, None, Some(CF), 1)

  /** A state of the one thread there is, outside of handlers. */
  ghost predicate At(s: State, b: Bbcc, jmps: nat, frames: seq<Frame>, fn: Fn, a1: nat, a2: nat, a3: nat) {
    && s.cur == THREAD.(cxt := Some(b.cxt), jmps := jmps, bbcc := Some(b))
    && s.states == [THREAD] && s.costs == [0] && s.frames == frames && s.fns == [0, fn] && s.pend.cxt.None?
    && Get(s.active, 1) == a1 && Get(s.active, 2) == a2 && Get(s.active, 3) == a3
    && forall f :: f > 3 ==> Get(s.active, f) == 0
  }

  ghost predicate Goes(s: State, op: Op, t: State) {
    s.fns != [] && s.states != [] && Enabled(s, op) && Step(CONF, s, op) == t
  }

  /** The counts of such a state are exact. */
  lemma Exact(s: State, b: Bbcc, jmps: nat, frames: seq<Frame>, fn: Fn, a1: nat, a2: nat, a3: nat)
    requires At(s, b, jmps, frames, fn, a1, a2, a3) && 1 <= fn <= 3 && (frames == [] || frames == [TAIL_CALL])
    requires a1 == |frames| + (if fn == 1 then 1 else 0) && a2 == (if fn == 2 then 1 else 0) && a3 == (if fn == 3 then 1 else 0)
    ensures ActiveOk(s)
  {
    assert Front([0, fn]) == [0];
    assert frames != [] ==> Front(frames) == [];
    forall f | f != 0 ensures Get(s.active, f) == Expected(s.frames, s.fns, f) % UINT {
      assert CountFirst(s.fns, f) == if f == fn then 1 else 0;
      assert CountCalls(s.frames, f) == if f == 1 then |frames| else 0;
    }
  }

  lemma Leaves(s: State, b: Bbcc, jmps: nat, frames: seq<Frame>, fn: Fn, a1: nat, a2: nat, a3: nat, jmp: nat)
      returns (t: State)
    requires At(s, b, jmps, frames, fn, a1, a2, a3) && jmp < |b.bb.jmps| && ActiveOk(s)
    ensures Goes(s, Leave(jmp), t) && At(t, b, jmp, frames, fn, a1, a2, a3) && ActiveOk(t)
  {
    t := Step(CONF, s, Leave(jmp));
  }

  /** The first block of a thread or a handler. */
  lemma Enters(s: State, bb: Bb, sp: nat)
    requires s.fns != [] && s.states != [] && s.cur.bbcc.None? && s.cur.cxt.None? && !Passed(s, sp, 0)
    requires Last(s.fns) == 0 && bb.fn != 0 && Get(s.active, bb.fn) == 0
    ensures SetupBbcc(CONF, s, bb, sp, FOUND) == Executing(PushCxt(s, bb.fn, 0), Bbcc(bb, Cxt(bb.fn, 0), 0))
  {
    assert LastKind(s) == JNone && !Emulated(s, bb, sp) && !IsReturn(s, bb, sp) && !Calls(CONF, s, bb, sp);
    assert Arrive(CONF, s, bb, sp, FOUND) == s;
    hide Arrive, Emulated, IsReturn, Calls, Passed;
    var p := PushCxt(s, bb.fn, 0);
    assert Last(p.fns) == bb.fn && Get(p.active, bb.fn) == 1 && p.cur.cxt == Some(Cxt(bb.fn, 0));
    hide PushCxt;
    assert Choose(CONF, p, bb, false) == (p.active, Bbcc(bb, Cxt(bb.fn, 0), 0));
  }

  /** A block that is called. */
  lemma CallsTo(s: State, bb: Bb, sp: nat, a: map<Fn, nat>, b: Bbcc)
    requires s.fns != [] && s.states != [] && s.cur.bbcc.Some? && s.cur.nonskipped.None? && !Passed(s, sp, 0) && bb.fn != 0
    requires LastKind(s).Call? || Emulated(s, bb, sp)
    requires var p := PushCxt(s, bb.fn, 0); p.cur.cxt.Some? && Choose(CONF, p, bb, true) == (a, b)
    ensures
      var p, at := PushCxt(s, bb.fn, 0), if Emulated(s, bb, sp) && s.frames != [] then Last(s.frames).sp else sp;
      SetupBbcc(CONF, s, bb, sp, FOUND)
        == Executing(PushCall(CONF, p.(active := a), s.cur.bbcc.value, s.cur.jmps, b, at, false), b)
  {
    assert !IsReturn(s, bb, sp) && Calls(CONF, s, bb, sp) && Arrive(CONF, s, bb, sp, FOUND) == s;
    hide Arrive, Emulated, IsReturn, Calls, Passed, PushCall, Choose;
  }

  lemma Start() returns (t: State)
    ensures Goes(Init(CONF), Block(F, 1000, FOUND), t) && At(t, Bbcc(F, CF, 0), 0, [], 1, 1, 0, 0) && ActiveOk(t)
  {
    hide SetupBbcc;
    var s := Init(CONF);
    Enters(s, F, 1000);
    assert PushCxt(s, 1, 0).fns == [0, 1];
    t := Step(CONF, s, Block(F, 1000, FOUND));
    Exact(t, Bbcc(F, CF, 0), 0, [], 1, 1, 0, 0);
  }

  lemma TailCall(s: State) returns (t: State)
    requires At(s, Bbcc(F, CF, 0), 0, [], 1, 1, 0, 0)
    ensures Goes(s, Block(F, 1000, FOUND), t) && At(t, Bbcc(F, CF, 1), 0, [TAIL_CALL], 1, 2, 0, 0) && ActiveOk(t)
  {
    assert Emulated(s, F, 1000);
    var p := PushCxt(s, 1, 0);
    assert Choose(CONF, p, F, true) == (p.active, Bbcc(F, CF, 1));
    hide SetupBbcc, Emulated, Choose;
    CallsTo(s, F, 1000, p.active, Bbcc(F, CF, 1));
    t := Step(CONF, s, Block(F, 1000, FOUND));
    forall f | f > 3 ensures Get(t.active, f) == 0 {
      assert Get(s.active, f) == 0;
    }
    Exact(t, Bbcc(F, CF, 1), 0, [TAIL_CALL], 1, 2, 0, 0);
  }

  /** A return without a call to match. */
  lemma Returns(s: State, bb: Bb, sp: nat, u: State)
    requires s.fns != [] && s.states != [] && s.cur.bbcc.Some? && bb.fn in {2, 3} && bb.jmps != [] && bb.obj == 0 && bb.sect == 0
    requires LastKind(s).Return? && ReturnPops(s, bb, sp) == 1 && NoCall(s)
    requires u == Pop(CONF, Underflow(CONF, s, bb.fn, FOUND))
    requires u.fns != [] && Last(u.fns) == bb.fn && Get(u.active, bb.fn) == 1 && u.cur.cxt == Some(Cxt(bb.fn, 0))
    ensures SetupBbcc(CONF, s, bb, sp, FOUND) == Executing(u, Bbcc(bb, Cxt(bb.fn, 0), 0))
    ensures StepSlips(CONF, s, Block(bb, sp, FOUND)) == UnderflowSlips(s)
  {
    hide Pop, Underflow, ReturnPops, LastKind, UnderflowSlips;
    assert !FalseReturn(s, bb, sp) && IsReturn(s, bb, sp) && !Emulated(s, bb, sp) && !Calls(CONF, s, bb, sp);
    assert Arrive(CONF, s, bb, sp, FOUND) == u;
    assert RecLevel(u, false) == 1;
    assert Choose(CONF, u, bb, false) == (u.active, Bbcc(bb, Cxt(bb.fn, 0), 0));
    assert UnderflowSlips(s) + [] == UnderflowSlips(s);
  }

  /** f returns: an underflow, with the tail call still on the stack. */
  lemma ReturnToG(s: State) returns (t: State)
    requires At(s, Bbcc(F, CF, 1), 1, [TAIL_CALL], 1, 2, 0, 0)
    ensures Goes(s, Block(G1, 1008, FOUND), t) && At(t, Bbcc(G1, CG, 0), 0, [TAIL_CALL], 2, 1, 1, 0) && ActiveOk(t)
  {
    hide Pop, Underflow, SetupBbcc;
    UnderflowParts(CONF, s, 2, FOUND);
    var u := Pop(CONF, Underflow(CONF, s, 2, FOUND));
    assert Front(s.fns) + [2] == [0, 2];
    assert Get(u.active, 1) == 1 && Get(u.active, 2) == 1 && Get(u.active, 3) == 0;
    forall f | f > 3 ensures Get(u.active, f) == 0 {
      assert Get(s.active, f) == 0;
    }
    Returns(s, G1, 1008, u);
    t := Step(CONF, s, Block(G1, 1008, FOUND));
    Exact(t, Bbcc(G1, CG, 0), 0, [TAIL_CALL], 2, 1, 1, 0);
  }

  /** The next block of g pops the tail call, and with it comes the context of f. */
  lemma JumpInG(s: State) returns (t: State)
    requires At(s, Bbcc(G1, CG, 0), 0, [TAIL_CALL], 2, 1, 1, 0)
    ensures Goes(s, Block(G2, 1008, FOUND), t) && At(t, Bbcc(G2, CF, 0), 0, [], 2, 0, 1, 0) && ActiveOk(t)
  {
    var u := Pop(CONF, s);
    TailCallEnds(s);
    hide Pop;
    assert !Emulated(s, G2, 1008) && Passed(s, 1008, 0) && Unwind(CONF, u, 1008, -1) == u;
    assert Choose(CONF, u, G2, false) == (u.active, Bbcc(G2, CF, 0));
    t := Step(CONF, s, Block(G2, 1008, FOUND));
    assert t == Executing(u, Bbcc(G2, CF, 0));
    hide SetupBbcc;
    Exact(t, Bbcc(G2, CF, 0), 0, [], 2, 0, 1, 0);
  }

  lemma TailCallEnds(s: State)
    requires At(s, Bbcc(G1, CG, 0), 0, [TAIL_CALL], 2, 1, 1, 0)
    ensures var u := Pop(CONF, s);
      && u.frames == [] && u.fns == [0, 2] && u.cur == s.cur.(cxt := Some(CF)) && u.states == s.states && u.costs == s.costs
      && u.pend.cxt.None? && Get(u.active, 1) == 0 && Get(u.active, 2) == 1 && Get(u.active, 3) == 0
      && forall f :: f > 3 ==> Get(u.active, f) == 0
  {
    var u := Pop(CONF, s);
    assert u.fns == [0, 2];
    forall f | f > 3 ensures Get(u.active, f) == 0 {
      assert Get(s.active, f) == 0;
    }
  }

  /** When g returns it is f that is taken off the counts, once too often. */
  lemma ReturnToH(s: State) returns (t: State)
    requires At(s, Bbcc(G2, CF, 0), 0, [], 2, 0, 1, 0)
    ensures Goes(s, Block(H, 1016, FOUND), t) && At(t, Bbcc(H, CH, 0), 0, [], 3, UINT - 1, 1, 1)
    ensures StepSlips(CONF, s, Block(H, 1016, FOUND)) == [Slip(2, 1), Slip(1, -1)]
    ensures Expected(t.frames, t.fns, 1) == 0
  {
    hide Pop, Underflow, SetupBbcc;
    UnderflowParts(CONF, s, 3, FOUND);
    var u := Pop(CONF, Underflow(CONF, s, 3, FOUND));
    assert Front(s.fns) + [3] == [0, 3];
    assert Get(u.active, 1) == UINT - 1 && Get(u.active, 2) == 1 && Get(u.active, 3) == 1;
    forall f | f > 3 ensures Get(u.active, f) == 0 {
      assert Get(s.active, f) == 0;
    }
    Returns(s, H, 1016, u);
    t := Step(CONF, s, Block(H, 1016, FOUND));
    assert Front([0, 3]) == [0];
  }

  /** The next call of f finds a recursion level of 2^32, which is 0; the correction sets the count to 1, and the
      call adds one. */
  lemma CallOfF(s: State) returns (t: State)
    requires At(s, Bbcc(H, CH, 0), 0, [], 3, UINT - 1, 1, 1)
    ensures RecLevel(PushCxt(s, 1, 0), true) == 0
    ensures Goes(s, Block(F, 1016, FOUND), t) && Get(t.active, 1) == 2 && Expected(t.frames, t.fns, 1) == 1
  {
    assert Emulated(s, F, 1016);
    var p := PushCxt(s, 1, 0);
    assert p.fns == [0, 3, 1] && p.active == s.active && p.cur.cxt == Some(CF) && p.frames == [];
    hide SetupBbcc, Emulated, PushCxt, PushCall, Choose, RecLevel;
    LevelWraps(p);
    CallsTo(s, F, 1016, p.active[1 := 1], Bbcc(F, CF, 0));
    t := Step(CONF, s, Block(F, 1016, FOUND));
    CountedTwice(p, Bbcc(H, CH, 0), 1016);
  }

  lemma LevelWraps(p: State)
    requires p.fns != [] && Last(p.fns) == 1 && p.cur.cxt == Some(CF) && Get(p.active, 1) == UINT - 1
    ensures RecLevel(p, true) == 0 && Choose(CONF, p, F, true) == (p.active[1 := 1], Bbcc(F, CF, 0))
  {
  }

  lemma CountedTwice(p: State, from: Bbcc, sp: nat)
    requires p.frames == [] && p.fns == [0, 3, 1]
    ensures var t := PushCall(CONF, p.(active := p.active[1 := 1]), from, 0, Bbcc(F, CF, 0), sp, false);
      Get(t.active, 1) == 2 && Expected(t.frames, t.fns, 1) == 1
  {
    var t := PushCall(CONF, p.(active := p.active[1 := 1]), from, 0, Bbcc(F, CF, 0), sp, false);
    assert |t.frames| == 1 && Last(t.frames).jcc.Some? && Last(t.frames).jcc.value.to.cxt.fn == 1;
    hide PushCall;
    assert Front(t.frames) == [] && Front([0, 3, 1]) == [0, 3] && Front([0, 3]) == [0];
  }

  const OPS := [Block(F, 1000, FOUND), Leave(0), Block(F, 1000, FOUND), Leave(1), Block(G1, 1008, FOUND),
                Leave(0), Block(G2, 1008, FOUND), Leave(0), Block(H, 1016, FOUND), Block(F, 1016, FOUND)]

  /** A run from the start of a thread.  Until step 8 the counts are exact; the return from g in that step takes f off
      instead of g, after which f is counted 2^32 - 1 times with no call of it anywhere.  The recursion level of the
      next call of f is then 0, without instrumentation being switched. */
  lemma CountsGoWrong() returns (ss: seq<State>)
    ensures |ss| == |OPS| + 1 && ss[0] == Init(CONF) && forall i :: 0 <= i < |OPS| ==> Goes(ss[i], OPS[i], ss[i + 1])
    ensures forall i :: 0 <= i <= 8 ==> ActiveOk(ss[i])
    ensures Goes(ss[8], OPS[8], ss[9]) && StepSlips(CONF, ss[8], OPS[8]) == [Slip(2, 1), Slip(1, -1)]
    ensures Get(ss[9].active, 1) == UINT - 1 && Expected(ss[9].frames, ss[9].fns, 1) == 0
    ensures ss[9].fns != [] && RecLevel(PushCxt(ss[9], 1, 0), true) == 0
    ensures Get(ss[10].active, 1) == 2 && Expected(ss[10].frames, ss[10].fns, 1) == 1
  {
    hide Step, ActiveOk, StepSlips, Expected, RecLevel, PushCxt;
    InitExact(CONF);
    var s1 := Start();
    var s2 := Leaves(s1, Bbcc(F, CF, 0), 0, [], 1, 1, 0, 0, 0);
    var s3 := TailCall(s2);
    var s4 := Leaves(s3, Bbcc(F, CF, 1), 0, [TAIL_CALL], 1, 2, 0, 0, 1);
    var s5 := ReturnToG(s4);
    var s6 := Leaves(s5, Bbcc(G1, CG, 0), 0, [TAIL_CALL], 2, 1, 1, 0, 0);
    var s7 := JumpInG(s6);
    var s8 := Leaves(s7, Bbcc(G2, CF, 0), 0, [], 2, 0, 1, 0, 0);
    var s9 := ReturnToH(s8);
    var s10 := CallOfF(s9);
    ss := [Init(CONF), s1, s2, s3, s4, s5, s6, s7, s8, s9, s10];
  }

  // ---------------------------------------------------------------- a return through two handlers

  // a calls b; two nested handlers interrupt b; then a's stack pointer is back.
  const A := Bb(100, 1, false, 0, 0, [Jmp(Call, 104)])
  const B := Bb(200, 2, true, 0, 0, [Jmp(Jump, 0)])
  const D := Bb(400, 3, true, 0, 0, [Jmp(Jump, 0)])
  const CALL_OF_B := Frame(Some(Jcc(Bbcc(A, CF, 0), 0, Bbcc(B, CG, 0))), 0, 900, 104, None, Some(CF), 1)

  /** The execution state of a handler, or of the thread, in the block of `b`. */
  function In(e: Exec, b: Bbcc): Exec { e.(cxt := Some(b.cxt), bbcc := Some(b), jmps := 0) }

  function Handler(sig: nat, level: nat, bottom: nat): Exec { Exec(sig, false, None, 0, None, None, level, bottom) }

  function CallState(cur: Exec, states: seq<Exec>, pend: nat, fns: seq<Fn>, active: map<Fn, nat>, costs: seq<int>): State {
    State(cur, states, [CALL_OF_B], Pending(None, pend), fns, active, costs, map[], 0, 0)
  }

  const IN_A := State(In(THREAD, Bbcc(A, CF, 0)), [THREAD], [], Pending(None, 0), [0, 1], map[1 := 1], [0], map[], 0, 0)
  const IN_B := CallState(In(THREAD, Bbcc(B, CG, 0)), [THREAD], 0, [0, 1, 2], map[1 := 1, 2 := 1], [0])
  const HANDLER1 := CallState(Handler(5, 1, 1), [IN_B.cur, Handler(5, 1, 1)], 2, [0, 1, 2, 0], map[1 := 1, 2 := 1], [0, 0])
  const IN_D := CallState(In(Handler(5, 1, 1), Bbcc(D, CH, 0)), [IN_B.cur, Handler(5, 1, 1)], 3, [0, 1, 2, 0, 3],
                          map[1 := 1, 2 := 1, 3 := 1], [0, 0])
  const HANDLER2 := CallState(Handler(6, 2, 1), [IN_B.cur, IN_D.cur, Handler(6, 2, 1)], 4, [0, 1, 2, 0, 3, 0],
                              map[1 := 1, 2 := 1, 3 := 1], [0, 0, 0])

  lemma EnterA()
    ensures Goes(Init(CONF), Block(A, 1000, FOUND), IN_A)
  {
    hide SetupBbcc;
    Enters(Init(CONF), A, 1000);
    assert PushCxt(Init(CONF), 1, 0).fns == [0, 1];
  }

  lemma CallB()
    ensures Goes(IN_A, Block(B, 900, FOUND), IN_B)
  {
    assert LastKind(IN_A) == Call;
    var p := PushCxt(IN_A, 2, 0);
    assert p.fns == [0, 1, 2];
    assert Choose(CONF, p, B, true) == (p.active, Bbcc(B, CG, 0));
    hide SetupBbcc, Choose, LastKind;
    CallsTo(IN_A, B, 900, p.active, Bbcc(B, CG, 0));
  }

  lemma Interrupt()
    ensures Goes(IN_B, Signal(5), HANDLER1)
  {
    assert Save(IN_B).states == [IN_B.cur];
  }

  lemma EnterD()
    ensures Goes(HANDLER1, Block(D, 800, FOUND), IN_D)
  {
    hide SetupBbcc;
    Enters(HANDLER1, D, 800);
    assert PushCxt(HANDLER1, 3, 0).fns == [0, 1, 2, 0, 3];
  }

  lemma InterruptAgain()
    ensures Goes(IN_D, Signal(6), HANDLER2)
  {
    assert Save(IN_D).states == [IN_B.cur, IN_D.cur];
  }

  // What ending the second handler leaves, and what the pop after it does.
  const LEFT := IN_D.(states := [IN_B.cur, IN_D.cur], pend := Pending(None, 4))
  const POPPED := State(IN_D.cur.(cxt := Some(CF)), LEFT.states, [], Pending(None, 1), [0, 1], map[1 := 1, 2 := 0, 3 := 1],
                        [0, 0], map[CALL_OF_B.jcc.value := 0], 0, 0)

  lemma SecondHandlerEnds()
    ensures PostSignal(CONF, HANDLER2) == LEFT
  {
    assert ToBottom(CONF, HANDLER2) == HANDLER2;
    assert DropFns([0, 1, 2, 0, 3, 0]) == [0, 1, 2, 0, 3];
    assert Front(HANDLER2.states) == [IN_B.cur, IN_D.cur] && Front([0, 0, 0]) == [0, 0];
  }

  lemma CallOfBEnds()
    ensures PopFrame(CONF, LEFT) == POPPED
  {
    assert LEFT.fns[..2] == [0, 1] && Front(LEFT.frames) == [];
  }

  lemma BackInA() returns (t: State)
    ensures Goes(HANDLER2, Block(A, 1000, FOUND), t) && !PopOk(HANDLER2) && Pop(CONF, HANDLER2) == POPPED
    ensures t.frames == [] && t.fns == [0, 1] && Get(t.active, 3) == 1
  {
    hide PostSignal, PopFrame, Choose;
    SecondHandlerEnds();
    CallOfBEnds();
    assert Pop(CONF, HANDLER2) == POPPED;
    assert Unwind(CONF, HANDLER2, 1000, 0) == Unwind(CONF, POPPED, 1000, -1) == POPPED;
    ChooseA();
    t := Step(CONF, HANDLER2, Block(A, 1000, FOUND));
    assert t == Executing(POPPED, Bbcc(A, CF, 0));
  }

  lemma ChooseA()
    ensures Choose(CONF, POPPED, A, false) == (POPPED.active, Bbcc(A, CF, 0))
  {
  }

  /** Whose count these states hold. */
  lemma FirstsOf(f: Fn)
    ensures CountCalls([CALL_OF_B], f) == (if f == 2 then 1 else 0) && CountCalls([], f) == 0
    ensures CountFirst([0, 1], f) == CountFirst([0, 1, 2], f) == CountFirst([0, 1, 2, 0], f) == if f == 1 then 1 else 0
    ensures f != 0 ==>
      CountFirst([0, 1, 2, 0, 3], f) == CountFirst([0, 1, 2, 0, 3, 0], f) == if f == 1 || f == 3 then 1 else 0
  {
    assert Front([CALL_OF_B]) == [];
    assert [0] + [1] == [0, 1] && [0, 1] + [2] == [0, 1, 2] && [0, 1, 2] + [0] == [0, 1, 2, 0];
    assert [0, 1, 2, 0] + [3] == [0, 1, 2, 0, 3] && [0, 1, 2, 0, 3] + [0] == [0, 1, 2, 0, 3, 0];
    CountFirstPush([0], 1, f);
    CountFirstPush([0, 1], 2, f);
    CountFirstPush([0, 1, 2], 0, f);
    CountFirstPush([0, 1, 2, 0], 3, f);
    CountFirstPush([0, 1, 2, 0, 3], 0, f);
  }

  lemma ExactUntilPop()
    ensures ActiveOk(IN_A) && ActiveOk(IN_B) && ActiveOk(HANDLER1) && ActiveOk(IN_D) && ActiveOk(HANDLER2)
  {
    hide ActiveOk;
    ExactOutside(IN_A);
    ExactOutside(IN_B);
    ExactOutside(HANDLER1);
    ExactInside(IN_D);
    ExactInside(HANDLER2);
  }

  lemma SmallCount(a: nat, b: nat)
    requires a <= 1 && b <= 1
    ensures (a + b) % UINT == a + b
  {
  }

  lemma ExactOutside(s: State)
    requires if s.frames == [] then s.fns == [0, 1] && s.active == map[1 := 1]
      else s.frames == [CALL_OF_B] && (s.fns == [0, 1, 2] || s.fns == [0, 1, 2, 0]) && s.active == map[1 := 1, 2 := 1]
    ensures ActiveOk(s)
  {
    hide CountFirst, CountCalls;
    forall f | f != 0 ensures Get(s.active, f) == Expected(s.frames, s.fns, f) % UINT {
      FirstsOf(f);
      SmallCount(CountCalls(s.frames, f), CountFirst(s.fns, f));
    }
  }

  lemma ExactInside(s: State)
    requires s.frames == [CALL_OF_B] && (s.fns == [0, 1, 2, 0, 3] || s.fns == [0, 1, 2, 0, 3, 0])
    requires s.active == map[1 := 1, 2 := 1, 3 := 1]
    ensures ActiveOk(s)
  {
    hide CountFirst, CountCalls;
    forall f | f != 0 ensures Get(s.active, f) == Expected(s.frames, s.fns, f) % UINT {
      FirstsOf(f);
      SmallCount(CountCalls(s.frames, f), CountFirst(s.fns, f));
    }
  }

  const ACROSS := [Block(A, 1000, FOUND), Block(B, 900, FOUND), Signal(5), Block(D, 800, FOUND), Signal(6),
                   Block(A, 1000, FOUND)]

  /** A run from the start of a thread in which a pop reaches through two handlers.  It cuts the function of the lower
      handler off the function stack with its marker; the function stays counted with no call of it anywhere. */
  lemma ReturnThroughTwo() returns (ss: seq<State>)
    ensures |ss| == |ACROSS| + 1 && ss[0] == Init(CONF) && forall i :: 0 <= i < |ACROSS| ==> Goes(ss[i], ACROSS[i], ss[i + 1])
    ensures forall i :: 0 <= i <= 5 ==> ActiveOk(ss[i])
    ensures ss[5].frames != [] && ss[5].states != [] && Passed(ss[5], 1000, 0) && !PopOk(ss[5])
    ensures ss[6].frames == [] && ss[6].fns == [0, 1]
    ensures Get(ss[6].active, 3) == 1 && Expected(ss[6].frames, ss[6].fns, 3) == 0
  {
    hide Step, ActiveOk, CountFirst, CountCalls;
    InitExact(CONF);
    ExactUntilPop();
    EnterA();
    CallB();
    Interrupt();
    EnterD();
    InterruptAgain();
    var t := BackInA();
    FirstsOf(3);
    ss := [Init(CONF), IN_A, IN_B, HANDLER1, IN_D, HANDLER2, t];
  }

  // ---------------------------------------------------------------- a handler that ends in another function

  const AGAIN := TAIL_CALL.(fnSp := 2)

  /** A state of the only handler there is. */
  ghost predicate AtHandler(s: State, b: Bbcc, jmps: nat, frames: seq<Frame>, fn: Fn, a1: nat, a2: nat) {
    && s.cur == Handler(5, 1, 0).(cxt := Some(b.cxt), jmps := jmps, bbcc := Some(b))
    && s.states == [THREAD, Handler(5, 1, 0)] && s.costs == [0, 0]
    && s.frames == frames && s.fns == [0, 0, fn] && s.pend.cxt.None?
    && Get(s.active, 1) == a1 && Get(s.active, 2) == a2 && forall f :: f > 2 ==> Get(s.active, f) == 0
  }

  lemma ExactHandler(s: State, b: Bbcc, jmps: nat, frames: seq<Frame>, fn: Fn, a1: nat, a2: nat)
    requires AtHandler(s, b, jmps, frames, fn, a1, a2) && 1 <= fn <= 2 && (frames == [] || frames == [AGAIN])
    requires a1 == |frames| + (if fn == 1 then 1 else 0) && a2 == if fn == 2 then 1 else 0
    ensures ActiveOk(s)
  {
    assert [0] + [0] == [0, 0] && [0, 0] + [fn] == [0, 0, fn];
    assert frames != [] ==> Front(frames) == [];
    forall f | f != 0 ensures Get(s.active, f) == Expected(s.frames, s.fns, f) % UINT {
      CountFirstPush([0], 0, f);
      CountFirstPush([0, 0], fn, f);
      assert CountCalls(s.frames, f) == if f == 1 then |frames| else 0;
    }
  }

  const INTERRUPTED := State(Handler(5, 1, 0), [THREAD, Handler(5, 1, 0)], [], Pending(None, 0), [0, 0], map[], [0, 0],
                             map[], 0, 0)

  lemma InterruptThread()
    ensures Goes(Init(CONF), Signal(5), INTERRUPTED) && ActiveOk(INTERRUPTED)
  {
    assert Save(Init(CONF)).states == [THREAD];
    forall f | f != 0 ensures Get(INTERRUPTED.active, f) == Expected([], [0, 0], f) % UINT {
      assert [0] + [0] == [0, 0];
      CountFirstPush([0], 0, f);
    }
  }

  lemma HandlerStarts() returns (t: State)
    ensures Goes(INTERRUPTED, Block(F, 1000, FOUND), t) && AtHandler(t, Bbcc(F, CF, 0), 0, [], 1, 1, 0) && ActiveOk(t)
  {
    hide SetupBbcc;
    Enters(INTERRUPTED, F, 1000);
    assert PushCxt(INTERRUPTED, 1, 0).fns == [0, 0, 1];
    t := Step(CONF, INTERRUPTED, Block(F, 1000, FOUND));
    ExactHandler(t, Bbcc(F, CF, 0), 0, [], 1, 1, 0);
  }

  lemma HandlerCalls(s: State) returns (t: State)
    requires AtHandler(s, Bbcc(F, CF, 0), 0, [], 1, 1, 0)
    ensures Goes(s, Block(F, 1000, FOUND), t) && AtHandler(t, Bbcc(F, CF, 1), 0, [AGAIN], 1, 2, 0) && ActiveOk(t)
  {
    assert Emulated(s, F, 1000);
    var p := PushCxt(s, 1, 0);
    assert Choose(CONF, p, F, true) == (p.active, Bbcc(F, CF, 1));
    hide SetupBbcc, Emulated, Choose;
    CallsTo(s, F, 1000, p.active, Bbcc(F, CF, 1));
    t := Step(CONF, s, Block(F, 1000, FOUND));
    forall f | f > 2 ensures Get(t.active, f) == 0 {
      assert Get(s.active, f) == 0;
    }
    ExactHandler(t, Bbcc(F, CF, 1), 0, [AGAIN], 1, 2, 0);
  }

  lemma HandlerLeaves(s: State) returns (t: State)
    requires AtHandler(s, Bbcc(F, CF, 1), 0, [AGAIN], 1, 2, 0) && ActiveOk(s)
    ensures Goes(s, Leave(1), t) && AtHandler(t, Bbcc(F, CF, 1), 1, [AGAIN], 1, 2, 0) && ActiveOk(t)
  {
    t := Step(CONF, s, Leave(1));
  }

  lemma HandlerReturns(s: State) returns (t: State)
    requires AtHandler(s, Bbcc(F, CF, 1), 1, [AGAIN], 1, 2, 0)
    ensures Goes(s, Block(G1, 1008, FOUND), t) && AtHandler(t, Bbcc(G1, CG, 0), 0, [AGAIN], 2, 1, 1) && ActiveOk(t)
  {
    hide Pop, Underflow, SetupBbcc;
    UnderflowParts(CONF, s, 2, FOUND);
    var u := Pop(CONF, Underflow(CONF, s, 2, FOUND));
    assert Front(s.fns) + [2] == [0, 0, 2];
    assert Get(u.active, 1) == 1 && Get(u.active, 2) == 1;
    forall f | f > 2 ensures Get(u.active, f) == 0 {
      assert Get(s.active, f) == 0;
    }
    Returns(s, G1, 1008, u);
    t := Step(CONF, s, Block(G1, 1008, FOUND));
    ExactHandler(t, Bbcc(G1, CG, 0), 0, [AGAIN], 2, 1, 1);
  }

  lemma HandlerEnds(s: State) returns (t: State)
    requires AtHandler(s, Bbcc(G1, CG, 0), 0, [AGAIN], 2, 1, 1)
    ensures Goes(s, SigReturn, t) && Get(t.active, 1) == UINT - 1 && Get(t.active, 2) == 1
    ensures t.frames == [] && t.fns == [0] && t.cur == THREAD
  {
    var u := PopFrame(CONF, s);
    assert u.frames == [] && u.fns == [0, 0, 2] && u.cur.cxt == Some(CF) && Get(u.active, 1) == 0;
    assert ToBottom(CONF, s) == u;
    hide ToBottom, PopFrame;
    t := Step(CONF, s, SigReturn);
  }

  const OTHER_FUNCTION := [Signal(5), Block(F, 1000, FOUND), Block(F, 1000, FOUND), Leave(1), Block(G1, 1008, FOUND),
                           SigReturn]

  /** A run in which a handler is left in a function other than its first: a return to an unseen caller puts that caller
      in the place of the first function, but the call on the stack still has its context.  It is taken off the counts
      once too often. */
  lemma LeftElsewhere() returns (ss: seq<State>)
    ensures |ss| == |OTHER_FUNCTION| + 1 && ss[0] == Init(CONF)
    ensures forall i :: 0 <= i < |OTHER_FUNCTION| ==> Goes(ss[i], OTHER_FUNCTION[i], ss[i + 1])
    ensures forall i :: 0 <= i <= 5 ==> ActiveOk(ss[i])
    ensures BottomCxt(ss[5].frames, ss[5].cur.cxt) == Some(CF) && ss[5].fns == [0, 0, 2]
    ensures Get(ss[6].active, 1) == UINT - 1 && Expected(ss[6].frames, ss[6].fns, 1) == 0
    ensures Get(ss[6].active, 2) == 1 && Expected(ss[6].frames, ss[6].fns, 2) == 0
  {
    hide Step, ActiveOk;
    InitExact(CONF);
    InterruptThread();
    var s2 := HandlerStarts();
    var s3 := HandlerCalls(s2);
    var s4 := HandlerLeaves(s3);
    var s5 := HandlerReturns(s4);
    var s6 := HandlerEnds(s5);
    assert Front([AGAIN]) == [];
    ss := [Init(CONF), INTERRUPTED, s2, s3, s4, s5, s6];
  }
}
