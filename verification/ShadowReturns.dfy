/**
 Calls and the returns that match them.  Which returns are taken as returns, and what is left on the call stack; and the
 bracket of a call: once its return is taken, everything is as before the call.
*/
module ShadowReturns {
  import opened Common
  import opened ShadowModel
  import opened ShadowProof
  import opened ShadowRuns
  import opened ShadowSignals

  // ---------------------------------------------------------------- which returns are taken

  /** From `i` up, all calls were made with this stack pointer. */
  ghost predicate TopRun(frames: seq<Frame>, sp: nat, i: nat) {
    i < |frames| && forall j :: i <= j < |frames| ==> frames[j].sp == sp
  }

  /** One of these calls returns to `addr`. */
  ghost predicate Matches(frames: seq<Frame>, sp: nat, addr: nat, i: nat) {
    TopRun(frames, sp, i) && frames[i].retAddr == addr
  }

  /** ... and none above it does. */
  ghost predicate Innermost(frames: seq<Frame>, sp: nat, addr: nat, i: nat) {
    Matches(frames, sp, addr, i) && forall j :: i < j < |frames| ==> frames[j].retAddr != addr
  }

  lemma MatchesFront(frames: seq<Frame>, sp: nat, addr: nat, i: nat)
    requires frames != [] && Last(frames).sp == sp && i < |frames| - 1
    ensures Matches(frames, sp, addr, i) <==> Matches(Front(frames), sp, addr, i)
  {
    var f := Front(frames);
    assert forall j :: 0 <= j < |f| ==> f[j] == frames[j];
    if Matches(f, sp, addr, i) {
      forall j | i <= j < |frames| ensures frames[j].sp == sp {
        assert j < |f| ==> f[j].sp == sp;
      }
    }
  }

  /** The count leads to the innermost call that matches; it is 0 if none does. */
  lemma {:induction false} PopCountIs(frames: seq<Frame>, sp: nat, addr: nat)
    ensures PopCount(frames, sp, addr) <= |frames|
    ensures var n := PopCount(frames, sp, addr); n > 0 ==> Innermost(frames, sp, addr, |frames| - n)
    ensures PopCount(frames, sp, addr) == 0 ==> forall i: nat :: !Matches(frames, sp, addr, i)
  {
    var n := PopCount(frames, sp, addr);
    if frames != [] && Last(frames).sp == sp && Last(frames).retAddr != addr {
      PopCountIs(Front(frames), sp, addr);
      if n > 0 {
        MatchesFront(frames, sp, addr, |frames| - n);
        assert forall j :: 0 <= j < |frames| - 1 ==> Front(frames)[j] == frames[j];
      } else {
        forall i: nat ensures !Matches(frames, sp, addr, i) {
          if i < |frames| - 1 { MatchesFront(frames, sp, addr, i); }
        }
      }
    }
  }

  /** A block that follows a return instruction is reached by a return exactly if the call stack is empty, the stack
      pointer is above that of the last call, or it is equal and one of the calls made with it returns to the block. */
  lemma TakenIff(s: State, bb: Bb, sp: nat)
    ensures IsReturn(s, bb, sp) <==>
      LastKind(s).Return?
      && (s.frames == [] || sp > Last(s.frames).sp || exists i: nat :: Matches(s.frames, sp, bb.addr, i))
  {
    PopCountIs(s.frames, sp, bb.addr);
    var n := PopCount(s.frames, sp, bb.addr);
    hide PopCount;
    if s.frames != [] && Last(s.frames).sp != sp {
      forall i: nat ensures !Matches(s.frames, sp, bb.addr, i) {
        if i < |s.frames| { assert Last(s.frames) == s.frames[|s.frames| - 1]; }
      }
    } else if n > 0 {
      assert Matches(s.frames, sp, bb.addr, |s.frames| - n);
    }
  }

  /** A block is taken to be called, besides by call instructions, if a return instruction led to it that is not taken for a
      return; and, after any other jump, if it is the entry of a function or lies in another section or object. */
  lemma CalledIff(s: State, bb: Bb, sp: nat)
    requires s.cur.bbcc.Some?
    ensures LastKind(s).Call? ==> !Emulated(s, bb, sp)
    ensures LastKind(s).Return? ==> (Emulated(s, bb, sp) <==>
      s.frames != [] && sp <= Last(s.frames).sp && forall i: nat :: !Matches(s.frames, sp, bb.addr, i))
    ensures LastKind(s).Jump? || LastKind(s).JNone? ==> (Emulated(s, bb, sp) <==>
      bb.isEntry || bb.sect != s.cur.bbcc.value.bb.sect || bb.obj != s.cur.bbcc.value.bb.obj)
  {
    TakenIff(s, bb, sp);
    hide ReturnPops, PopCount, Matches;
  }

  // ---------------------------------------------------------------- what is left on the stack

  lemma PopFrames(c: Conf, s: State)
    requires s.frames != [] && s.states != []
    ensures Pop(c, s).frames == Front(s.frames)
  {
  }

  /** Unwinding to `k` calls is right: those above were made with the stack pointer below `sp`, or as one of the
      `minpops` last with it equal, and the next one below was not. */
  ghost predicate Stops(frames: seq<Frame>, sp: nat, minpops: int, k: nat) {
    && k <= |frames|
    && (forall i :: k <= i < |frames| ==> frames[i].sp < sp || (frames[i].sp == sp && |frames| - i <= minpops))
    && (k == 0 || frames[k - 1].sp > sp || (frames[k - 1].sp == sp && |frames| - k >= minpops))
  }

  lemma {:induction false} UnwindStops(c: Conf, s: State, sp: nat, minpops: int)
    requires s.states != []
    ensures var r := Unwind(c, s, sp, minpops).frames; r <= s.frames && Stops(s.frames, sp, minpops, |r|)
    decreases |s.frames|
  {
    hide Pop;
    var r := Unwind(c, s, sp, minpops).frames;
    if Passed(s, sp, minpops) {
      PopFrames(c, s);
      UnwindStops(c, Pop(c, s), sp, minpops - 1);
      StopsFront(s.frames, sp, minpops, |r|);
    }
  }

  lemma StopsFront(frames: seq<Frame>, sp: nat, minpops: int, k: nat)
    requires frames != [] && Stops(Front(frames), sp, minpops - 1, k)
    requires Last(frames).sp < sp || (Last(frames).sp == sp && minpops > 0)
    ensures Stops(frames, sp, minpops, k)
  {
    var f := Front(frames);
    assert forall i :: 0 <= i < |f| ==> f[i] == frames[i];
    assert Last(frames) == frames[|f|];
  }

  /** A return with an unchanged stack pointer leaves the innermost matching call and all above; it leaves exactly those,
      if and only if the next call below was not made with a lower stack pointer. */
  lemma EqualReturn(c: Conf, s: State, bb: Bb, sp: nat, g: Found, i: nat)
    requires s.states != [] && s.fns != [] && LastKind(s).Return? && Innermost(s.frames, sp, bb.addr, i) && !NoCall(s)
    ensures IsReturn(s, bb, sp)
    ensures Arrive(c, s, bb, sp, g).frames <= s.frames[..i]
    ensures Arrive(c, s, bb, sp, g).frames == s.frames[..i] <==> i == 0 || s.frames[i - 1].sp >= sp
  {
    hide Unwind;
    TakenIff(s, bb, sp);
    PopCountIs(s.frames, sp, bb.addr);
    var n := PopCount(s.frames, sp, bb.addr);
    OneInnermost(s.frames, sp, bb.addr, i, |s.frames| - n);
    UnwindStops(c, s, sp, n);
    assert Last(s.frames) == s.frames[|s.frames| - 1];
    StopsAt(s.frames, sp, i, |Arrive(c, s, bb, sp, g).frames|);
  }

  lemma OneInnermost(frames: seq<Frame>, sp: nat, addr: nat, i: nat, k: nat)
    requires Innermost(frames, sp, addr, i)
    ensures Innermost(frames, sp, addr, k) ==> i == k
  {
  }

  lemma StopsAt(frames: seq<Frame>, sp: nat, i: nat, k: nat)
    requires TopRun(frames, sp, i) && Stops(frames, sp, |frames| - i, k)
    ensures k <= i && (k == i <==> i == 0 || frames[i - 1].sp >= sp)
  {
  }

  // ---------------------------------------------------------------- going back

  /** Where an execution is: the function stack, the context, and the caller of the skipped functions that it is in. */
  datatype Place = Place(fns: seq<Fn>, cxt: Option<Cxt>, nonskipped: Option<Bbcc>)

  function PlaceOf(s: State): Place { Place(s.fns, s.cur.cxt, s.cur.nonskipped) }

  /** Where a call was made from. */
  function Caller(f: Frame, p: Place): Place {
    if f.jcc.None? then Place(p.fns, p.cxt, f.nonskipped)
    else Place(if f.fnSp < |p.fns| then p.fns[..f.fnSp + 1] else p.fns, f.cxt, f.nonskipped)
  }

  /** Where the first of these calls was made from. */
  function Back(calls: seq<Frame>, p: Place): Place {
    if calls == [] then p else Back(Front(calls), Caller(Last(calls), p))
  }

  lemma BackOne(calls: seq<Frame>, f: Frame, p: Place)
    ensures Back(calls + [f], p) == Back(calls, Caller(f, p))
  {
    assert Front(calls + [f]) == calls;
  }

  /** How much of the function stack is left depends on how high it is only. */
  lemma {:induction false} BackLength(calls: seq<Frame>, p: Place, q: Place)
    requires |p.fns| == |q.fns|
    ensures var a, b := Back(calls, p).fns, Back(calls, q).fns;
      |a| == |b| && a <= p.fns && b <= q.fns
  {
    if calls != [] {
      BackLength(Front(calls), Caller(Last(calls), p), Caller(Last(calls), q));
    }
  }

  /** There is a function between the last marker and the current one: a return is not taken for an underflow. */
  predicate Deep(s: State) { |s.fns| > 1 && s.fns[|s.fns| - 2] != 0 }

  /** `s` is reached from `s0`, in the same handler, and the calls of `s0` are still open.  Going back through the calls
      made since leads to where `s0` was. */
  ghost predicate Open(s0: State, s: State) {
    && s0.states != [] && |s.states| == |s0.states| && Front(s.states) == Front(s0.states)
    && Last(s.states).bottom == Last(s0.states).bottom <= |s0.frames|
    && s0.costs != [] && |s.costs| == |s0.costs| && Front(s.costs) == Front(s0.costs)
    && s0.frames <= s.frames && |s0.fns| > 1 && s.cur.cxt.Some?
    && Leads(s0, s.frames[|s0.frames|..], PlaceOf(s))
  }

  ghost predicate Leads(s0: State, calls: seq<Frame>, p: Place)
    requires s0.fns != []
  {
    var b := Back(calls, p);
    |b.fns| == |s0.fns| && Front(b.fns) == Front(s0.fns) && (Deep(s0) ==> b == PlaceOf(s0))
  }

  lemma OpenSelf(s0: State)
    requires Inv(s0, false) && s0.cur.cxt.Some?
    ensures Open(s0, s0) && Within(s0, s0)
  {
    hide PartsOk, Chain;
    CurrentTop(s0, false);
    InvCosts(s0);
    AtLeastTwo(s0);
    assert s0.frames[|s0.frames|..] == [];
  }

  lemma AtLeastTwo(s0: State)
    requires Inv(s0, false) && s0.cur.cxt.Some?
    ensures |s0.fns| > 1
  {
    hide PartsOk, Chain;
    CurrentTop(s0, false);
  }

  /** A call that was made since is taken off. */
  lemma OpenPop(c: Conf, s0: State, s: State)
    requires Open(s0, s) && |s.frames| > |s0.frames| && Inv(s, false)
    ensures Pop(c, s) == PopFrame(c, s) && Open(s0, PopFrame(c, s))
  {
    hide Back, PopFrame, PartsOk;
    InvPopFrame(c, s, false);
    var n, f := |s0.frames|, Last(s.frames);
    InsidePart(c, s);
    PopPlace(c, s);
    assert s.frames[n..] == Front(s.frames)[n..] + [f];
    BackOne(Front(s.frames)[n..], f, PlaceOf(s));
  }

  lemma PopPlace(c: Conf, s: State)
    requires s.frames != []
    ensures var r := PopFrame(c, s);
      && r.frames == Front(s.frames) && r.states == s.states && r.costs == s.costs
      && PlaceOf(r) == Caller(Last(s.frames), PlaceOf(s))
  {
  }

  // ---------------------------------------------------------------- the function stack above

  /** Above where the calls of `s0` left it there are no markers. */
  lemma OpenDeep(s0: State, s: State)
    requires Open(s0, s) && Inv(s, false) && Inv(s0, false) && s0.cur.cxt.Some? && Deep(s0)
    ensures Deep(s)
  {
    hide PartsOk, Chain;
    BackLength(s.frames[|s0.frames|..], PlaceOf(s), PlaceOf(s));
    assert s0.fns <= s.fns;
    CurrentTop(s0, false);
    ZerosAre(s0.states, s0.cur, s0.frames, s0.fns, false);
    ZerosAre(s.states, s.cur, s.frames, s.fns, false);
    if |s.fns| >= |s0.fns| + 2 {
      NoMarkerAbove(s0.fns, s.fns, |s.fns| - 2);
    }
  }

  lemma NoMarkerAbove(b: seq<Fn>, fns: seq<Fn>, k: nat)
    requires b <= fns && Zeros(b) == Zeros(fns) && |b| <= k < |fns|
    ensures fns[k] != 0
  {
    assert fns[..k][..|b|] == b;
    ZerosGrow(fns[..k], |b|);
    if fns[k] == 0 {
      ZerosSplit(fns, k);
    }
  }

  lemma {:induction false} ZerosGrow(fns: seq<Fn>, t: nat)
    requires t <= |fns|
    ensures Zeros(fns[..t]) <= Zeros(fns)
  {
    if t < |fns| {
      ZerosGrow(Front(fns), t);
      assert Front(fns)[..t] == fns[..t];
    } else {
      assert fns[..t] == fns;
    }
  }

  /** An underflow can only be repaired if there is nothing between the marker and the current function. */
  lemma OpenUnderflow(c: Conf, s0: State, s: State, caller: Fn, g: Found)
    requires Open(s0, s) && QInv(s, false) && Inv(s0, false) && s0.cur.cxt.Some?
    requires NoCall(s) && s.cur.bbcc.Some? && caller != 0
    ensures Open(s0, Pop(c, Underflow(c, s, caller, g)))
  {
    hide PartsOk, Chain, Pop, Underflow, Back;
    TopPart(s, false);
    NoCallTop(s, false);
    if Deep(s0) {
      OpenDeep(s0, s);
      assert false;
    } else {
      UnderflowParts(c, s, caller, g);
      var r, calls := Pop(c, Underflow(c, s, caller, g)), s.frames[|s0.frames|..];
      BackLength(calls, PlaceOf(s), PlaceOf(r));
      SameFront(s.fns, r.fns, Back(calls, PlaceOf(s)).fns, Back(calls, PlaceOf(r)).fns);
    }
  }

  lemma SameFront(f: seq<Fn>, g: seq<Fn>, a: seq<Fn>, b: seq<Fn>)
    requires f != [] && |f| == |g| && Front(f) == Front(g) && a <= f && b <= g && |a| == |b| > 0
    ensures Front(a) == Front(b)
  {
    forall k | 0 <= k < |a| - 1 ensures a[k] == b[k] {
      assert Front(f)[k] == Front(g)[k];
    }
  }

  // ---------------------------------------------------------------- one step

  /** `s` is reached from `s0`, perhaps in a handler that has come since, and the calls of `s0` are still open. */
  ghost predicate Within(s0: State, s: State) {
    Open(s0, s) || exists q :: Interrupted(s0, q) && Above(q, s)
  }

  ghost predicate Interrupted(s0: State, q: State) { Open(s0, q) && QInv(q, false) }

  /** A handler that is left gives back where it came from. */
  lemma WithinPostSignal(c: Conf, s0: State, s: State)
    requires Within(s0, s) && Inv(s, false) && |s.states| > |s0.states|
    ensures Within(s0, PostSignal(c, s))
  {
    hide PartsOk, PostSignal, Above, QInv, Open;
    OpenSize(s0, s);
    var q :| Interrupted(s0, q) && Above(q, s);
    OpenSize(s0, q);
    AboveSize(q, s);
    if |s.states| > |q.states| + 1 {
      AbovePostSignal(c, q, s);
    } else {
      LeaveRestores(c, q, s);
      BackTo(s0, q, PostSignal(c, s));
    }
  }

  lemma OpenSize(s0: State, s: State)
    ensures Open(s0, s) ==> |s.states| == |s0.states| && s.states != []
  {
  }

  lemma AboveSize(q: State, s: State)
    requires Above(q, s)
    ensures |s.states| > |q.states|
  {
  }

  lemma BackTo(s0: State, q: State, r: State)
    requires Interrupted(s0, q) && q.states != []
    requires r.states == Save(q).states && r.cur == Last(Save(q).states) && r.frames == q.frames && r.fns == q.fns && r.costs == q.costs
    ensures Open(s0, r)
  {
    hide PartsOk, Back, Zeros, BbccOk;
    assert Front(r.states) == Front(q.states);
    assert PlaceOf(r) == PlaceOf(q);
  }

  lemma WithinPop(c: Conf, s0: State, s: State)
    requires Within(s0, s) && Inv(s, false) && PopOk(s) && |s.frames| > |s0.frames|
    ensures Within(s0, Pop(c, s))
  {
    hide PartsOk, Pop, Above, QInv, Open, PopFrame, PostSignal;
    if Open(s0, s) {
      OpenPop(c, s0, s);
    } else {
      var q :| Interrupted(s0, q) && Above(q, s);
      OpenSize(s0, q);
      AboveSize(q, s);
      if |Pop(c, s).states| > |q.states| {
        AbovePop(c, q, s);
      } else {
        PopLeaves(c, q, s);
        LeaveRestores(c, q, s);
        BackTo(s0, q, PostSignal(c, s));
        PopFrames(c, s);
        KeepsFrames(c, s);
        InvPostSignal(c, s, false);
        OpenPop(c, s0, PostSignal(c, s));
      }
    }
  }

  /** A pop that leaves the outermost handler. */
  lemma PopLeaves(c: Conf, q: State, s: State)
    requires Above(q, s) && Inv(s, false) && s.frames != [] && |Pop(c, s).states| <= |q.states|
    ensures |s.states| == |q.states| + 1 && LeaveAtBottom(c, s) == PostSignal(c, s) && Pop(c, s) == PopFrame(c, PostSignal(c, s))
  {
    hide PartsOk, PostSignal, PopFrame;
    PopStates(c, LeaveAtBottom(c, s));
  }

  lemma PopStates(c: Conf, s: State)
    requires s.frames != []
    ensures PopFrame(c, s).states == s.states
  {
  }

  lemma {:induction false} WithinUnwind(c: Conf, s0: State, s: State, sp: nat, minpops: int)
    requires Within(s0, s) && Inv(s, false) && UnwindOk(c, s, sp, minpops)
    requires |Unwind(c, s, sp, minpops).frames| >= |s0.frames|
    ensures Within(s0, Unwind(c, s, sp, minpops))
    decreases |s.frames|
  {
    hide Pop, Within, PartsOk;
    if Passed(s, sp, minpops) {
      InvPop(c, s, false);
      PopFrames(c, s);
      WithinPop(c, s0, s);
      WithinUnwind(c, s0, Pop(c, s), sp, minpops - 1);
    }
  }

  lemma WithinUnderflow(c: Conf, s0: State, s: State, caller: Fn, g: Found)
    requires Within(s0, s) && QInv(s, false) && Inv(s0, false) && s0.cur.cxt.Some?
    requires NoCall(s) && s.cur.bbcc.Some? && caller != 0
    ensures Within(s0, Pop(c, Underflow(c, s, caller, g)))
  {
    hide Pop, Underflow, Open, Above, QInv, Inv, NoCall;
    if Open(s0, s) {
      OpenUnderflow(c, s0, s, caller, g);
    } else {
      var q :| Interrupted(s0, q) && Above(q, s);
      AboveUnderflow(c, q, s, caller, g);
    }
  }

  /** What is executed does not matter. */
  lemma WithinBbcc(s0: State, s: State, b: Option<Bbcc>)
    requires Within(s0, s)
    ensures Within(s0, s.(cur := s.cur.(bbcc := b)))
  {
    hide Zeros, Back, Save, QInv;
    var r := s.(cur := s.cur.(bbcc := b));
    if Open(s0, s) {
      assert PlaceOf(r) == PlaceOf(s);
    } else {
      var q :| Interrupted(s0, q) && Above(q, s);
      assert Above(q, r);
    }
  }

  /** Whatever leads to a block, if it leaves no call of `s0`. */
  lemma WithinArrive(c: Conf, s0: State, s: State, bb: Bb, sp: nat, g: Found)
    requires Within(s0, s) && QInv(s, false) && Inv(s0, false) && s0.cur.cxt.Some?
    requires bb.fn != 0 && ArriveOk(c, s, bb, sp, false)
    requires s.fns != [] && s.states != [] && |Arrive(c, s, bb, sp, g).frames| >= |s0.frames|
    ensures Within(s0, Arrive(c, s, bb, sp, g))
  {
    hide PartsOk, Pop, Underflow, Within, PopOk;
    if IsReturn(s, bb, sp) {
      if NoCall(s) {
        WithinUnderflow(c, s0, s, bb.fn, g);
      } else {
        WithinUnwind(c, s0, s, sp, ReturnPops(s, bb, sp));
      }
    } else {
      var o := PopOnJump(c, s, bb, sp);
      InvPopOnJump(c, s, bb, sp, false);
      UnwindStops(c, o.state, o.sp, 0);
      if o.state != s {
        var from := Some(Last(s.frames).jcc.value.from);
        TopPart(s, false);
        PopIgnoresBbcc(c, s, from, false);
        WithinBbcc(s0, s, from);
        PopFrames(c, s.(cur := s.cur.(bbcc := from)));
        PopOkSame(s, from);
        WithinPop(c, s0, s.(cur := s.cur.(bbcc := from)));
      }
      WithinUnwind(c, s0, o.state, o.sp, 0);
    }
  }

  lemma PopOkSame(s: State, b: Option<Bbcc>)
    requires s.states != []
    ensures PopOk(s.(cur := s.cur.(bbcc := b))) <==> PopOk(s)
  {
  }

  /** What entering a block adds to the call stack: nothing, or a call made from where the execution was. */
  ghost predicate Continues(s: State, r: State) {
    && r.states == s.states && r.costs == s.costs && r.cur.cxt.Some?
    && if |r.frames| == |s.frames| then r.frames == s.frames && PlaceOf(r) == PlaceOf(s)
       else r.frames != [] && r.frames == s.frames + [Last(r.frames)] && Caller(Last(r.frames), PlaceOf(r)) == PlaceOf(s)
  }

  /** A call is made from where the execution is. */
  lemma CallContinues(c: Conf, s: State, fn: Fn, id: nat, a: map<Fn, nat>, from: Bbcc, jmp: nat, to: Bbcc, sp: nat)
    requires s.fns != [] && fn != 0 && Last(s.fns) != 0 && s.cur.cxt.Some?
    ensures Continues(s, PushCall(c, PushCxt(s, fn, id).(active := a), from, jmp, to, sp, false))
  {
    hide PushCall, PushCxt;
    CallParts(c, s, fn, id, a, from, jmp, to, sp);
    assert Entered(s.fns, fn)[..|s.fns|] == s.fns;
  }

  lemma SkipContinues(c: Conf, s: State, a: map<Fn, nat>, from: Bbcc, jmp: nat, to: Bbcc, sp: nat)
    requires s.cur.cxt.Some?
    ensures Continues(s, PushCall(c, s.(active := a), from, jmp, to, sp, true))
  {
  }

  lemma SettleContinues(c: Conf, s: State, bb: Bb, calls: bool, skip: bool, o: Origin, sp: nat, id: nat)
    requires Inv(s, false) && s.cur.cxt.Some? && bb.fn != 0
    ensures s.fns != [] && Continues(s, Settle(c, s, bb, calls, skip, o, sp, id))
  {
    hide PartsOk, Chain, PushCall, Choose, PushCxt, Inv;
    CurrentTop(s, false);
    PushCxtIs(s, bb.fn, id);
    var s1 := if calls && !skip then PushCxt(s, bb.fn, id) else s;
    assert s1.cur.cxt.Some?;
    var (a, bbcc) := Choose(c, s1, bb, calls && !skip);
    var s2 := s1.(active := a);
    var r := Settle(c, s, bb, calls, skip, o, sp, id);
    if calls {
      var from, jmp := CallFrom(s, o, bbcc, skip), CallJmp(s, o, skip);
      CallFromIs(c, s, s2, o, sp, bbcc, skip);
      hide Enter;
      if skip {
        SkipContinues(c, s, a, from, jmp, bbcc, sp);
      } else {
        CallContinues(c, s, bb.fn, id, a, from, jmp, bbcc, sp);
      }
      ExecutingContinues(s, Enter(c, s2, o, sp, bbcc, skip), bbcc);
    } else {
      ExecutingContinues(s, s2, bbcc);
    }
  }

  lemma ExecutingContinues(s: State, r: State, bbcc: Bbcc)
    requires Continues(s, r)
    ensures Continues(s, Executing(r, bbcc))
  {
    assert PlaceOf(Executing(r, bbcc)) == PlaceOf(r);
  }

  /** The block that a call is attributed to: the last one that was not skipped. */
  function CallFrom(s: State, o: Origin, bbcc: Bbcc, skip: bool): Bbcc {
    if !skip && s.cur.nonskipped.Some? then s.cur.nonskipped.value
    else if s.cur.bbcc.Some? then s.cur.bbcc.value else bbcc
  }

  function CallJmp(s: State, o: Origin, skip: bool): nat {
    if !skip && s.cur.nonskipped.Some? then
      var n := |s.cur.nonskipped.value.bb.jmps|; if n == 0 then 0 else n - 1
    else o.jmp
  }

  lemma CallFromIs(c: Conf, s: State, s2: State, o: Origin, sp: nat, bbcc: Bbcc, skip: bool)
    requires s2.cur.nonskipped == s.cur.nonskipped && s2.cur.bbcc == s.cur.bbcc
    ensures Enter(c, s2, o, sp, bbcc, skip) == PushCall(c, s2, CallFrom(s, o, bbcc, skip), CallJmp(s, o, skip), bbcc, sp, skip)
  {
    hide PushCall;
  }

  lemma OpenContinues(s0: State, s: State, r: State)
    requires Open(s0, s) && Continues(s, r)
    ensures Open(s0, r)
  {
    hide Back, Caller;
    var n := |s0.frames|;
    if |r.frames| > |s.frames| {
      assert r.frames[n..] == s.frames[n..] + [Last(r.frames)];
      BackOne(s.frames[n..], Last(r.frames), PlaceOf(r));
    }
  }

  lemma WithinSettle(c: Conf, s0: State, s: State, bb: Bb, calls: bool, skip: bool, o: Origin, sp: nat, id: nat)
    requires Within(s0, s) && Inv(s, false) && bb.fn != 0 && s.fns != []
    ensures Within(s0, Settle(c, s, bb, calls, skip, o, sp, id))
  {
    hide PartsOk, Settle, Above, QInv, Leads, Continues;
    if Open(s0, s) {
      SettleContinues(c, s, bb, calls, skip, o, sp, id);
      OpenContinues(s0, s, Settle(c, s, bb, calls, skip, o, sp, id));
    } else {
      var q :| Interrupted(s0, q) && Above(q, s);
      AboveSettle(c, q, s, bb, calls, skip, o, sp, id);
    }
  }

  /** The calls of `s0` stay open: no return or jump leaves them, nor does the handler that they are in end. */
  ghost predicate Keeps(c: Conf, s0: State, s: State, op: Op)
    requires s.fns != [] && s.states != []
  {
    && (op.Block? ==> |Arrive(c, s, op.bb, op.sp, op.g).frames| >= |s0.frames|)
    && (op.SigReturn? ==> |s.states| > |s0.states|)
  }

  lemma WithinBlock(c: Conf, s0: State, s: State, bb: Bb, sp: nat, g: Found)
    requires Within(s0, s) && QInv(s, false) && Inv(s0, false) && s0.cur.cxt.Some?
    requires s.fns != [] && s.states != [] && Enabled(s, Block(bb, sp, g)) && Clean(c, s, Block(bb, sp, g), false)
    requires Keeps(c, s0, s, Block(bb, sp, g))
    ensures Within(s0, SetupBbcc(c, s, bb, sp, g))
  {
    hide PartsOk, Arrive, Settle, Within, PopOnJump, Calls, ArriveOk, BbccOk;
    var s1, o, calls := Arrive(c, s, bb, sp, g), PopOnJump(c, s, bb, sp), Calls(c, s, bb, sp);
    InvArrive(c, s, bb, sp, g, false);
    WithinArrive(c, s0, s, bb, sp, g);
    TopPart(s1, false);
    var sp' := if Emulated(s, bb, sp) && s1.frames != [] then Last(s1.frames).sp else o.sp;
    WithinSettle(c, s0, s1, bb, calls, bb.fn in c.skip, o, sp', g.entered);
  }

  lemma WithinOther(c: Conf, s0: State, s: State, op: Op)
    requires Within(s0, s) && QInv(s, false) && s.fns != [] && s.states != [] && Enabled(s, op) && (op.Leave? || op.Spend?)
    ensures Within(s0, Step(c, s, op))
  {
    hide Zeros, Back, Save, PartsOk, Caller, BbccOk;
    var r := Step(c, s, op);
    if Open(s0, s) {
      InvCosts(s);
      assert PlaceOf(r) == PlaceOf(s);
      assert Front(r.costs) == Front(s.costs);
    } else {
      var q :| Interrupted(s0, q) && Above(q, s);
      AboveOther(c, q, s, op);
    }
  }

  lemma AboveOther(c: Conf, q: State, s: State, op: Op)
    requires Above(q, s) && QInv(s, false) && s.fns != [] && s.states != [] && Enabled(s, op) && (op.Leave? || op.Spend?)
    ensures Above(q, Step(c, s, op))
  {
    AboveSize(q, s);
    AboveStep(c, q, s, op);
  }

  lemma WithinSignal(c: Conf, s0: State, s: State, sig: nat)
    requires Within(s0, s) && QInv(s, false) && s.fns != [] && s.states != [] && sig > 0
    ensures Within(s0, PreSignal(c, s, sig))
  {
    hide Open, Above, Inv, BbccOk, PreSignal;
    if Open(s0, s) {
      EnterAbove(c, s, sig);
      assert Interrupted(s0, s);
    } else {
      var q :| Interrupted(s0, q) && Above(q, s);
      AbovePreSignal(c, q, s, sig);
    }
  }

  lemma WithinStep(c: Conf, s0: State, s: State, op: Op)
    requires Within(s0, s) && QInv(s, false) && Inv(s0, false) && s0.cur.cxt.Some?
    requires s.fns != [] && s.states != [] && Enabled(s, op) && Clean(c, s, op, false) && Keeps(c, s0, s, op)
    ensures Within(s0, Step(c, s, op))
  {
    hide Within, Inv, BbccOk, Clean, SetupBbcc, PreSignal, PostSignal;
    match op
    case Block(bb, sp, g) => WithinBlock(c, s0, s, bb, sp, g);
    case Leave(jmp) => WithinOther(c, s0, s, op);
    case Spend(n) => WithinOther(c, s0, s, op);
    case Signal(sig) => WithinSignal(c, s0, s, sig);
    case SigReturn => WithinPostSignal(c, s0, s);
  }

  // ---------------------------------------------------------------- runs

  ghost predicate Stays(c: Conf, s0: State, s: State, ops: seq<Op>)
    requires Legal(c, s, ops, false)
    decreases |ops|
  {
    ops != [] ==> Keeps(c, s0, s, ops[0]) && Stays(c, s0, Step(c, s, ops[0]), ops[1..])
  }

  lemma {:induction false} WithinRun(c: Conf, s0: State, s: State, ops: seq<Op>)
    requires Within(s0, s) && QInv(s, false) && Inv(s0, false) && s0.cur.cxt.Some?
    requires Legal(c, s, ops, false) && Stays(c, s0, s, ops)
    ensures Within(s0, Run(c, s, ops, false)) && QInv(Run(c, s, ops, false), false)
    decreases |ops|
  {
    hide Within, QInv, Inv, Step, Keeps, Clean, Enabled;
    if ops != [] {
      InvStep(c, s, ops[0], false);
      WithinStep(c, s0, s, ops[0]);
      WithinRun(c, s0, Step(c, s, ops[0]), ops[1..]);
    }
  }

  lemma Balanced(s0: State, s: State)
    requires Within(s0, s) && |s.states| == |s0.states|
    ensures Open(s0, s)
  {
    hide Leads, Zeros, Save;
  }

  /** The call stack, the function stack but for its top, and what is saved for interrupted executions. */
  ghost predicate SameStacks(s: State, r: State) {
    && r.frames == s.frames
    && |r.fns| == |s.fns| > 0 && Front(r.fns) == Front(s.fns)
    && |r.states| == |s.states| > 0 && Front(r.states) == Front(s.states)
    && |r.costs| == |s.costs| > 0 && Front(r.costs) == Front(s.costs)
  }

  /** Whatever runs while the calls of `s` stay open: calls, returns, jumps over several calls, underflows, handlers that
      return or are jumped out of.  When the call stack is back to its height in the same handler it is the same call
      stack; and, unless there is no function between marker and current one, the function stack, the context and the
      caller of skipped functions are the same. */
  lemma SameHeight(c: Conf, s: State, ops: seq<Op>)
    requires QInv(s, false) && s.cur.cxt.Some? && Legal(c, s, ops, false) && Stays(c, s, s, ops)
    ensures var r := Run(c, s, ops, false);
      |r.frames| == |s.frames| && |r.states| == |s.states| ==> SameStacks(s, r) && (Deep(s) ==> PlaceOf(r) == PlaceOf(s))
  {
    hide PartsOk, Run, Stays, BbccOk;
    var r := Run(c, s, ops, false);
    OpenSelf(s);
    WithinRun(c, s, s, ops);
    if |r.frames| == |s.frames| && |r.states| == |s.states| {
      Balanced(s, r);
      assert r.frames[|s.frames|..] == [];
    }
  }

  // ---------------------------------------------------------------- a call and its return

  /** Where the call that `s` makes returns to.  The call of a function that is not skipped, from functions that are, counts
      as a call by the last jump of the block that called those. */
  function ReturnTo(c: Conf, s: State, bb: Bb): nat
    requires s.cur.bbcc.Some? && s.cur.jmps < |s.cur.bbcc.value.bb.jmps|
  {
    if bb.fn !in c.skip && s.cur.nonskipped.Some? then
      var jmps := s.cur.nonskipped.value.bb.jmps;
      if jmps != [] && jmps[|jmps| - 1].kind.Call? then jmps[|jmps| - 1].retAddr else 0
    else s.cur.bbcc.value.bb.jmps[s.cur.jmps].retAddr
  }

  /** Whom a call is attributed to: the block that it was made by or, if that is part of skipped functions, the block that called the
      first of them by its last jump.  A skipped call is not attributed at all, but its caller is kept in mind. */
  ghost predicate Attributed(s: State, r: State, skip: bool, jmp: nat) {
    && r.frames != []
    && (skip ==> Last(r.frames).jcc == None
                 && r.cur.nonskipped == if s.cur.nonskipped.Some? then s.cur.nonskipped else s.cur.bbcc)
    && (!skip ==> r.cur.nonskipped == None && Last(r.frames).jcc.Some? && r.cur.bbcc.Some?
                  && Last(r.frames).jcc.value.to == r.cur.bbcc.value)
    && (!skip && s.cur.nonskipped.None? && s.cur.bbcc.Some? ==>
          Last(r.frames).jcc.value.from == s.cur.bbcc.value && Last(r.frames).jcc.value.jmp == jmp)
    && (!skip && s.cur.nonskipped.Some? ==>
          var j, from := Last(r.frames).jcc.value, s.cur.nonskipped.value;
          j.from == from && j.jmp == if from.bb.jmps == [] then 0 else |from.bb.jmps| - 1)
  }

  lemma CallOrigin(c: Conf, s: State, bb: Bb, sp: nat, g: Found)
    requires s.fns != [] && s.states != [] && LastKind(s).Call? && !Passed(s, sp, 0)
    ensures Arrive(c, s, bb, sp, g) == s && Calls(c, s, bb, sp) && PopOnJump(c, s, bb, sp) == Origin(s, sp, s.cur.jmps)
    ensures !Emulated(s, bb, sp)
  {
  }

  /** A call instruction that does not move the stack pointer back pushes one call, made here and now. */
  lemma CallPushes(c: Conf, s: State, bb: Bb, sp: nat, g: Found)
    requires QInv(s, false) && LastKind(s).Call? && !Passed(s, sp, 0) && bb.fn != 0
    ensures s.fns != [] && s.states != [] && s.cur.cxt.Some?
    ensures var r := Step(c, s, Block(bb, sp, g));
      && Continues(s, r) && |r.frames| == |s.frames| + 1
      && Last(r.frames).sp == sp && Last(r.frames).enter == CostOf(s)
      && Last(r.frames).retAddr == ReturnTo(c, s, bb)
      && (Last(r.frames).jcc.None? <==> bb.fn in c.skip) && r.fns == (if bb.fn in c.skip then s.fns else Entered(s.fns, bb.fn))
      && Attributed(s, r, bb.fn in c.skip, s.cur.jmps)
  {
    hide PartsOk, Chain, Settle, Arrive, PopOnJump, Calls, Attributed;
    TopPart(s, false);
    HasCxt(s);
    CurrentTop(s, false);
    CallOrigin(c, s, bb, sp, g);
    SettleContinues(c, s, bb, true, bb.fn in c.skip, Origin(s, sp, s.cur.jmps), sp, g.entered);
    CallFrame(c, s, bb, Origin(s, sp, s.cur.jmps), sp, g.entered);
  }

  /** A jump that is taken for a call, and leaves no call behind, pushes one as if made where the last one was. */
  lemma JumpPushes(c: Conf, s: State, bb: Bb, sp: nat, g: Found)
    requires QInv(s, false) && Emulated(s, bb, sp) && !Passed(s, sp, 0) && bb.fn != 0
    requires s.cur.bbcc.value.bb.fn !in c.popOnJump || s.frames == [] || Last(s.frames).jcc.None?
    ensures s.fns != [] && s.states != [] && s.cur.cxt.Some?
    ensures var r := Step(c, s, Block(bb, sp, g));
      && Continues(s, r) && |r.frames| == |s.frames| + 1 && Attributed(s, r, bb.fn in c.skip, s.cur.jmps)
      && Last(r.frames).sp == (if s.frames != [] then Last(s.frames).sp else sp) && Last(r.frames).enter == CostOf(s)
      && r.fns == (if bb.fn in c.skip then s.fns else Entered(s.fns, bb.fn))
  {
    hide PartsOk, Chain, Settle, Arrive, PopOnJump, Calls, Attributed, Emulated, CostOf;
    TopPart(s, false);
    EmulatedHasBlock(s, bb, sp);
    HasCxt(s);
    CurrentTop(s, false);
    JumpOrigin(c, s, bb, sp, g);
    var sp' := if s.frames != [] then Last(s.frames).sp else sp;
    SettleContinues(c, s, bb, true, bb.fn in c.skip, Origin(s, sp, s.cur.jmps), sp', g.entered);
    CallFrame(c, s, bb, Origin(s, sp, s.cur.jmps), sp', g.entered);
  }

  lemma EmulatedHasBlock(s: State, bb: Bb, sp: nat)
    requires Emulated(s, bb, sp)
    ensures s.cur.bbcc.Some?
  {
  }

  lemma JumpOrigin(c: Conf, s: State, bb: Bb, sp: nat, g: Found)
    requires s.fns != [] && s.states != [] && Emulated(s, bb, sp) && !Passed(s, sp, 0)
    requires s.cur.bbcc.value.bb.fn !in c.popOnJump || s.frames == [] || Last(s.frames).jcc.None?
    ensures Arrive(c, s, bb, sp, g) == s && Calls(c, s, bb, sp) && PopOnJump(c, s, bb, sp) == Origin(s, sp, s.cur.jmps)
  {
    hide ReturnPops;
  }

  lemma HasCxt(s: State)
    requires QInv(s, false) && s.cur.bbcc.Some?
    ensures s.cur.cxt.Some?
  {
    hide PartsOk, Chain;
    TopPart(s, false);
  }

  lemma PushedFrame(c: Conf, s: State, from: Bbcc, jmp: nat, to: Bbcc, sp: nat, skip: bool)
    ensures var r := PushCall(c, s, from, jmp, to, sp, skip);
      && r.frames != [] && Last(r.frames).sp == sp && Last(r.frames).enter == CostOf(s)
      && Last(r.frames).retAddr == RetAddr(from.bb, jmp) && (Last(r.frames).jcc.None? <==> skip)
      && |r.frames| == |s.frames| + 1 && r.fns == s.fns
      && (!skip ==> Last(r.frames).jcc == Some(Jcc(from, jmp, to)) && r.cur.nonskipped == None)
      && (skip ==> Last(r.frames).jcc == None && r.cur.nonskipped == if s.cur.nonskipped.Some? then s.cur.nonskipped else Some(from))
  {
    hide Toggle, Up, CostOf, RetAddr;
  }

  lemma CallFrame(c: Conf, s: State, bb: Bb, o: Origin, sp: nat, id: nat)
    requires s.fns != [] && Last(s.fns) != 0 && s.cur.cxt.Some? && bb.fn != 0 && s.cur.bbcc.Some?
    ensures var r, skip := Settle(c, s, bb, true, bb.fn in c.skip, o, sp, id), bb.fn in c.skip;
      && |r.frames| == |s.frames| + 1 && Last(r.frames).sp == sp && Last(r.frames).enter == CostOf(s)
      && (LastKind(s).Call? && o.jmp == s.cur.jmps ==> Last(r.frames).retAddr == ReturnTo(c, s, bb))
      && (Last(r.frames).jcc.None? <==> skip) && r.fns == (if skip then s.fns else Entered(s.fns, bb.fn))
      && Attributed(s, r, skip, o.jmp)
  {
    hide PushCall, Choose, PushCxt, Enter, CostOf;
    var skip := bb.fn in c.skip;
    PushCxtIs(s, bb.fn, id);
    var s1 := if !skip then PushCxt(s, bb.fn, id) else s;
    assert s1.cur.cxt.Some?;
    var (a, bbcc) := Choose(c, s1, bb, !skip);
    var s2 := s1.(active := a);
    CallFromIs(c, s, s2, o, sp, bbcc, skip);
    PushedFrame(c, s2, CallFrom(s, o, bbcc, skip), CallJmp(s, o, skip), bbcc, sp, skip);
    SameCost(s, s2);
  }

  // ---------------------------------------------------------------- the bracket

  /** A return to the call's return address, or one that has moved the stack pointer back further, but not above
      the calls before. */
  predicate Answers(s: State, f: Frame, bb: Bb, sp: nat) {
    && (sp > f.sp || (sp == f.sp && bb.addr == f.retAddr))
    && (s.frames == [] || Last(s.frames).sp >= sp)
  }

  /** An arc has cost `n` more. */
  function Charged(costs: map<Jcc, int>, j: Jcc, n: int): map<Jcc, int> {
    costs[j := n + if j in costs then costs[j] else 0]
  }

  /** It is taken for a return of this one call. */
  lemma ReturnPopsOne(c: Conf, s: State, s2: State, bb: Bb, sp: nat, g: Found)
    requires s2.states != [] && s2.fns != [] && LastKind(s2).Return? && s2.frames != [] && Front(s2.frames) == s.frames
    requires Answers(s, Last(s2.frames), bb, sp)
    ensures IsReturn(s2, bb, sp) && !Emulated(s2, bb, sp) && !Calls(c, s2, bb, sp)
    ensures !NoCall(s2) ==> Arrive(c, s2, bb, sp, g) == Pop(c, s2)
  {
    hide Pop, Underflow, Calls;
    assert !FalseReturn(s2, bb, sp);
    PopFrames(c, s2);
    assert !Passed(Pop(c, s2), sp, 0);
    OnePop(c, s2, sp);
    NoCalls(c, s2, bb, sp);
  }

  lemma NoCalls(c: Conf, s: State, bb: Bb, sp: nat)
    requires s.states != [] && IsReturn(s, bb, sp)
    ensures !Calls(c, s, bb, sp)
  {
    hide Unwind, PopOnJump;
  }

  lemma OnePop(c: Conf, s: State, sp: nat)
    requires s.states != [] && Passed(s, sp, 1) && !Passed(Pop(c, s), sp, 0)
    ensures Unwind(c, s, sp, 1) == Pop(c, s)
  {
    hide Pop;
  }

  /** What the return does, after a call whose frame is on top again. */
  lemma ReturnLeaves(c: Conf, s: State, s1: State, s2: State, bb: Bb, sp: nat, g: Found)
    requires QInv(s2, false) && Open(s1, s2) && s2.frames == s1.frames && |s1.frames| > Last(s1.states).bottom
    requires Continues(s, s1) && |s1.frames| == |s.frames| + 1 && s2.fns != [] && s2.states != []
    requires LastKind(s2).Return? && Answers(s, Last(s1.frames), bb, sp) && bb.fn != 0
    ensures s2.fns != [] && s2.states != []
    ensures var r := Step(c, s2, Block(bb, sp, g));
      && r.states == s2.states && r.costs == s2.costs
      && (Deep(s1) ==> r.frames == s.frames && PlaceOf(r) == PlaceOf(s))
      && (!Deep(s1) ==> r.frames == s1.frames)
      && (Deep(s1) && Last(s1.frames).jcc.Some? ==>
            r.jccCost == Charged(s2.jccCost, Last(s1.frames).jcc.value, CostOf(s2) - Last(s1.frames).enter))
  {
    hide PartsOk, Settle, Arrive, Calls, PopOnJump, Pop, PopFrame, Back, Underflow, Caller, Charged, CostOf;
    assert Front(s1.frames) == s.frames;
    ReturnPopsOne(c, s, s2, bb, sp, g);
    assert s2.frames[|s1.frames|..] == [];
    NothingSince(PlaceOf(s2));
    var a, o := Arrive(c, s2, bb, sp, g), PopOnJump(c, s2, bb, sp);
    if Deep(s1) {
      InsidePart(c, s2);
      PopPlace(c, s2);
      InvPopFrame(c, s2, false);
      PopCharges(c, s2);
    } else {
      DeepOrNot(s1, s2);
      TakenForUnderflow(c, s2, bb, sp, g);
    }
    SettleContinues(c, a, bb, false, bb.fn in c.skip, o, o.sp, g.entered);
    SettleAdds(c, a, bb, bb.fn in c.skip, o, o.sp, g.entered);
    SettleCharges(c, a, bb, bb.fn in c.skip, o, o.sp, g.entered);
  }

  lemma NothingSince(p: Place)
    ensures Back([], p) == p
  {
  }

  lemma DeepOrNot(s1: State, s2: State)
    requires |s1.fns| > 1 && |s2.fns| == |s1.fns| && Front(s2.fns) == Front(s1.fns)
    ensures Deep(s1) <==> Deep(s2)
  {
    assert Front(s2.fns)[|s2.fns| - 2] == Front(s1.fns)[|s1.fns| - 2];
  }

  lemma TakenForUnderflow(c: Conf, s: State, bb: Bb, sp: nat, g: Found)
    requires QInv(s, false) && s.fns != [] && s.states != [] && IsReturn(s, bb, sp) && NoCall(s) && bb.fn != 0
    ensures var a := Arrive(c, s, bb, sp, g);
      a.frames == s.frames && a.states == s.states && a.costs == s.costs && Inv(a, false) && a.cur.cxt.Some?
  {
    hide PartsOk, Pop, Underflow;
    TopPart(s, false);
    NoCallTop(s, false);
    UnderflowParts(c, s, bb.fn, g);
    InvUnderflow(c, s, bb.fn, g, false);
  }

  lemma SettleAdds(c: Conf, s: State, bb: Bb, skip: bool, o: Origin, sp: nat, id: nat)
    requires s.fns != []
    ensures Settle(c, s, bb, false, skip, o, sp, id).frames == s.frames
  {
    hide Choose;
  }

  /** A call instruction enters a function; anything runs while the call stays open, until the call is on top again and
      a return answers it.  Then the call stack, the function stack, the context and the caller of skipped functions are
      those from before the call - unless the call has left no function between the marker and the current one: then the
      return is taken for one whose call was not seen, and the call stays on the call stack.
      What has been spent in between, handlers apart, is charged to the arc of the call. */
  lemma CallBracket(c: Conf, s: State, bb: Bb, sp: nat, g: Found, ops: seq<Op>, bb2: Bb, sp2: nat, g2: Found)
    requires QInv(s, false) && s.fns != [] && s.states != []
    requires LastKind(s).Call? && !Passed(s, sp, 0) && bb.fn != 0 && bb2.fn != 0
    requires var s1 := Step(c, s, Block(bb, sp, g)); Legal(c, s1, ops, false) && Stays(c, s1, s1, ops)
    requires var s1 := Step(c, s, Block(bb, sp, g)); var s2 := Run(c, s1, ops, false);
      && |s2.frames| == |s1.frames| && |s2.states| == |s1.states| && LastKind(s2).Return?
      && s1.frames != [] && Answers(s, Last(s1.frames), bb2, sp2)
    ensures var s1 := Step(c, s, Block(bb, sp, g)); var s2 := Run(c, s1, ops, false);
      && s2.fns != [] && s2.states != []
      && var r := Step(c, s2, Block(bb2, sp2, g2));
      && (r.frames == s.frames <==> Deep(s1)) && (!Deep(s1) ==> r.frames == s1.frames)
      && (Deep(s1) ==> SameStacks(s, r) && PlaceOf(r) == PlaceOf(s))
      && (Deep(s1) && Last(s1.frames).jcc.Some? ==>
            r.jccCost == Charged(s2.jccCost, Last(s1.frames).jcc.value, CostOf(s2) - CostOf(s)))
  {
    hide *;
    BlocksEnabled();
    var s1 := Step(c, s, Block(bb, sp, g));
    CallPushes(c, s, bb, sp, g);
    CallKeepsInv(c, s, bb, sp, g);
    CallKeeps(s, s1);
    InvOfQ(s1);
    OpenSelf(s1);
    WithinRun(c, s1, s1, ops);
    var s2 := Run(c, s1, ops, false);
    Balanced(s1, s2);
    OpenAgain(s1, s2);
    ReturnLeaves(c, s, s1, s2, bb2, sp2, g2);
    if Deep(s1) {
      SameAgain(s, s1, s2, Step(c, s2, Block(bb2, sp2, g2)));
    }
  }

  lemma BlocksEnabled()
    ensures forall s, bb: Bb, sp, g :: bb.fn != 0 ==> Enabled(s, Block(bb, sp, g))
  {
  }

  lemma InvOfQ(s: State)
    requires QInv(s, false)
    ensures Inv(s, false) && s.fns != [] && s.states != []
  {
    hide PartsOk;
    TopPart(s, false);
  }

  lemma CallKeeps(s: State, s1: State)
    requires Continues(s, s1) && |s1.frames| == |s.frames| + 1 && s.states != [] && Last(s.states).bottom <= |s.frames|
    ensures s1.states == s.states && s1.costs == s.costs && s1.cur.cxt.Some? && |s1.frames| > Last(s1.states).bottom
    ensures s1.frames != [] && s1.frames != s.frames
  {
  }

  lemma OpenAgain(s1: State, s2: State)
    requires Open(s1, s2) && |s2.frames| == |s1.frames|
    ensures s2.frames == s1.frames && s2.fns != [] && s2.states != []
  {
    BackLength(s2.frames[|s1.frames|..], PlaceOf(s2), PlaceOf(s2));
    hide Back;
  }

  lemma SameAgain(s: State, s1: State, s2: State, r: State)
    requires Continues(s, s1) && Open(s1, s2) && r.states == s2.states && r.costs == s2.costs
    requires r.frames == s.frames && PlaceOf(r) == PlaceOf(s) && s.fns != []
    ensures SameStacks(s, r)
  {
    hide Leads, Caller;
  }

  /** In terms of the state before the call: there was a function in between already, or the call enters another one. */
  lemma DeepIff(c: Conf, s: State, bb: Bb, sp: nat, g: Found)
    requires QInv(s, false) && s.fns != [] && s.states != [] && LastKind(s).Call? && !Passed(s, sp, 0) && bb.fn != 0
    ensures Deep(Step(c, s, Block(bb, sp, g))) <==> Deep(s) || (bb.fn !in c.skip && bb.fn != Last(s.fns))
  {
    hide PartsOk, Chain, SetupBbcc, Continues, ReturnTo;
    CallPushes(c, s, bb, sp, g);
    CurrentTop(s, false);
  }

  lemma PopCharges(c: Conf, s: State)
    requires s.frames != []
    ensures Last(s.frames).jcc.Some? ==>
      PopFrame(c, s).jccCost == Charged(s.jccCost, Last(s.frames).jcc.value, CostOf(s) - Last(s.frames).enter)
  {
  }

  lemma SettleCharges(c: Conf, s: State, bb: Bb, skip: bool, o: Origin, sp: nat, id: nat)
    requires s.fns != []
    ensures Settle(c, s, bb, false, skip, o, sp, id).jccCost == s.jccCost
  {
    hide Choose;
  }

  lemma CallKeepsInv(c: Conf, s: State, bb: Bb, sp: nat, g: Found)
    requires QInv(s, false) && s.fns != [] && s.states != [] && LastKind(s).Call? && !Passed(s, sp, 0) && bb.fn != 0
    ensures QInv(Step(c, s, Block(bb, sp, g)), false)
    ensures Last(s.states).bottom <= |s.frames| && |s.costs| == |s.states|
  {
    hide PartsOk, SetupBbcc;
    TopPart(s, false);
    CallOrigin(c, s, bb, sp, g);
    InvStep(c, s, Block(bb, sp, g), false);
  }

  // ---------------------------------------------------------------- jumps that replace a call, and made-up calls

  /** A jump between functions that is to replace the current call: the call that takes its place returns to where the
      replaced one was made from. */
  lemma JumpReplaces(c: Conf, s: State, bb: Bb, sp: nat, g: Found)
    requires QInv(s, false) && s.fns != [] && s.states != [] && bb.fn != 0
    requires Emulated(s, bb, sp) && s.cur.bbcc.value.bb.fn in c.popOnJump
    requires |s.frames| > Last(s.states).bottom && Last(s.frames).jcc.Some?
    requires |s.frames| == 1 || s.frames[|s.frames| - 2].sp >= Last(s.frames).sp
    ensures var r := Step(c, s, Block(bb, sp, g));
      && |r.frames| == |s.frames| && Front(r.frames) == Front(s.frames)
      && Caller(Last(r.frames), PlaceOf(r)) == Caller(Last(s.frames), PlaceOf(s))
      && Last(r.frames).sp == (if |s.frames| > 1 then s.frames[|s.frames| - 2].sp else Last(s.frames).sp)
  {
    hide PartsOk, Chain, Settle, Pop, PopFrame, Arrive, Unwind, Caller, PopOnJump, Calls, Emulated;
    var f := Last(s.frames);
    var q := s.(cur := s.cur.(bbcc := Some(f.jcc.value.from)));
    InsidePart(c, q);
    PopPlace(c, q);
    assert PlaceOf(q) == PlaceOf(s);
    var a := Pop(c, q);
    Replaced(c, s, bb, sp, g, a);
    InvPopOnJump(c, s, bb, sp, false);
    PopOkInside(s);
    var o := PopOnJump(c, s, bb, sp);
    var sp' := if a.frames != [] then Last(a.frames).sp else o.sp;
    SettleContinues(c, a, bb, true, bb.fn in c.skip, o, sp', g.entered);
    SettleOne(c, a, bb, bb.fn in c.skip, o, sp', g.entered);
    assert a.frames != [] ==> Last(a.frames) == s.frames[|s.frames| - 2];
  }

  lemma PopOkInside(s: State)
    requires s.states != [] && |s.frames| > Last(s.states).bottom
    ensures PopOk(s)
  {
  }

  lemma Replaced(c: Conf, s: State, bb: Bb, sp: nat, g: Found, a: State)
    requires s.fns != [] && s.states != [] && Emulated(s, bb, sp) && s.cur.bbcc.value.bb.fn in c.popOnJump
    requires s.frames != [] && Last(s.frames).jcc.Some?
    requires |s.frames| == 1 || s.frames[|s.frames| - 2].sp >= Last(s.frames).sp
    requires a == Pop(c, s.(cur := s.cur.(bbcc := Some(Last(s.frames).jcc.value.from)))) && a.frames == Front(s.frames)
    ensures PopOnJump(c, s, bb, sp) == Origin(a, Last(s.frames).sp, Last(s.frames).jcc.value.jmp)
    ensures Arrive(c, s, bb, sp, g) == a && Calls(c, s, bb, sp)
  {
    hide Pop, ReturnPops;
    assert a.frames != [] ==> Last(a.frames) == s.frames[|s.frames| - 2];
    assert !Passed(a, Last(s.frames).sp, 0);
    assert Unwind(c, a, Last(s.frames).sp, 0) == a;
  }

  lemma SettleOne(c: Conf, s: State, bb: Bb, skip: bool, o: Origin, sp: nat, id: nat)
    requires s.fns != [] && s.cur.cxt.Some? && bb.fn != 0
    ensures var r := Settle(c, s, bb, true, skip, o, sp, id); |r.frames| == |s.frames| + 1 && Last(r.frames).sp == sp
  {
    hide Choose, PushCall;
    PushCxtIs(s, bb.fn, id);
    var s1 := if !skip then PushCxt(s, bb.fn, id) else s;
    hide PushCxt;
    assert s1.cur.cxt.Some? && s1.frames == s.frames;
    var (a, bbcc) := Choose(c, s1, bb, !skip);
    var s2 := s1.(active := a);
    EnterAppends(c, s2, o, sp, bbcc, skip);
    CallFromIs(c, s2, s2, o, sp, bbcc, skip);
    PushedFrame(c, s2, CallFrom(s2, o, bbcc, skip), CallJmp(s2, o, skip), bbcc, sp, skip);
  }

  /** A call that is made up for a return whose call was not seen is charged with what has been spent since the last dump; in
      a handler, with all that has been spent there. */
  lemma UnderflowCharged(c: Conf, s: State, caller: Fn, g: Found)
    requires s.states != [] && s.fns != [] && s.cur.bbcc.Some? && Last(s.states).bottom <= |s.frames|
    ensures Pop(c, Underflow(c, s, caller, g)).jccCost
      == Charged(s.jccCost, Jcc(g.source, 0, s.cur.bbcc.value), CostOf(s) - if s.cur.sig == 0 then s.lastDump else 0)
  {
    hide Pop, PopFrame, Charged, Underflow;
    MadeUp(c, s, caller, g);
    var u := Underflow(c, s, caller, g);
    InsidePart(c, u);
    PopCharges(c, u);
  }

  lemma MadeUp(c: Conf, s: State, caller: Fn, g: Found)
    requires s.fns != [] && s.cur.bbcc.Some?
    ensures var u := Underflow(c, s, caller, g);
      && u.frames != [] && Last(u.frames).jcc == Some(Jcc(g.source, 0, s.cur.bbcc.value))
      && Last(u.frames).enter == (if s.cur.sig == 0 then s.lastDump else 0)
      && CostOf(u) == CostOf(s) && u.jccCost == s.jccCost && Last(u.frames).sp == 0xFFFF_FFFF_FFFF_FFFF
  {
    hide PushCxt, PushCall, SetEnter, Up, Down, CostOf;
    var to := s.cur.bbcc.value;
    var s0 := s.(fns := if |s.fns| > 1 then Front(s.fns) else s.fns, cur := s.cur.(cxt := None));
    var s1 := PushCxt(s0, caller, g.caller);
    PushedCxt(s0, caller, g.caller);
    var s2 := s1.(active := Down(s1.active, to.cxt.fn), cur := s1.cur.(nonskipped := None));
    PushedCxt(s2, to.cxt.fn, g.back);
    var s3 := PushCall(c, PushCxt(s2, to.cxt.fn, g.back), g.source, 0, to, MAX_ADDR, false);
    MadeUpFrame(c, PushCxt(s2, to.cxt.fn, g.back), g.source, to, MAX_ADDR, if s.cur.sig == 0 then s.lastDump else 0);
    SameCost(s, SetEnter(s3, if s.cur.sig == 0 then s.lastDump else 0));
  }

  lemma PushedCxt(s: State, fn: Fn, id: nat)
    requires s.fns != []
    ensures var r := PushCxt(s, fn, id);
      r.fns != [] && r.costs == s.costs && r.cur.cost == s.cur.cost && r.jccCost == s.jccCost && r.frames == s.frames
  {
  }

  lemma MadeUpFrame(c: Conf, s: State, from: Bbcc, to: Bbcc, sp: nat, enter: int)
    ensures PushCall(c, s, from, 0, to, sp, false).frames != []
    ensures var r := SetEnter(PushCall(c, s, from, 0, to, sp, false), enter);
      && r.frames != [] && Last(r.frames).jcc == Some(Jcc(from, 0, to)) && Last(r.frames).enter == enter && Last(r.frames).sp == sp
      && r.costs == s.costs && r.cur.cost == s.cur.cost && r.jccCost == s.jccCost
  {
    hide Up;
  }

  lemma SameCost(s: State, r: State)
    requires r.costs == s.costs && r.cur.cost == s.cur.cost
    ensures CostOf(r) == CostOf(s)
  {
  }
}
