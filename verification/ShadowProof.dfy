/**
 The invariant of the shadow call stack.

 The execution states divide the call stack and the function stack into parts, one for the
 thread and one for each nested handler; a part of the function stack starts with a marker.
 Inside a part, the functions above the marker follow the calls.
*/
module ShadowProof {
  import opened Common
  import opened ShadowModel

  // ---------------------------------------------------------------- the parts

  /** Where the last marker is. */
  function LastZero(fns: seq<Fn>): (m: nat)
    requires fns != [] && fns[0] == 0
    ensures m < |fns| && fns[m] == 0 && forall j :: m < j < |fns| ==> fns[j] != 0
  {
    if Last(fns) == 0 then |fns| - 1 else LastZero(Front(fns))
  }

  lemma LastZeroIs(fns: seq<Fn>, m: nat)
    requires m < |fns| && fns[0] == 0 && fns[m] == 0
    requires forall j :: m < j < |fns| ==> fns[j] != 0
    ensures LastZero(fns) == m
  {
  }

  /** The calls of one part, above the marker at `m`, lead to the function at `top`: each one goes up by
      one function or, to a function that is on top already, by none.  If `strong`, the contexts and
      callees recorded are those of the functions found there. */
  ghost predicate Chain(part: seq<Frame>, fns: seq<Fn>, m: nat, top: nat, strong: bool)
    requires top < |fns|
  {
    if part == [] then top == m + 1
    else
      var f := Last(part);
      match f.jcc
      case None => Chain(Front(part), fns, m, top, strong)
      case Some(j) =>
        && f.fnSp <= top <= f.fnSp + 1 && f.cxt.Some? && f.cxt.value.fn != 0
        && (strong ==> f.cxt.value.fn == fns[f.fnSp] && j.to.cxt.fn == fns[top])
        && Chain(Front(part), fns, m, f.fnSp, strong)
  }

  /** A part, while `e` is its execution state. */
  ghost predicate PartOk(e: Exec, part: seq<Frame>, fns: seq<Fn>, strong: bool)
    requires fns != [] && fns[0] == 0
  {
    var m, top := LastZero(fns), |fns| - 1;
    if e.cxt.None? then top == m && part == [] && e.bbcc.None?
    else Chain(part, fns, m, top, strong) && e.cxt.value.fn != 0 && (strong ==> e.cxt.value.fn == fns[top])
  }

  /** The block executed last was executed in the current function. */
  ghost predicate BbccOk(e: Exec, fns: seq<Fn>, strong: bool)
    requires fns != []
  {
    e.bbcc.Some? ==> e.bbcc.value.cxt.fn != 0 && (strong ==> e.bbcc.value.cxt.fn == Last(fns))
  }

  ghost predicate PartsOk(states: seq<Exec>, e: Exec, frames: seq<Frame>, fns: seq<Fn>, strong: bool) {
    && states != [] && fns != [] && fns[0] == 0 && Last(states).bottom <= |frames|
    && PartOk(e, frames[Last(states).bottom..], fns, strong)
    && (if |states| == 1 then Last(states).bottom == 0 && LastZero(fns) == 0
        else
          && LastZero(fns) > 0 && BbccOk(states[|states| - 2], fns[..LastZero(fns)], strong)
          && PartsOk(Front(states), states[|states| - 2], frames[..Last(states).bottom], fns[..LastZero(fns)], strong))
  }

  ghost predicate ExecsOk(s: State) {
    && s.states != [] && |s.costs| == |s.states|
    && s.cur.cost == |s.states| - 1 && s.cur.sig == Last(s.states).sig && s.cur.bottom == Last(s.states).bottom
    && forall i :: 0 <= i < |s.states| ==> s.states[i].cost == i && (s.states[i].sig > 0 <==> i > 0)
  }

  /** The invariant.  Without `strong` it is about the shape of the stacks only. */
  ghost predicate Inv(s: State, strong: bool) {
    ExecsOk(s) && s.pend.cxt.None? && PartsOk(s.states, s.cur, s.frames, s.fns, strong)
  }

  lemma {:induction false} ChainAbove(part: seq<Frame>, fns: seq<Fn>, m: nat, top: nat, strong: bool)
    requires top < |fns| && Chain(part, fns, m, top, strong)
    ensures m < top
  {
    if part != [] {
      ChainAbove(Front(part), fns, m, if Last(part).jcc.None? then top else Last(part).fnSp, strong);
    }
  }

  /** A chain depends only on the functions up to its top. */
  lemma {:induction false} ChainPrefix(part: seq<Frame>, fns: seq<Fn>, fns': seq<Fn>, m: nat, top: nat, strong: bool)
    requires top < |fns| && top < |fns'| && fns[..top + 1] == fns'[..top + 1]
    requires Chain(part, fns, m, top, strong)
    ensures Chain(part, fns', m, top, strong)
  {
    assert fns[top] == fns[..top + 1][top] == fns'[top];
    if part != [] {
      var f := Last(part);
      if f.jcc.Some? {
        assert fns[f.fnSp] == fns[..top + 1][f.fnSp] == fns'[f.fnSp];
        assert fns[..f.fnSp + 1] == fns[..top + 1][..f.fnSp + 1] == fns'[..f.fnSp + 1];
      }
      ChainPrefix(Front(part), fns, fns', m, if f.jcc.None? then top else f.fnSp, strong);
    }
  }

  lemma TopPart(s: State, strong: bool)
    requires Inv(s, strong)
    ensures s.fns != [] && s.fns[0] == 0 && Last(s.states).bottom <= |s.frames|
    ensures PartOk(s.cur, s.frames[Last(s.states).bottom..], s.fns, strong)
  {
  }

  /** What happens inside the current part leaves the others as they are. */
  lemma OnlyTop(s: State, r: State, strong: bool)
    requires Inv(s, strong) && ExecsOk(r) && r.pend.cxt.None?
    requires r.states == s.states
    requires Last(s.states).bottom <= |r.frames|
    requires r.frames[..Last(s.states).bottom] == s.frames[..Last(s.states).bottom]
    requires r.fns != [] && r.fns[0] == 0 && LastZero(r.fns) == LastZero(s.fns)
    requires r.fns[..LastZero(s.fns)] == s.fns[..LastZero(s.fns)]
    requires PartOk(r.cur, r.frames[Last(s.states).bottom..], r.fns, strong)
    ensures Inv(r, strong)
  {
  }

  // ---------------------------------------------------------------- pops

  /** The part of a function with its calls. */
  lemma CalledPart(e: Exec, part: seq<Frame>, fns: seq<Fn>, strong: bool)
    requires fns != [] && fns[0] == 0 && Chain(part, fns, LastZero(fns), |fns| - 1, strong)
    requires e.cxt.Some? && e.cxt.value.fn != 0 && (strong ==> e.cxt.value.fn == Last(fns))
    ensures PartOk(e, part, fns, strong)
  {
  }

  lemma PopFrameFns(s: State, strong: bool)
    requires Inv(s, strong) && |s.frames| > Last(s.states).bottom && Last(s.frames).jcc.Some?
    ensures LastZero(s.fns) < Last(s.frames).fnSp < |s.fns| <= Last(s.frames).fnSp + 2
    ensures var f := Last(s.frames); var fns := s.fns[..f.fnSp + 1];
      && LastZero(fns) == LastZero(s.fns)
      && f.cxt.Some? && f.cxt.value.fn != 0 && (strong ==> f.cxt.value.fn == Last(fns))
      && Chain(Front(s.frames[Last(s.states).bottom..]), fns, LastZero(s.fns), f.fnSp, strong)
  {
    var part := s.frames[Last(s.states).bottom..];
    var f, m := Last(part), LastZero(s.fns);
    assert f == Last(s.frames);
    ChainAbove(Front(part), s.fns, m, f.fnSp, strong);
    ChainPrefix(Front(part), s.fns, s.fns[..f.fnSp + 1], m, f.fnSp, strong);
    LastZeroIs(s.fns[..f.fnSp + 1], m);
  }

  /** What a pop makes of the state. */
  lemma PopParts(c: Conf, s: State)
    requires s.frames != [] && (Last(s.frames).jcc.Some? ==> Last(s.frames).fnSp < |s.fns|)
    ensures var r, f := PopFrame(c, s), Last(s.frames);
      && r.frames == Front(s.frames) && r.states == s.states && r.costs == s.costs && r.pend.cxt == None
      && r.fns == (if f.jcc.Some? then s.fns[..f.fnSp + 1] else s.fns)
      && r.cur.cxt == (if f.jcc.Some? then f.cxt else s.cur.cxt)
      && r.active == (if f.jcc.Some? then Down(s.active, f.jcc.value.to.cxt.fn) else s.active)
      && r.cur.(collect := s.cur.collect, cxt := None) == s.cur.(cxt := None, nonskipped := f.nonskipped)
      && r.cur.collect == (s.cur.collect
           != (f.jcc.Some? && f.jcc.value.to.cxt.fn in c.toggle && Get(r.active, f.jcc.value.to.cxt.fn) == 0))
      && r.sigCost == s.sigCost
  {
  }

  lemma PartIgnores(e: Exec, e': Exec, part: seq<Frame>, fns: seq<Fn>, strong: bool)
    requires fns != [] && fns[0] == 0 && PartOk(e, part, fns, strong)
    requires e'.cxt == e.cxt && (e.cxt.Some? || e'.bbcc == e.bbcc)
    ensures PartOk(e', part, fns, strong)
  {
  }

  lemma InvPopFrame(c: Conf, s: State, strong: bool)
    requires Inv(s, strong) && |s.frames| > Last(s.states).bottom
    ensures Inv(PopFrame(c, s), strong) && PopFrame(c, s).cur.cxt.Some?
  {
    hide PartsOk, Chain, PopFrame, PartOk;
    PopTop(s, strong);
    PopParts(c, s);
    var r := PopFrame(c, s);
    PartIgnores(s.cur.(cxt := r.cur.cxt), r.cur, r.frames[Last(s.states).bottom..], r.fns, strong);
    OnlyTop(s, r, strong);
  }

  /** The current part after the pop of a call. */
  lemma PopCallTop(s: State, strong: bool)
    requires Inv(s, strong) && |s.frames| > Last(s.states).bottom && Last(s.frames).jcc.Some?
    ensures var b, f, r := Last(s.states).bottom, Last(s.frames), Front(s.frames);
      && f.fnSp < |s.fns| && r[..b] == s.frames[..b] && s.fns[0] == 0
      && LastZero(s.fns[..f.fnSp + 1]) == LastZero(s.fns)
      && s.fns[..f.fnSp + 1][..LastZero(s.fns)] == s.fns[..LastZero(s.fns)] && f.cxt.Some?
      && PartOk(s.cur.(cxt := f.cxt), r[b..], s.fns[..f.fnSp + 1], strong)
  {
    hide PartsOk, Chain, PartOk, LastZero;
    TopPart(s, strong);
    PopFrameFns(s, strong);
    var b, f := Last(s.states).bottom, Last(s.frames);
    hide Inv;
    assert s.frames == Front(s.frames) + [f];
    Extended(Front(s.frames), f, b);
    assert s.fns[..f.fnSp + 1][..LastZero(s.fns)] == s.fns[..LastZero(s.fns)];
    CalledPart(s.cur.(cxt := f.cxt), Front(s.frames)[b..], s.fns[..f.fnSp + 1], strong);
  }

  /** The current part after the pop of a skipped call. */
  lemma PopSkippedTop(s: State, strong: bool)
    requires Inv(s, strong) && |s.frames| > Last(s.states).bottom && Last(s.frames).jcc.None?
    ensures var b, r := Last(s.states).bottom, Front(s.frames);
      && r[..b] == s.frames[..b] && s.fns != [] && s.fns[0] == 0 && s.cur.cxt.Some?
      && PartOk(s.cur, r[b..], s.fns, strong)
  {
    hide PartsOk, Chain;
    TopPart(s, strong);
    var b, f := Last(s.states).bottom, Last(s.frames);
    Extended(Front(s.frames), f, b);
    assert s.frames == Front(s.frames) + [f];
    SkippedPart(s.frames[b..], s.fns, LastZero(s.fns), |s.fns| - 1, strong);
  }

  lemma PopTop(s: State, strong: bool)
    requires Inv(s, strong) && |s.frames| > Last(s.states).bottom
    ensures var b, f, r := Last(s.states).bottom, Last(s.frames), Front(s.frames);
      var fns, cxt := if f.jcc.Some? then s.fns[..f.fnSp + 1] else s.fns, if f.jcc.Some? then f.cxt else s.cur.cxt;
      && (f.jcc.Some? ==> f.fnSp < |s.fns|)
      && r[..b] == s.frames[..b] && fns != [] && fns[0] == 0
      && LastZero(fns) == LastZero(s.fns) && fns[..LastZero(s.fns)] == s.fns[..LastZero(s.fns)] && cxt.Some?
      && PartOk(s.cur.(cxt := cxt), r[b..], fns, strong)
  {
    hide PartsOk, Chain, PartOk, LastZero;
    TopPart(s, strong);
    if Last(s.frames).jcc.Some? {
      PopCallTop(s, strong);
    } else {
      PopSkippedTop(s, strong);
      PartIgnores(s.cur, s.cur.(cxt := s.cur.cxt), Front(s.frames)[Last(s.states).bottom..], s.fns, strong);
    }
  }

  lemma SkippedPart(part: seq<Frame>, fns: seq<Fn>, m: nat, top: nat, strong: bool)
    requires part != [] && Last(part).jcc.None? && top < |fns| && Chain(part, fns, m, top, strong)
    ensures Chain(Front(part), fns, m, top, strong)
  {
  }

  lemma {:induction false} InvToBottom(c: Conf, s: State, strong: bool)
    requires Inv(s, strong)
    ensures Inv(ToBottom(c, s), strong)
    ensures |ToBottom(c, s).frames| == Last(s.states).bottom
    decreases |s.frames|
  {
    if |s.frames| > Last(s.states).bottom {
      InvPopFrame(c, s, strong);
      InvToBottom(c, PopFrame(c, s), strong);
    }
  }

  /** Leaving a handler takes its whole part of the function stack away. */
  lemma DropPart(s: State, strong: bool)
    requires Inv(s, strong) && |s.frames| == Last(s.states).bottom && |s.states| > 1
    ensures DropFns(s.fns) == s.fns[..LastZero(s.fns)]
  {
    var m := LastZero(s.fns);
    assert s.frames[|s.frames|..] == [];
    if s.cur.cxt.Some? {
      assert |s.fns| == m + 2 && Front(Front(s.fns)) == s.fns[..m];
    }
  }

  /** What the end of a handler makes of the state, once its calls are gone. */
  lemma LeaveParts(c: Conf, s: State)
    requires |s.states| > 1
    ensures var u, r := ToBottom(c, s), PostSignal(c, s);
      && r.states == Front(s.states) && r.cur == Last(r.states) && r.frames == u.frames && r.fns == DropFns(u.fns)
      && (|u.costs| == |s.states| ==> r.costs == Front(u.costs)) && r.pend == u.pend
  {
    hide ToBottom, DropFns;
  }

  lemma InvLeft(u: State, r: State, strong: bool)
    requires Inv(u, strong) && |u.states| > 1 && |u.frames| == Last(u.states).bottom
    requires r.states == Front(u.states) && r.cur == Last(r.states) && r.frames == u.frames && r.costs == Front(u.costs)
    requires r.fns == u.fns[..LastZero(u.fns)] && r.pend.cxt.None?
    ensures Inv(r, strong) && BbccOk(r.cur, r.fns, strong)
  {
    hide PartOk, BbccOk;
    assert u.frames[..|u.frames|] == u.frames;
    assert Last(Front(u.states)) == u.states[|u.states| - 2];
  }

  lemma InvPostSignal(c: Conf, s: State, strong: bool)
    requires Inv(s, strong) && |s.states| > 1
    ensures var r := PostSignal(c, s); Inv(r, strong) && BbccOk(r.cur, r.fns, strong)
    ensures PostSignal(c, s).cur == s.states[|s.states| - 2]
  {
    var u, r := ToBottom(c, s), PostSignal(c, s);
    InvToBottom(c, s, strong);
    hide PartsOk, ToBottom, PostSignal, DropFns;
    LeaveParts(c, s);
    DropPart(u, strong);
    hide Inv;
    InvLeft(u, r, strong);
  }

  /** Whether the next pop takes an entry of the part it leaves: at the bottom of a handler's part, the
      handler is left, but only one. */
  ghost predicate PopOk(s: State)
    requires s.states != []
  {
    |s.frames| > 0 &&
    (|s.states| > 1 && |s.frames| == Last(s.states).bottom ==> s.states[|s.states| - 2].bottom < |s.frames|)
  }

  lemma InvLeaveAtBottom(c: Conf, s: State, strong: bool)
    requires Inv(s, strong) && s.frames != []
    ensures Inv(LeaveAtBottom(c, s), strong)
    ensures PopOk(s) <==> |LeaveAtBottom(c, s).frames| > Last(LeaveAtBottom(c, s).states).bottom
  {
    if |s.states| > 1 && |s.frames| == Last(s.states).bottom {
      InvPostSignal(c, s, strong);
    }
  }

  /** A pop keeps the invariant exactly if it does not reach through two handlers. */
  lemma InvPop(c: Conf, s: State, strong: bool)
    requires Inv(s, strong) && s.frames != []
    ensures Inv(Pop(c, s), strong) <==> PopOk(s)
    ensures PopOk(s) ==> Pop(c, s).cur.cxt.Some?
  {
    var l := LeaveAtBottom(c, s);
    InvLeaveAtBottom(c, s, strong);
    if PopOk(s) {
      InvPopFrame(c, l, strong);
    }
  }

  /** None of the pops of an unwinding reaches through two handlers. */
  ghost predicate UnwindOk(c: Conf, s: State, sp: nat, minpops: int)
    requires s.states != []
    decreases |s.frames|
  {
    Passed(s, sp, minpops) ==> PopOk(s) && UnwindOk(c, Pop(c, s), sp, minpops - 1)
  }

  lemma {:induction false} InvUnwind(c: Conf, s: State, sp: nat, minpops: int, strong: bool)
    requires Inv(s, strong) && UnwindOk(c, s, sp, minpops)
    ensures Inv(Unwind(c, s, sp, minpops), strong)
    decreases |s.frames|
  {
    if Passed(s, sp, minpops) {
      InvPop(c, s, strong);
      InvUnwind(c, Pop(c, s), sp, minpops - 1, strong);
    }
  }

  // ---------------------------------------------------------------- pops in any state

  /** The calls on the stack return to functions that are still on the function stack, lower ones to lower ones. */
  ghost predicate Stacked(frames: seq<Frame>, n: nat) {
    frames != [] ==>
      var f := Last(frames);
      if f.jcc.Some? then f.fnSp < n && f.cxt.Some? && Stacked(Front(frames), f.fnSp + 1) else Stacked(Front(frames), n)
  }

  lemma {:induction false} StackedHigher(frames: seq<Frame>, m: nat, n: nat)
    requires Stacked(frames, m) && m <= n
    ensures Stacked(frames, n)
  {
    if frames != [] && Last(frames).jcc.None? {
      StackedHigher(Front(frames), m, n);
    }
  }

  lemma {:induction false} ChainStacked(below: seq<Frame>, part: seq<Frame>, fns: seq<Fn>, m: nat, top: nat, strong: bool)
    requires top < |fns| && Chain(part, fns, m, top, strong) && Stacked(below, m)
    ensures Stacked(below + part, top + 1)
  {
    if part == [] {
      assert below + part == below;
      StackedHigher(below, m, top + 1);
    } else {
      var f := Last(part);
      ChainStacked(below, Front(part), fns, m, if f.jcc.Some? then f.fnSp else top, strong);
      assert Front(below + part) == below + Front(part) && Last(below + part) == f;
    }
  }

  lemma {:induction false} PartsStacked(states: seq<Exec>, e: Exec, frames: seq<Frame>, fns: seq<Fn>, strong: bool)
    requires PartsOk(states, e, frames, fns, strong)
    ensures Stacked(frames, |fns|)
    decreases |states|
  {
    var b, m := Last(states).bottom, LastZero(fns);
    hide LastZero, Chain, Stacked;
    if |states| > 1 {
      PartsStacked(Front(states), states[|states| - 2], frames[..b], fns[..m], strong);
    } else {
      NoneStacked(m);
      assert frames[..b] == [];
    }
    assert frames == frames[..b] + frames[b..];
    if e.cxt.Some? {
      ChainStacked(frames[..b], frames[b..], fns, m, |fns| - 1, strong);
    } else {
      assert frames[b..] == [] && frames == frames[..b];
      StackedHigher(frames[..b], m, |fns|);
    }
  }

  lemma NoneStacked(n: nat)
    ensures Stacked([], n)
  {
  }

  /** A state in which calls can be popped: the invariant holds, or pops have reached through two handlers. */
  ghost predicate Poppable(s: State) {
    || Inv(s, false)
    || (s.states != [] && s.fns != [] && |s.frames| < Last(s.states).bottom && Stacked(s.frames, |s.fns|))
  }

  /** Whatever calls are popped, more can be. */
  lemma PopAny(c: Conf, s: State)
    requires Poppable(s) && s.frames != []
    ensures s.states != [] && Poppable(Pop(c, s))
    ensures var l, f := LeaveAtBottom(c, s), Last(s.frames);
      l.frames == s.frames && (f.jcc.Some? ==> f.fnSp < |l.fns| && f.cxt.Some? && Pop(c, s).cur.cxt.Some?)
  {
    hide PartsOk, PopFrame, PostSignal;
    var l := LeaveAtBottom(c, s);
    if Inv(s, false) {
      InvLeaveAtBottom(c, s, false);
      PartsStacked(l.states, l.cur, l.frames, l.fns, false);
      KeepsFrames(c, s);
      InvPop(c, s, false);
      TopPart(l, false);
    }
    PopParts(c, l);
    Lower(l.frames, |l.fns|);
  }

  lemma Lower(frames: seq<Frame>, n: nat)
    requires frames != [] && Stacked(frames, n)
    ensures var f := Last(frames);
      (f.jcc.Some? ==> f.fnSp < n && f.cxt.Some?) && Stacked(Front(frames), if f.jcc.Some? then f.fnSp + 1 else n)
  {
  }

  lemma KeepsFrames(c: Conf, s: State)
    requires Inv(s, false) && s.frames != []
    ensures LeaveAtBottom(c, s).frames == s.frames
  {
    hide PartsOk;
    TopPart(s, false);
  }

  // ---------------------------------------------------------------- entering

  lemma LastZeroPush(fns: seq<Fn>, fn: Fn)
    requires fns != [] && fns[0] == 0
    ensures LastZero(fns + [fn]) == if fn == 0 then |fns| else LastZero(fns)
  {
    LastZeroIs(fns + [fn], if fn == 0 then |fns| else LastZero(fns));
  }

  /** The first function of a thread or a handler. */
  lemma InvFirst(s: State, fn: Fn, id: nat, strong: bool)
    requires Inv(s, strong) && s.cur.cxt.None? && fn != 0
    ensures Inv(PushCxt(s, fn, id), strong) && PushCxt(s, fn, id).cur.cxt.Some?
    ensures PushCxt(s, fn, id).fns == s.fns + [fn]
    ensures BbccOk(PushCxt(s, fn, id).cur, PushCxt(s, fn, id).fns, strong)
  {
    var r := PushCxt(s, fn, id);
    LastZeroPush(s.fns, fn);
    assert r.fns[..LastZero(s.fns)] == s.fns[..LastZero(s.fns)];
    OnlyTop(s, r, strong);
  }

  /** The function stack after a call of `fn`. */
  function Entered(fns: seq<Fn>, fn: Fn): seq<Fn>
    requires fns != []
  {
    if Last(fns) == fn then fns else fns + [fn]
  }

  /** A call makes the chain longer. */
  lemma ChainCall(part: seq<Frame>, fns: seq<Fn>, fn: Fn, f: Frame, strong: bool)
    requires fns != [] && fns[0] == 0 && fn != 0 && Chain(part, fns, LastZero(fns), |fns| - 1, strong)
    requires f.jcc.Some? && f.cxt.Some? && f.cxt.value.fn != 0 && f.fnSp == |fns| - 1
    requires strong ==> f.cxt.value.fn == Last(fns) && f.jcc.value.to.cxt.fn == fn
    ensures var fns' := Entered(fns, fn);
      && fns'[0] == 0 && Last(fns') == fn
      && LastZero(fns') == LastZero(fns) && fns'[..LastZero(fns)] == fns[..LastZero(fns)]
      && Chain(part + [f], fns', LastZero(fns), |fns'| - 1, strong)
  {
    var fns', m := Entered(fns, fn), LastZero(fns);
    LastZeroPush(fns, fn);
    ChainAbove(part, fns, m, |fns| - 1, strong);
    ChainPrefix(part, fns, fns', m, |fns| - 1, strong);
    assert Front(part + [f]) == part;
  }

  /** What a call makes of the state. */
  lemma CallParts(c: Conf, s: State, fn: Fn, id: nat, a: map<Fn, nat>, from: Bbcc, jmp: nat, to: Bbcc, sp: nat)
    requires s.fns != [] && fn != 0 && Last(s.fns) != 0
    ensures var r := PushCall(c, PushCxt(s, fn, id).(active := a), from, jmp, to, sp, false);
      && r.frames != [] && r.frames == s.frames + [Last(r.frames)] && Last(r.frames).jcc == Some(Jcc(from, jmp, to))
      && Last(r.frames).cxt == s.cur.cxt && Last(r.frames).fnSp == |s.fns| - 1
      && Last(r.frames).nonskipped == s.cur.nonskipped && Last(r.frames).enter == CostOf(s)
      && r.fns == Entered(s.fns, fn) && r.states == s.states && r.costs == s.costs && r.pend.cxt == None
      && r.cur.cxt == (if Last(s.fns) == fn then s.cur.cxt else Some(Cxt(fn, id)))
      && r.cur.cxt == PushCxt(s, fn, id).cur.cxt && r.fns == PushCxt(s, fn, id).fns
      && r.cur.cost == s.cur.cost && r.cur.sig == s.cur.sig && r.cur.bottom == s.cur.bottom
      && r.active == Up(a, to.cxt.fn)
  {
  }

  /** The current function is the one on top. */
  lemma CurrentTop(s: State, strong: bool)
    requires Inv(s, strong) && s.cur.cxt.Some?
    ensures s.fns != [] && s.fns[0] == 0 && Last(s.states).bottom <= |s.frames| && Last(s.fns) != 0
    ensures Chain(s.frames[Last(s.states).bottom..], s.fns, LastZero(s.fns), |s.fns| - 1, strong)
    ensures s.cur.cxt.value.fn != 0 && (strong ==> s.cur.cxt.value.fn == Last(s.fns))
  {
    hide PartsOk, Chain;
    TopPart(s, strong);
    ChainAbove(s.frames[Last(s.states).bottom..], s.fns, LastZero(s.fns), |s.fns| - 1, strong);
  }

  /** A call: the context is pushed, then the call itself. */
  lemma InvCall(c: Conf, s: State, fn: Fn, id: nat, a: map<Fn, nat>, from: Bbcc, jmp: nat, to: Bbcc, sp: nat, strong: bool)
    requires Inv(s, strong) && s.cur.cxt.Some? && fn != 0
    requires strong ==> to.cxt.fn == fn
    ensures Inv(PushCall(c, PushCxt(s, fn, id).(active := a), from, jmp, to, sp, false), strong)
    ensures PushCall(c, PushCxt(s, fn, id).(active := a), from, jmp, to, sp, false).cur.cxt == PushCxt(s, fn, id).cur.cxt
    ensures PushCall(c, PushCxt(s, fn, id).(active := a), from, jmp, to, sp, false).fns == PushCxt(s, fn, id).fns
  {
    hide PartsOk, Chain, PushCall, PushCxt, PartOk, Entered;
    CurrentTop(s, strong);
    CallParts(c, s, fn, id, a, from, jmp, to, sp);
    var r := PushCall(c, PushCxt(s, fn, id).(active := a), from, jmp, to, sp, false);
    var b, f := Last(s.states).bottom, Last(r.frames);
    ChainCall(s.frames[b..], s.fns, fn, f, strong);
    Extended(s.frames, f, b);
    CalledPart(r.cur, s.frames[b..] + [f], r.fns, strong);
    OnlyTop(s, r, strong);
  }

  lemma Extended<T>(s: seq<T>, x: T, b: nat)
    requires b <= |s|
    ensures (s + [x])[b..] == s[b..] + [x] && (s + [x])[..b] == s[..b] && Front((s + [x])[b..]) == s[b..]
  {
  }

  /** A call of a skipped function. */
  lemma InvSkip(c: Conf, s: State, from: Bbcc, jmp: nat, to: Bbcc, sp: nat, strong: bool)
    requires Inv(s, strong) && s.cur.cxt.Some?
    ensures Inv(PushCall(c, s, from, jmp, to, sp, true), strong)
    ensures PushCall(c, s, from, jmp, to, sp, true).cur.cxt == s.cur.cxt
    ensures PushCall(c, s, from, jmp, to, sp, true).fns == s.fns
  {
    var r, b := PushCall(c, s, from, jmp, to, sp, true), Last(s.states).bottom;
    Extended(s.frames, Last(r.frames), b);
    OnlyTop(s, r, strong);
  }

  lemma InvPreSignal(c: Conf, s: State, sig: nat, strong: bool)
    requires Inv(s, strong) && BbccOk(s.cur, s.fns, strong) && sig > 0
    ensures Inv(PreSignal(c, s, sig), strong)
  {
    var r := PreSignal(c, s, sig);
    LastZeroPush(s.fns, 0);
    assert Front(r.states) == Save(s).states && r.states[|r.states| - 2] == Last(Save(s).states);
    assert r.frames[|s.frames|..] == [] && r.frames[..|s.frames|] == s.frames;
    assert r.fns[..|s.fns|] == s.fns;
    SaveOk(s, strong);
  }

  lemma SaveOk(s: State, strong: bool)
    requires Inv(s, strong)
    ensures PartsOk(Save(s).states, Last(Save(s).states), s.frames, s.fns, strong)
    ensures forall i :: 0 <= i < |s.states| ==>
      Save(s).states[i].cost == s.states[i].cost && Save(s).states[i].sig == s.states[i].sig
  {
    var r := Save(s);
    assert Front(r.states) == Front(s.states);
  }

  // ---------------------------------------------------------------- underflow

  ghost predicate AllSkipped(part: seq<Frame>) {
    forall i :: 0 <= i < |part| ==> part[i].jcc.None?
  }

  /** Above a bare marker there can only be calls of the function there to itself; another function can
      take its place only if there are none. */
  lemma {:induction false} ChainRebase(part: seq<Frame>, fns: seq<Fn>, fns': seq<Fn>, m: nat, strong: bool)
    requires m + 1 < |fns| && m + 1 < |fns'| && Chain(part, fns, m, m + 1, strong)
    ensures Chain(part, fns', m, m + 1, strong) <==> (strong ==> fns[m + 1] == fns'[m + 1] || AllSkipped(part))
  {
    if part != [] {
      var f := Last(part);
      if f.jcc.Some? {
        ChainAbove(Front(part), fns, m, f.fnSp, strong);
      }
      ChainRebase(Front(part), fns, fns', m, strong);
      assert part[|part| - 1] == f;
      assert AllSkipped(part) <==> f.jcc.None? && AllSkipped(Front(part));
    }
  }

  /** What a call makes of any state. */
  lemma PushCallIs(c: Conf, s: State, from: Bbcc, jmp: nat, to: Bbcc, sp: nat)
    ensures var r, active := PushCall(c, s, from, jmp, to, sp, false), Up(s.active, to.cxt.fn);
      && r.frames == s.frames + [Last(r.frames)] && r.frames != [] && r.fns == s.fns && r.states == s.states && r.costs == s.costs
      && Last(r.frames).jcc == Some(Jcc(from, jmp, to)) && Last(r.frames).nonskipped == s.cur.nonskipped
      && Last(r.frames).cxt == s.pend.cxt && Last(r.frames).fnSp == s.pend.fnSp
      && r.sigCost == s.sigCost && r.active == active && r.pend.cxt == None
      && r.cur == Toggle(c, s.cur, to.cxt.fn, Get(active, to.cxt.fn), 1).(nonskipped := None)
  {
  }

  /** What entering a function makes of any state. */
  lemma PushCxtIs(s: State, fn: Fn, id: nat)
    requires s.fns != [] && fn != 0
    ensures var r := PushCxt(s, fn, id);
      && r.frames == s.frames && r.states == s.states && r.costs == s.costs && r.sigCost == s.sigCost
      && r.pend == Pending(s.cur.cxt, |s.fns| - 1) && r.fns == Entered(s.fns, fn)
      && r.active == (if Last(s.fns) == 0 then Up(s.active, fn) else s.active)
      && r.cur == s.cur.(cxt := if Last(s.fns) == fn then s.cur.cxt else Some(Cxt(fn, id)))
  {
  }

  /** The made-up call. */
  lemma MadeUpCall(c: Conf, s: State, caller: Fn, g: Found)
    requires |s.fns| > 1 && s.fns[|s.fns| - 2] == 0 && caller != 0
    requires s.cur.bbcc.Some? && s.cur.bbcc.value.cxt.fn != 0
    ensures var f, u, fns := s.cur.bbcc.value.cxt.fn, Underflow(c, s, caller, g), Front(s.fns) + [caller];
      && u.frames == s.frames + [Last(u.frames)] && u.fns == Entered(fns, f) && u.states == s.states && u.costs == s.costs
      && Last(u.frames).jcc == Some(Jcc(g.source, 0, s.cur.bbcc.value)) && Last(u.frames).nonskipped == None
      && Last(u.frames).cxt == Some(Cxt(caller, g.caller)) && Last(u.frames).fnSp == |fns| - 1
      && u.sigCost == s.sigCost && u.active == Up(Down(Up(s.active, caller), f), f)
      && u.cur.(collect := s.cur.collect, cxt := None) == s.cur.(cxt := None, nonskipped := None)
      && u.cur.collect == (s.cur.collect != (Get(u.active, f) == 1 && f in c.toggle))
      && u.cur.cxt == Some(if caller == f then Cxt(caller, g.caller) else Cxt(f, g.back)) && u.pend.cxt == None
  {
    hide PushCall, PushCxt;
    var to := s.cur.bbcc.value;
    var s0 := s.(fns := Front(s.fns), cur := s.cur.(cxt := None));
    var s1 := PushCxt(s0, caller, g.caller);
    var s2 := s1.(active := Down(s1.active, to.cxt.fn), cur := s1.cur.(nonskipped := None));
    PushCxtIs(s0, caller, g.caller);
    PushCxtIs(s2, to.cxt.fn, g.back);
    PushCallIs(c, PushCxt(s2, to.cxt.fn, g.back), g.source, 0, to, MAX_ADDR);
  }

  /** What the repair of an underflow and the return make of the state: the current function is replaced
      by its caller. */
  lemma UnderflowParts(c: Conf, s: State, caller: Fn, g: Found)
    requires s.states != [] && |s.fns| > 1 && s.fns[|s.fns| - 2] == 0 && caller != 0
    requires s.cur.bbcc.Some? && s.cur.bbcc.value.cxt.fn != 0
    requires Last(s.states).bottom <= |s.frames|
    ensures var f, r := s.cur.bbcc.value.cxt.fn, Pop(c, Underflow(c, s, caller, g));
      && r.frames == s.frames && r.fns == Front(s.fns) + [caller] && r.states == s.states && r.costs == s.costs
      && r.pend.cxt == None && r.cur == s.cur.(cxt := Some(Cxt(caller, g.caller)), nonskipped := None)
      && r.sigCost == s.sigCost && r.active == Down(Up(Down(Up(s.active, caller), f), f), f)
  {
    var f, u := s.cur.bbcc.value.cxt.fn, Underflow(c, s, caller, g);
    MadeUpCall(c, s, caller, g);
    hide *;
    InsidePart(c, u);
    PopParts(c, u);
    FrontOf(s.frames, u.frames);
    assert u.fns[..|s.fns|] == Front(s.fns) + [caller] by { EnteredPrefix(Front(s.fns) + [caller], f); }
    ToggledTwice(c, u.active, f);
  }

  lemma InsidePart(c: Conf, u: State)
    requires u.states != [] && |u.frames| > Last(u.states).bottom
    ensures Pop(c, u) == PopFrame(c, u)
  {
    hide PopFrame;
  }

  lemma FrontOf<T>(a: seq<T>, b: seq<T>)
    requires b != [] && b == a + [Last(b)]
    ensures Front(b) == a
  {
  }

  lemma EnteredPrefix(fns: seq<Fn>, fn: Fn)
    requires fns != []
    ensures Entered(fns, fn)[..|fns|] == fns
  {
  }

  /** The call counted once is the one that is left again. */
  lemma ToggledTwice(c: Conf, a: map<Fn, nat>, f: Fn)
    requires Get(a, f) < UINT
    ensures Get(a, f) == 1 <==> Get(Down(a, f), f) == 0
  {
  }

  ghost predicate QInv(s: State, strong: bool) {
    Inv(s, strong) && BbccOk(s.cur, s.fns, strong)
  }

  /** Where an underflow is repaired there is one function above the marker. */
  lemma NoCallTop(s: State, strong: bool)
    requires Inv(s, strong) && NoCall(s) && s.cur.bbcc.Some?
    ensures |s.fns| == LastZero(s.fns) + 2 && s.fns[|s.fns| - 2] == 0
  {
    ChainAbove(s.frames[Last(s.states).bottom..], s.fns, LastZero(s.fns), |s.fns| - 1, strong);
    if s.frames == [] {
      assert s.frames[0..] == [];
    }
  }

  /** The calls of the current part all skip. */
  ghost predicate NoRealCall(s: State)
    requires s.states != [] && Last(s.states).bottom <= |s.frames|
  {
    AllSkipped(s.frames[Last(s.states).bottom..])
  }

  /** Repairing an underflow keeps the shape of the stacks.  It keeps functions and contexts in step
      exactly if the function returned to is the one that seemed to be running, or no call of the current
      part is left on the stack. */
  lemma InvUnderflow(c: Conf, s: State, caller: Fn, g: Found, strong: bool)
    requires QInv(s, strong) && NoCall(s) && s.cur.bbcc.Some? && caller != 0
    ensures Inv(Pop(c, Underflow(c, s, caller, g)), strong)
      <==> (strong ==> caller == Last(s.fns) || NoRealCall(s))
    ensures Pop(c, Underflow(c, s, caller, g)).cur.cxt.Some?
  {
    hide PartsOk, Pop, Underflow;
    TopPart(s, strong);
    NoCallTop(s, strong);
    UnderflowParts(c, s, caller, g);
    var r, m := Pop(c, Underflow(c, s, caller, g)), LastZero(s.fns);
    LastZeroIs(r.fns, m);
    assert r.fns[..m] == s.fns[..m];
    ChainRebase(s.frames[Last(s.states).bottom..], s.fns, r.fns, m, strong);
    if strong ==> caller == Last(s.fns) || NoRealCall(s) {
      OnlyTop(s, r, strong);
    } else if Inv(r, strong) {
      TopPart(r, strong);
      assert false;
    }
  }

  /** The state between the repair and the return. */
  lemma AfterUnderflow(c: Conf, s: State, caller: Fn, g: Found)
    requires QInv(s, false) && NoCall(s) && s.cur.bbcc.Some? && caller != 0
    ensures Inv(Underflow(c, s, caller, g), false) && PopOk(Underflow(c, s, caller, g))
  {
    hide PartsOk, Chain, Underflow, LastZero;
    TopPart(s, false);
    NoCallTop(s, false);
    MadeUpCall(c, s, caller, g);
    var u, b, m := Underflow(c, s, caller, g), Last(s.states).bottom, LastZero(s.fns);
    var fns, f := Front(s.fns) + [caller], s.cur.bbcc.value.cxt.fn;
    LastZeroIs(fns, m);
    ChainRebase(s.frames[b..], s.fns, fns, m, false);
    ChainCall(s.frames[b..], fns, f, Last(u.frames), false);
    Extended(s.frames, Last(u.frames), b);
    assert fns[..m] == s.fns[..m];
    OnlyTop(s, u, false);
  }

  // ---------------------------------------------------------------- a basic block starts

  /** When the arrival at a block keeps the invariant: no pop reaches through two handlers and, if
      `strong`, an underflow does not replace a function that still has calls on the stack. */
  ghost predicate ArriveOk(c: Conf, s: State, bb: Bb, sp: nat, strong: bool)
    requires s.fns != [] && s.states != []
  {
    if IsReturn(s, bb, sp) then
      if NoCall(s) then strong ==> bb.fn == Last(s.fns) || (Last(s.states).bottom <= |s.frames| && NoRealCall(s))
      else UnwindOk(c, s, sp, ReturnPops(s, bb, sp))
    else
      var o := PopOnJump(c, s, bb, sp);
      (o.state != s ==> PopOk(s)) && UnwindOk(c, o.state, o.sp, 0)
  }

  lemma PopIgnoresBbcc(c: Conf, s: State, b: Option<Bbcc>, strong: bool)
    requires Inv(s, strong) && s.frames != [] && (b.Some? ==> s.cur.cxt.Some?)
    ensures Inv(s.(cur := s.cur.(bbcc := b)), strong)
  {
    var r := s.(cur := s.cur.(bbcc := b));
    TopPart(s, strong);
    OnlyTop(s, r, strong);
  }

  lemma InvPopOnJump(c: Conf, s: State, bb: Bb, sp: nat, strong: bool)
    requires QInv(s, strong) && (PopOnJump(c, s, bb, sp).state != s ==> PopOk(s))
    ensures Inv(PopOnJump(c, s, bb, sp).state, strong)
    ensures Emulated(s, bb, sp) || LastKind(s).Call? ==> PopOnJump(c, s, bb, sp).state.cur.cxt.Some?
  {
    hide PartsOk, Pop;
    TopPart(s, strong);
    var o := PopOnJump(c, s, bb, sp);
    if o.state != s {
      var from := Some(Last(s.frames).jcc.value.from);
      PopIgnoresBbcc(c, s, from, strong);
      InvPop(c, s.(cur := s.cur.(bbcc := from)), strong);
    }
  }

  lemma InvArrive(c: Conf, s: State, bb: Bb, sp: nat, g: Found, strong: bool)
    requires QInv(s, strong) && bb.fn != 0 && ArriveOk(c, s, bb, sp, strong)
    ensures Inv(Arrive(c, s, bb, sp, g), strong)
    ensures Calls(c, s, bb, sp) ==> Arrive(c, s, bb, sp, g).cur.cxt.Some?
  {
    hide PartsOk, Pop, Underflow, PopOnJump, PopOk;
    if IsReturn(s, bb, sp) {
      if NoCall(s) {
        InvUnderflow(c, s, bb.fn, g, strong);
      } else {
        InvUnwind(c, s, sp, ReturnPops(s, bb, sp), strong);
      }
    } else {
      var o := PopOnJump(c, s, bb, sp);
      InvPopOnJump(c, s, bb, sp, strong);
      InvUnwind(c, o.state, o.sp, 0, strong);
      Unmoved(c, o.state, o.sp, 0);
    }
  }

  lemma Unmoved(c: Conf, s: State, sp: nat, minpops: int)
    requires s.states != []
    ensures |Unwind(c, s, sp, minpops).frames| == |s.frames| ==> Unwind(c, s, sp, minpops) == s
  {
  }

  /** The counts of active functions and what is being executed do not bear on the shape. */
  lemma InvSame(s: State, a: map<Fn, nat>, b: Option<Bbcc>, jmps: nat, strong: bool)
    requires Inv(s, strong) && (b.Some? ==> s.cur.cxt.Some?)
    ensures Inv(s.(active := a, cur := s.cur.(bbcc := b, jmps := jmps)), strong)
  {
    TopPart(s, strong);
    OnlyTop(s, s.(active := a, cur := s.cur.(bbcc := b, jmps := jmps)), strong);
  }

  lemma InvEnter(c: Conf, s: State, bb: Bb, skip: bool, o: Origin, sp: nat, id: nat, a: map<Fn, nat>, bbcc: Bbcc,
                 strong: bool)
    requires Inv(s, strong) && bb.fn != 0 && s.cur.cxt.Some?
    requires var s1 := if skip then s else PushCxt(s, bb.fn, id); s1.cur.cxt == Some(bbcc.cxt)
    ensures var s1 := if skip then s else PushCxt(s, bb.fn, id); var r := Enter(c, s1.(active := a), o, sp, bbcc, skip);
      Inv(r, strong) && r.cur.cxt == s1.cur.cxt && r.fns == s1.fns
  {
    hide PartsOk, Chain, PushCall;
    TopPart(s, strong);
    var s1 := if skip then s else PushCxt(s, bb.fn, id);
    var from, jmp := if s.cur.bbcc.Some? then s.cur.bbcc.value else bbcc, o.jmp;
    if !skip && s.cur.nonskipped.Some? {
      from := s.cur.nonskipped.value;
      jmp := if from.bb.jmps == [] then 0 else |from.bb.jmps| - 1;
    }
    if skip {
      InvSame(s, a, s.cur.bbcc, s.cur.jmps, strong);
      InvSkip(c, s.(active := a), from, jmp, bbcc, sp, strong);
    } else {
      InvCall(c, s, bb.fn, id, a, from, jmp, bbcc, sp, strong);
    }
    assert Enter(c, s1.(active := a), o, sp, bbcc, skip) == PushCall(c, s1.(active := a), from, jmp, bbcc, sp, skip);
  }

  lemma InvSettle(c: Conf, s: State, bb: Bb, calls: bool, skip: bool, o: Origin, sp: nat, id: nat, strong: bool)
    requires Inv(s, strong) && bb.fn != 0 && (calls ==> s.cur.cxt.Some?)
    ensures QInv(Settle(c, s, bb, calls, skip, o, sp, id), strong)
    ensures Settle(c, s, bb, calls, skip, o, sp, id).cur.bbcc.Some?
  {
    hide PartsOk, Chain, PushCall, Enter, Choose, QInv, Inv, Executing;
    TopPart(s, strong);
    var s1 := if (calls && !skip) || s.cur.cxt.None? then PushCxt(s, bb.fn, id) else s;
    if s.cur.cxt.None? {
      InvFirst(s, bb.fn, id, strong);
    }
    assert s1.fns != [] && s1.cur.cxt.Some?;
    hide PushCxt;
    ChooseCxt(c, s1, bb, calls && !skip);
    var (a, bbcc) := Choose(c, s1, bb, calls && !skip);
    var s2 := s1.(active := a);
    if calls {
      InvEnter(c, s, bb, skip, o, sp, id, a, bbcc, strong);
      InvExecuting(Enter(c, s2, o, sp, bbcc, skip), bbcc, strong);
    } else {
      InvSame(s1, a, s1.cur.bbcc, s1.cur.jmps, strong);
      InvExecuting(s2, bbcc, strong);
    }
  }

  lemma ChooseCxt(c: Conf, s: State, bb: Bb, called: bool)
    requires s.fns != [] && s.cur.cxt.Some?
    ensures s.cur.cxt == Some(Choose(c, s, bb, called).1.cxt)
  {
  }

  lemma InvExecuting(s: State, bbcc: Bbcc, strong: bool)
    requires Inv(s, strong) && s.cur.cxt == Some(bbcc.cxt)
    ensures QInv(Executing(s, bbcc), strong) && Executing(s, bbcc).cur.bbcc.Some?
  {
    TopPart(s, strong);
    InvSame(s, s.active, Some(bbcc), 0, strong);
    assert s.(active := s.active, cur := s.cur.(bbcc := Some(bbcc), jmps := 0)) == Executing(s, bbcc);
  }
}
