/**
 When cost is collected.  With toggled functions, collection is switched whenever one of them is entered from outside and
 when it is left again: at any time it is as at the start if an even number of them is active in the current thread or
 handler, and the opposite otherwise.  A function does not count that the thread or handler started in, or that is
 active below, in what a handler has interrupted.
*/
module ShadowToggle {
  import opened Common
  import opened ShadowModel
  import opened ShadowProof
  import opened ShadowRuns
  import opened ShadowCounts

  // ---------------------------------------------------------------- what is active

  /** The function that a part of the function stack starts with, or 0. */
  function First(fns: seq<Fn>): Fn
    requires fns != [] && fns[0] == 0
  {
    var m := LastZero(fns); if m + 1 < |fns| then fns[m + 1] else 0
  }

  /** A function that calls in the current part can switch collection by. */
  predicate Counting(c: Conf, below: seq<Frame>, lower: seq<Fn>, first: Fn, f: Fn) {
    f in c.toggle && Expected(below, lower, f) == 0 && f != first
  }

  /** Those that have been called. */
  function Toggled(c: Conf, below: seq<Frame>, part: seq<Frame>, lower: seq<Fn>, first: Fn): set<Fn> {
    set f | f in c.toggle && Counting(c, below, lower, first, f) && CountCalls(part, f) > 0
  }

  predicate Odd(n: nat) { n % 2 == 1 }

  ghost predicate CollectIs(c: Conf, collect: bool, frames: seq<Frame>, b: nat, fns: seq<Fn>)
    requires fns != [] && fns[0] == 0 && b <= |frames|
  {
    collect == (c.collectAtStart != Odd(|Toggled(c, frames[..b], frames[b..], fns[..LastZero(fns)], First(fns))|))
  }

  /** Of the current state and of all that are interrupted. */
  ghost predicate PartsCollect(c: Conf, states: seq<Exec>, collect: bool, frames: seq<Frame>, fns: seq<Fn>)
    decreases |states|
  {
    && states != [] && fns != [] && fns[0] == 0 && Last(states).bottom <= |frames|
    && CollectIs(c, collect, frames, Last(states).bottom, fns)
    && (|states| > 1 ==> PartsCollect(c, Front(states), states[|states| - 2].collect, frames[..Last(states).bottom], fns[..LastZero(fns)]))
  }

  ghost predicate Collected(c: Conf, s: State) { PartsCollect(c, s.states, s.cur.collect, s.frames, s.fns) }

  /** Invariant, counts and sizes as in clean runs. */
  ghost predicate Exact(s: State) { Inv(s, true) && ActiveOk(s) && |s.frames| + |s.fns| + 2 < UINT }

  /** What happens inside the current part leaves the others as they are. */
  lemma OnlyPart(c: Conf, s: State, r: State)
    requires Collected(c, s) && r.states == s.states && Last(s.states).bottom <= |r.frames|
    requires r.frames[..Last(s.states).bottom] == s.frames[..Last(s.states).bottom]
    requires r.fns != [] && r.fns[0] == 0 && LastZero(r.fns) == LastZero(s.fns)
    requires r.fns[..LastZero(s.fns)] == s.fns[..LastZero(s.fns)]
    requires CollectIs(c, r.cur.collect, r.frames, Last(s.states).bottom, r.fns)
    ensures Collected(c, r)
  {
    hide CollectIs, LastZero;
  }

  // ---------------------------------------------------------------- the counts by parts

  lemma {:induction false} CallsSplit(a: seq<Frame>, b: seq<Frame>, f: Fn)
    ensures CountCalls(a + b, f) == CountCalls(a, f) + CountCalls(b, f)
  {
    if b == [] {
      assert a + b == a;
    } else {
      CallsSplit(a, Front(b), f);
      assert Front(a + b) == a + Front(b);
    }
  }

  lemma {:induction false} FirstsSplit(fns: seq<Fn>, f: Fn)
    requires fns != [] && fns[0] == 0 && f != 0
    ensures CountFirst(fns, f) == CountFirst(fns[..LastZero(fns)], f) + if First(fns) == f then 1 else 0
  {
    var m := LastZero(fns);
    if m == |fns| - 1 {
      assert Front(fns) == fns[..m];
    } else {
      FirstsSplit(Front(fns), f);
      assert Front(fns)[..m] == fns[..m];
    }
  }

  lemma ExpectedSplit(frames: seq<Frame>, b: nat, fns: seq<Fn>, f: Fn)
    requires fns != [] && fns[0] == 0 && f != 0 && b <= |frames|
    ensures Expected(frames, fns, f)
      == Expected(frames[..b], fns[..LastZero(fns)], f) + CountCalls(frames[b..], f) + if First(fns) == f then 1 else 0
  {
    hide CountCalls, CountFirst, First;
    assert frames == frames[..b] + frames[b..];
    CallsSplit(frames[..b], frames[b..], f);
    FirstsSplit(fns, f);
  }

  // ---------------------------------------------------------------- one call more

  lemma NoToggled(c: Conf, below: seq<Frame>, lower: seq<Fn>, first: Fn)
    ensures |Toggled(c, below, [], lower, first)| == 0
  {
    assert Toggled(c, below, [], lower, first) == {};
  }

  /** A call switches the parity exactly if its function counts and was not active yet. */
  lemma ToggledCall(c: Conf, below: seq<Frame>, part: seq<Frame>, x: Frame, lower: seq<Fn>, first: Fn)
    ensures var a, b := |Toggled(c, below, part + [x], lower, first)|, |Toggled(c, below, part, lower, first)|;
      var called := x.jcc.Some? && Counting(c, below, lower, first, x.jcc.value.to.cxt.fn);
      Odd(a) == (Odd(b) != (called && CountCalls(part, x.jcc.value.to.cxt.fn) == 0))
  {
    hide Counting, CountCalls;
    var t, u := Toggled(c, below, part + [x], lower, first), Toggled(c, below, part, lower, first);
    forall f ensures f in t <==> f in c.toggle && Counting(c, below, lower, first, f) && CountCalls(part + [x], f) > 0 {}
    forall f ensures CountCalls(part + [x], f) == CountCalls(part, f) + if x.jcc.Some? && x.jcc.value.to.cxt.fn == f then 1 else 0 {
      CountCallsPush(part, x, f);
    }
    if x.jcc.None? {
      assert t == u;
    } else {
      var f := x.jcc.value.to.cxt.fn;
      CountingToggled(c, below, lower, first, f);
      if Counting(c, below, lower, first, f) && CountCalls(part, f) == 0 {
        assert t == u + {f} && f !in u;
      } else {
        assert t == u;
      }
    }
  }

  lemma CountingToggled(c: Conf, below: seq<Frame>, lower: seq<Fn>, first: Fn, f: Fn)
    ensures Counting(c, below, lower, first, f) ==> f in c.toggle
  {
  }

  /** With exact counts, a function is not active exactly if it counts wherever it is toggled and there is no call of it
      in the current part. */
  lemma InactiveIff(c: Conf, s: State, b: nat, f: Fn)
    requires s.fns != [] && s.fns[0] == 0 && ActiveOk(s) && |s.frames| + |s.fns| + 1 < UINT && f != 0 && f in c.toggle
    requires b <= |s.frames|
    ensures Get(s.active, f) == 0
      <==> Counting(c, s.frames[..b], s.fns[..LastZero(s.fns)], First(s.fns), f) && CountCalls(s.frames[b..], f) == 0
  {
    hide CountCalls, CountFirst, First, ActiveOk;
    ExactBelow(s, f);
    ExpectedSplit(s.frames, b, s.fns, f);
  }

  /** A call `x` on top of `frames` is one that switches collection. */
  ghost predicate Switches(c: Conf, frames: seq<Frame>, x: Frame, b: nat, fns: seq<Fn>)
    requires fns != [] && fns[0] == 0 && b <= |frames|
  {
    x.jcc.Some? && Counting(c, frames[..b], fns[..LastZero(fns)], First(fns), x.jcc.value.to.cxt.fn)
    && CountCalls(frames[b..], x.jcc.value.to.cxt.fn) == 0
  }

  lemma CallSwitches(c: Conf, frames: seq<Frame>, x: Frame, b: nat, fns: seq<Fn>, fns': seq<Fn>, d: bool, e: bool)
    requires fns != [] && fns[0] == 0 && b <= |frames| && fns' != [] && fns'[0] == 0
    requires LastZero(fns') == LastZero(fns) && fns'[..LastZero(fns)] == fns[..LastZero(fns)] && First(fns') == First(fns)
    requires e == (d != Switches(c, frames, x, b, fns))
    ensures CollectIs(c, e, frames + [x], b, fns') <==> CollectIs(c, d, frames, b, fns)
  {
    hide Toggled, First, LastZero, Counting, CountCalls;
    Extended(frames, x, b);
    ToggledCall(c, frames[..b], frames[b..], x, fns[..LastZero(fns)], First(fns));
  }

  /** With exact counts, these are the calls of toggled functions that are not active. */
  lemma SwitchesIff(c: Conf, s: State, x: Frame, b: nat)
    requires s.fns != [] && s.fns[0] == 0 && ActiveOk(s) && |s.frames| + |s.fns| + 1 < UINT && b <= |s.frames|
    requires x.jcc.Some? ==> x.jcc.value.to.cxt.fn != 0
    ensures Switches(c, s.frames, x, b, s.fns) <==>
      x.jcc.Some? && x.jcc.value.to.cxt.fn in c.toggle && Get(s.active, x.jcc.value.to.cxt.fn) == 0
  {
    hide First, LastZero, CountCalls, ActiveOk, Counting;
    if x.jcc.Some? {
      var f := x.jcc.value.to.cxt.fn;
      CountingToggled(c, s.frames[..b], s.fns[..LastZero(s.fns)], First(s.fns), f);
      if f in c.toggle {
        InactiveIff(c, s, b, f);
      }
    }
  }

  // ---------------------------------------------------------------- pops

  /** The callee of a call is a function. */
  lemma CalleeIs(s: State)
    requires Inv(s, true) && |s.frames| > Last(s.states).bottom && Last(s.frames).jcc.Some?
    ensures Last(s.frames).jcc.value.to.cxt.fn != 0
  {
    hide PartsOk;
    TopPart(s, true);
    var part := s.frames[Last(s.states).bottom..];
    assert Last(part) == Last(s.frames);
    PopFrameFns(s, true);
  }

  lemma FirstStays(fns: seq<Fn>, n: nat)
    requires fns != [] && fns[0] == 0 && LastZero(fns) + 1 < n <= |fns|
    ensures LastZero(fns[..n]) == LastZero(fns) && First(fns[..n]) == First(fns)
  {
    hide LastZero;
    LastZeroIs(fns[..n], LastZero(fns));
  }

  lemma PopExactToo(c: Conf, s: State)
    requires Exact(s) && |s.frames| > Last(s.states).bottom
    ensures Exact(PopFrame(c, s))
  {
    hide PartsOk, PopFrame, Counts, ActiveOk;
    InvPopFrame(c, s, true);
    WeakInv(s);
    NoSlips(s);
    PopFrameCounts(c, s, []);
    NoSlips(PopFrame(c, s));
  }

  lemma PopFrameCollects(c: Conf, s: State)
    requires Exact(s) && |s.frames| > Last(s.states).bottom && Collected(c, s)
    ensures Collected(c, PopFrame(c, s))
  {
    hide *;
    CollectedTop(c, s);
    var r, b, x := PopFrame(c, s), Last(s.states).bottom, Last(s.frames);
    PoppedParts(c, s);
    SwitchesIff(c, r, x, b);
    CallSwitches(c, r.frames, x, b, r.fns, s.fns, r.cur.collect, s.cur.collect);
    OnlyPart(c, s, r);
  }

  lemma PoppedParts(c: Conf, s: State)
    requires Exact(s) && |s.frames| > Last(s.states).bottom
    ensures var r, b, x, m := PopFrame(c, s), Last(s.states).bottom, Last(s.frames), LastZero(s.fns);
      && r.fns != [] && r.fns[0] == 0 && s.fns != [] && s.fns[0] == 0 && b <= |r.frames| && r.states == s.states
      && s.frames == r.frames + [x] && r.frames[..b] == s.frames[..b]
      && LastZero(r.fns) == m && r.fns[..m] == s.fns[..m] && First(r.fns) == First(s.fns)
      && ActiveOk(r) && |r.frames| + |r.fns| + 1 < UINT && (x.jcc.Some? ==> x.jcc.value.to.cxt.fn != 0)
      && s.cur.collect == (r.cur.collect != (x.jcc.Some? && x.jcc.value.to.cxt.fn in c.toggle
                                             && Get(r.active, x.jcc.value.to.cxt.fn) == 0))
  {
    hide PartsOk, PopFrame, ActiveOk, LastZero, First, Chain, PartOk, Inv, Get;
    ExactInv(s);
    TopPart(s, true);
    PopTop(s, true);
    PopParts(c, s);
    PopExactToo(c, s);
    if Last(s.frames).jcc.Some? {
      PoppedFirst(s);
    }
  }

  lemma PoppedFirst(s: State)
    requires Inv(s, true) && |s.frames| > Last(s.states).bottom && Last(s.frames).jcc.Some?
    ensures s.fns != [] && s.fns[0] == 0 && Last(s.frames).fnSp < |s.fns|
    ensures var x, r := Last(s.frames), s.fns[..Last(s.frames).fnSp + 1];
      x.jcc.value.to.cxt.fn != 0 && LastZero(r) == LastZero(s.fns) && First(r) == First(s.fns)
  {
    hide PartsOk, LastZero, First, Chain, PartOk;
    CalleeIs(s);
    TopPart(s, true);
    PopFrameFns(s, true);
    FirstStays(s.fns, Last(s.frames).fnSp + 1);
  }

  lemma CollectedTop(c: Conf, s: State)
    requires Collected(c, s)
    ensures s.states != [] && s.fns != [] && s.fns[0] == 0 && Last(s.states).bottom <= |s.frames|
    ensures CollectIs(c, s.cur.collect, s.frames, Last(s.states).bottom, s.fns)
  {
  }

  /** The collection state of an interrupted execution is the one it was left in. */
  lemma PostSignalCollects(c: Conf, s: State)
    requires Inv(s, true) && Collected(c, s) && |s.states| > 1
    ensures Collected(c, PostSignal(c, s))
  {
    hide PartsOk, CollectIs, ToBottom, PostSignal, LastZero, Chain, DropFns;
    WeakInv(s);
    LeaveParts(c, s);
    var u := ToBottom(c, s);
    InvToBottom(c, s, false);
    ToBottomFrames(c, s);
    ToBottomCxt(c, s);
    DropPart(u, false);
    assert u.frames == s.frames[..Last(s.states).bottom];
    assert u.fns[..LastZero(s.fns)] == s.fns[..LastZero(s.fns)];
    assert Last(Front(s.states)) == s.states[|s.states| - 2];
  }

  lemma {:induction false} ToBottomFrames(c: Conf, s: State)
    requires s.states != []
    ensures ToBottom(c, s).frames <= s.frames
    decreases |s.frames|
  {
    if |s.frames| > Last(s.states).bottom {
      ToBottomFrames(c, PopFrame(c, s));
    }
  }

  lemma ExactPop(c: Conf, s: State)
    requires Exact(s) && s.frames != [] && PopOk(s)
    ensures Exact(Pop(c, s)) && Exact(LeaveAtBottom(c, s))
  {
    hide PartsOk, Pop, LeaveAtBottom, ActiveOk, Cancel, PopSlips, LeaveSlips, Counts;
    WeakInv(s);
    InvPop(c, s, true);
    NoSlips(s);
    PopCounts(c, s, []);
    PopCancel(c, s);
    assert [] + PopSlips(c, s) == PopSlips(c, s);
    ExactIffCancel(Pop(c, s), PopSlips(c, s));
    InvLeaveAtBottom(c, s, true);
    LeaveCounts(c, s, []);
    HandlerCancel(s);
    assert [] + LeaveSlips(s) == LeaveSlips(s);
    ExactIffCancel(LeaveAtBottom(c, s), LeaveSlips(s));
  }

  lemma PopCollects(c: Conf, s: State)
    requires Exact(s) && s.frames != [] && PopOk(s) && Collected(c, s)
    ensures Collected(c, Pop(c, s))
  {
    hide PartsOk, PostSignal, PopFrame, PartsCollect, ActiveOk;
    ExactPop(c, s);
    InvLeaveAtBottom(c, s, true);
    var l := LeaveAtBottom(c, s);
    if l != s {
      PostSignalCollects(c, s);
    }
    PopFrameCollects(c, l);
  }

  lemma {:induction false} UnwindCollects(c: Conf, s: State, sp: nat, minpops: int)
    requires Exact(s) && Collected(c, s) && UnwindOk(c, s, sp, minpops)
    ensures Collected(c, Unwind(c, s, sp, minpops))
    decreases |s.frames|
  {
    hide PartsOk, Pop, Collected, Exact, PopOk;
    if Passed(s, sp, minpops) {
      ExactPop(c, s);
      PopCollects(c, s);
      UnwindCollects(c, Pop(c, s), sp, minpops - 1);
    }
  }

  // ---------------------------------------------------------------- what leads to a block

  lemma {:induction false} NoRealCalls(part: seq<Frame>, f: Fn)
    requires AllSkipped(part)
    ensures CountCalls(part, f) == 0
  {
    if part != [] {
      assert forall i :: 0 <= i < |part| - 1 ==> Front(part)[i] == part[i];
      NoRealCalls(Front(part), f);
    }
  }

  lemma SkippedToggles(c: Conf, below: seq<Frame>, part: seq<Frame>, lower: seq<Fn>, first: Fn)
    requires AllSkipped(part)
    ensures |Toggled(c, below, part, lower, first)| == 0
  {
    forall f ensures CountCalls(part, f) == 0 {
      NoRealCalls(part, f);
    }
    assert Toggled(c, below, part, lower, first) == {};
  }

  /** The made-up call is entered and left at once. */
  lemma UnderflowCollects(c: Conf, s: State, caller: Fn, g: Found)
    requires QInv(s, true) && NoCall(s) && s.cur.bbcc.Some? && caller != 0 && Collected(c, s)
    requires caller == Last(s.fns) || NoRealCall(s)
    ensures Collected(c, Pop(c, Underflow(c, s, caller, g)))
  {
    hide PartsOk, Pop, Underflow, Toggled, Chain;
    TopPart(s, true);
    NoCallTop(s, true);
    UnderflowParts(c, s, caller, g);
    var r, m, b := Pop(c, Underflow(c, s, caller, g)), LastZero(s.fns), Last(s.states).bottom;
    LastZeroIs(r.fns, m);
    assert r.fns[..m] == s.fns[..m];
    if caller == Last(s.fns) {
      assert r.fns == s.fns;
    } else {
      SkippedToggles(c, s.frames[..b], s.frames[b..], s.fns[..m], First(s.fns));
      SkippedToggles(c, r.frames[..b], r.frames[b..], r.fns[..m], First(r.fns));
    }
    CollectedTop(c, s);
    OnlyPart(c, s, r);
  }

  lemma SameCollected(c: Conf, s: State, r: State)
    requires Collected(c, s) && r.cur.collect == s.cur.collect && r.frames == s.frames && r.fns == s.fns && r.states == s.states
    ensures Collected(c, r)
  {
  }

  lemma ArriveCollects(c: Conf, s: State, bb: Bb, sp: nat, g: Found)
    requires QInv(s, true) && Exact(s) && Collected(c, s) && bb.fn != 0 && ArriveOk(c, s, bb, sp, true)
    ensures Collected(c, Arrive(c, s, bb, sp, g))
  {
    hide PartsOk, Pop, Underflow, Collected, PopOk, ActiveOk;
    TopPart(s, true);
    if IsReturn(s, bb, sp) {
      if NoCall(s) {
        UnderflowCollects(c, s, bb.fn, g);
      } else {
        UnwindCollects(c, s, sp, ReturnPops(s, bb, sp));
      }
    } else {
      var o := PopOnJump(c, s, bb, sp);
      if o.state != s {
        var q := s.(cur := s.cur.(bbcc := Some(Last(s.frames).jcc.value.from)));
        PopIgnoresBbcc(c, s, q.cur.bbcc, true);
        SameCollected(c, s, q);
        SameExact(s, q);
        ExactPop(c, q);
        PopCollects(c, q);
      }
      UnwindCollects(c, o.state, o.sp, 0);
    }
  }

  lemma SameExact(s: State, q: State)
    requires Exact(s) && Inv(q, true) && q.frames == s.frames && q.fns == s.fns && q.active == s.active && q.states == s.states
    ensures Exact(q) && (PopOk(s) <==> PopOk(q))
  {
  }

  // ---------------------------------------------------------------- entering

  /** The first function of a thread or a handler is not entered by a call. */
  lemma FirstCollects(c: Conf, s: State, fn: Fn, id: nat)
    requires Inv(s, true) && s.cur.cxt.None? && fn != 0 && Collected(c, s)
    ensures Collected(c, PushCxt(s, fn, id))
  {
    hide PartsOk, Toggled, PushCxt;
    TopPart(s, true);
    InvFirst(s, fn, id, true);
    PushCxtIs(s, fn, id);
    var r, b, m := PushCxt(s, fn, id), Last(s.states).bottom, LastZero(s.fns);
    LastZeroPush(s.fns, fn);
    assert r.fns[..m] == s.fns[..m];
    NoToggled(c, s.frames[..b], s.fns[..m], First(s.fns));
    NoToggled(c, s.frames[..b], s.fns[..m], First(r.fns));
    CollectedTop(c, s);
    OnlyPart(c, s, r);
  }

  lemma EnteredFirst(fns: seq<Fn>, fn: Fn)
    requires fns != [] && fns[0] == 0 && LastZero(fns) + 1 < |fns| && fn != 0
    ensures var e, m := Entered(fns, fn), LastZero(fns);
      e[0] == 0 && LastZero(e) == m && e[..m] == fns[..m] && First(e) == First(fns)
  {
    hide *;
    LastZeroPush(fns, fn);
    EnteredAdds(fns, fn);
    PrefixFirst(fns, Entered(fns, fn), LastZero(fns));
  }

  lemma EnteredAdds(fns: seq<Fn>, fn: Fn)
    requires fns != []
    ensures fns <= Entered(fns, fn) && (Entered(fns, fn) == fns || Entered(fns, fn) == fns + [fn])
  {
  }

  lemma PrefixFirst(fns: seq<Fn>, e: seq<Fn>, m: nat)
    requires fns != [] && fns[0] == 0 && fns <= e && m + 1 < |fns| && LastZero(fns) == m == LastZero(e)
    ensures e[0] == 0 && e[..m] == fns[..m] && First(e) == First(fns)
  {
    hide LastZero;
  }

  lemma Counted(active: map<Fn, nat>, f: Fn)
    requires Get(active, f) < UINT - 1
    ensures Get(Up(active, f), f) == 1 <==> Get(active, f) == 0
  {
  }

  /** A call switches collection exactly if its function is toggled and not active. */
  lemma CallCollects(c: Conf, s: State, fn: Fn, id: nat, from: Bbcc, jmp: nat, to: Bbcc, sp: nat)
    requires Exact(s) && Collected(c, s) && s.cur.cxt.Some? && fn != 0 && to.cxt.fn == fn
    ensures Collected(c, PushCall(c, PushCxt(s, fn, id).(active := s.active), from, jmp, to, sp, false))
  {
    hide *;
    CollectedTop(c, s);
    CalledParts(c, s, fn, id, from, jmp, to, sp);
    var r := PushCall(c, PushCxt(s, fn, id).(active := s.active), from, jmp, to, sp, false);
    var b, x := Last(s.states).bottom, Last(r.frames);
    SwitchesIff(c, s, x, b);
    CallSwitches(c, s.frames, x, b, s.fns, r.fns, s.cur.collect, r.cur.collect);
    Extended(s.frames, x, b);
    OnlyPart(c, s, r);
  }

  lemma CalledParts(c: Conf, s: State, fn: Fn, id: nat, from: Bbcc, jmp: nat, to: Bbcc, sp: nat)
    requires Exact(s) && s.cur.cxt.Some? && fn != 0 && to.cxt.fn == fn
    ensures var r, b, m := PushCall(c, PushCxt(s, fn, id).(active := s.active), from, jmp, to, sp, false),
                           Last(s.states).bottom, LastZero(s.fns);
      && r.frames != [] && r.frames == s.frames + [Last(r.frames)] && b <= |s.frames| && r.states == s.states
      && s.fns != [] && s.fns[0] == 0 && r.fns != [] && r.fns[0] == 0
      && LastZero(r.fns) == m && r.fns[..m] == s.fns[..m] && First(r.fns) == First(s.fns)
      && Last(r.frames).jcc.Some? && Last(r.frames).jcc.value.to.cxt.fn == fn
      && r.cur.collect == (s.cur.collect != (fn in c.toggle && Get(s.active, fn) == 0))
      && ActiveOk(s) && |s.frames| + |s.fns| + 1 < UINT
  {
    hide PartsOk, PushCall, PushCxt, ActiveOk, LastZero, First, Chain, Entered, Get, Up;
    CurrentTop(s, true);
    ChainAbove(s.frames[Last(s.states).bottom..], s.fns, LastZero(s.fns), |s.fns| - 1, true);
    CallParts(c, s, fn, id, s.active, from, jmp, to, sp);
    EnteredFirst(s.fns, fn);
    PushCxtIs(s, fn, id);
    PushCallIs(c, PushCxt(s, fn, id).(active := s.active), from, jmp, to, sp);
    ExactBelow(s, fn);
    Counted(s.active, fn);
  }

  lemma SkipCollects(c: Conf, s: State, a: map<Fn, nat>, from: Bbcc, jmp: nat, to: Bbcc, sp: nat)
    requires Collected(c, s)
    ensures Collected(c, PushCall(c, s.(active := a), from, jmp, to, sp, true))
  {
    hide CollectIs, LastZero, PartsCollect;
    var r := PushCall(c, s.(active := a), from, jmp, to, sp, true);
    CollectedTop(c, s);
    var b, x := Last(s.states).bottom, Last(r.frames);
    assert !Switches(c, s.frames, x, b, s.fns);
    CallSwitches(c, s.frames, x, b, s.fns, r.fns, s.cur.collect, r.cur.collect);
    Extended(s.frames, x, b);
    OnlyPart(c, s, r);
  }

  /** Choosing a cost centre leaves exact counts alone. */
  lemma ChosenExact(c: Conf, s: State, bb: Bb, called: bool)
    requires s.fns != [] && s.cur.cxt.Some? && RecLevel(s, called) > 0
    ensures Choose(c, s, bb, called).0 == s.active && Choose(c, s, bb, called).1.cxt == s.cur.cxt.value
  {
  }

  lemma EnteredLevel(s: State, fn: Fn, id: nat)
    requires Exact(s) && s.cur.cxt.Some? && fn != 0
    ensures s.fns != []
    ensures var r := PushCxt(s, fn, id);
      r.fns != [] && RecLevel(r, true) > 0 && r.cur.cxt.Some? && r.cur.cxt.value.fn == fn && r.active == s.active
  {
    hide PartsOk, Chain, PushCxt, ActiveOk, RecLevel;
    CurrentTop(s, true);
    PushCxtIs(s, fn, id);
    var r := PushCxt(s, fn, id);
    assert Last(r.fns) == fn;
    ExactBelow(s, fn);
    LevelCalled(r);
  }

  lemma LevelCalled(r: State)
    requires r.fns != [] && Get(r.active, Last(r.fns)) < UINT - 1
    ensures RecLevel(r, true) > 0
  {
  }

  lemma SettleCollects(c: Conf, s: State, bb: Bb, calls: bool, skip: bool, o: Origin, sp: nat, id: nat)
    requires Exact(s) && Collected(c, s) && bb.fn != 0 && (calls ==> s.cur.cxt.Some?)
    ensures s.fns != [] && Collected(c, Settle(c, s, bb, calls, skip, o, sp, id))
  {
    hide PartsOk, Chain, PushCall, Choose, PushCxt, Collected, Exact, RecLevel;
    CollectedHasFns(c, s);
    PushCxtIs(s, bb.fn, id);
    var s1 := if (calls && !skip) || s.cur.cxt.None? then PushCxt(s, bb.fn, id) else s;
    var (a, bbcc) := if s1.cur.cxt.None? then (s.active, Bbcc(bb, Cxt(0, 0), 0)) else Choose(c, s1, bb, calls && !skip);
    var s2, r := s1.(active := a), Settle(c, s, bb, calls, skip, o, sp, id);
    if calls && !skip {
      EnteredLevel(s, bb.fn, id);
      ChosenExact(c, s1, bb, true);
      var from, jmp := EnterFrom(c, s2, o, sp, bbcc, false);
      CallCollects(c, s, bb.fn, id, from, jmp, bbcc, sp);
      SameCollected(c, Enter(c, s2, o, sp, bbcc, skip), r);
    } else if calls {
      var from, jmp := EnterFrom(c, s2, o, sp, bbcc, true);
      SkipCollects(c, s, a, from, jmp, bbcc, sp);
      SameCollected(c, Enter(c, s2, o, sp, bbcc, skip), r);
    } else {
      if s.cur.cxt.None? {
        ExactInv(s);
        FirstCollects(c, s, bb.fn, id);
      }
      SameCollected(c, s1, r);
    }
  }

  lemma ExactInv(s: State)
    requires Exact(s)
    ensures Inv(s, true)
  {
  }

  lemma CollectedHasFns(c: Conf, s: State)
    requires Collected(c, s)
    ensures s.fns != [] && s.states != []
  {
  }

  lemma EnterFrom(c: Conf, s: State, o: Origin, sp: nat, bbcc: Bbcc, skip: bool) returns (from: Bbcc, jmp: nat)
    ensures Enter(c, s, o, sp, bbcc, skip) == PushCall(c, s, from, jmp, bbcc, sp, skip)
  {
    hide PushCall;
    if !skip && s.cur.nonskipped.Some? {
      from := s.cur.nonskipped.value;
      jmp := if from.bb.jmps == [] then 0 else |from.bb.jmps| - 1;
    } else {
      from := if s.cur.bbcc.Some? then s.cur.bbcc.value else bbcc;
      jmp := o.jmp;
    }
  }

  // ---------------------------------------------------------------- runs

  lemma ArriveExact(c: Conf, s: State, bb: Bb, sp: nat, g: Found)
    requires QInv(s, true) && ActiveOk(s) && Fits(s) && bb.fn != 0 && ArriveOk(c, s, bb, sp, true)
    ensures s.fns != [] && s.states != [] && Exact(s) && Exact(Arrive(c, s, bb, sp, g))
  {
    hide PartsOk, Cancel, ArriveSlips, Arrive, ActiveOk, ArriveOk, Poppable;
    TopPart(s, true);
    InvArrive(c, s, bb, sp, g, true);
    ArriveCancel(c, s, bb, sp);
    WeakToo(s);
    NoSlips(s);
    ArriveCounts(c, s, bb, sp, g, []);
    assert [] + ArriveSlips(c, s, bb, sp) == ArriveSlips(c, s, bb, sp);
    ExactIffCancel(Arrive(c, s, bb, sp, g), ArriveSlips(c, s, bb, sp));
    ArriveSmall(c, s, bb, sp, g);
  }

  lemma BlockCollects(c: Conf, s: State, bb: Bb, sp: nat, g: Found)
    requires QInv(s, true) && ActiveOk(s) && Fits(s) && bb.fn != 0 && ArriveOk(c, s, bb, sp, true) && Collected(c, s)
    ensures s.fns != [] && s.states != [] && Collected(c, SetupBbcc(c, s, bb, sp, g))
  {
    hide PartsOk, ActiveOk, ArriveOk, Arrive, Settle, Collected, Exact, PopOnJump, Calls;
    ArriveExact(c, s, bb, sp, g);
    ArriveCollects(c, s, bb, sp, g);
    InvArrive(c, s, bb, sp, g, true);
    var s1, o, calls := Arrive(c, s, bb, sp, g), PopOnJump(c, s, bb, sp), Calls(c, s, bb, sp);
    CollectedHasFns(c, s1);
    var sp' := if Emulated(s, bb, sp) && s1.frames != [] then Last(s1.frames).sp else o.sp;
    SettleCollects(c, s1, bb, calls, bb.fn in c.skip, o, sp', g.entered);
  }

  lemma SavedCollects(c: Conf, s: State)
    requires Collected(c, s)
    ensures PartsCollect(c, Save(s).states, s.cur.collect, s.frames, s.fns)
  {
    hide CollectIs, LastZero;
    var t := Save(s).states;
    assert Front(t) == Front(s.states);
    if |s.states| > 1 {
      assert t[|s.states| - 2] == s.states[|s.states| - 2];
    }
  }

  lemma PreSignalCollects(c: Conf, s: State, sig: nat)
    requires Inv(s, true) && Collected(c, s)
    ensures s.fns != [] && s.states != [] && Collected(c, PreSignal(c, s, sig))
  {
    hide PartsOk, Toggled, First;
    SavedCollects(c, s);
    TopPart(s, true);
    var r := PreSignal(c, s, sig);
    LastZeroPush(s.fns, 0);
    hide LastZero;
    assert r.fns[..|s.fns|] == s.fns && r.frames[|s.frames|..] == [] && r.frames[..|s.frames|] == s.frames;
    NoToggled(c, r.frames[..|s.frames|], r.fns[..LastZero(r.fns)], First(r.fns));
    assert Front(r.states) == Save(s).states && r.states[|r.states| - 2] == Last(Save(s).states);
  }

  lemma StepCollects(c: Conf, s: State, op: Op)
    requires QInv(s, true) && ActiveOk(s) && Fits(s) && s.fns != [] && s.states != []
    requires Enabled(s, op) && Clean(c, s, op, true) && Collected(c, s)
    ensures Collected(c, Step(c, s, op))
  {
    hide PartsOk, ActiveOk, ArriveOk, Collected, SetupBbcc, PreSignal, PostSignal;
    match op
    case Block(bb, sp, g) => BlockCollects(c, s, bb, sp, g);
    case Leave(jmp) => SameCollected(c, s, Step(c, s, op));
    case Spend(n) => SameCollected(c, s, Step(c, s, op));
    case Signal(sig) => PreSignalCollects(c, s, sig);
    case SigReturn => PostSignalCollects(c, s);
  }

  lemma {:induction false} RunCollects(c: Conf, s: State, ops: seq<Op>)
    requires QInv(s, true) && ActiveOk(s) && Collected(c, s) && Legal(c, s, ops, true)
    ensures Collected(c, Run(c, s, ops, true))
    decreases |ops|
  {
    hide QInv, ActiveOk, Collected, Step, Clean, Enabled, Cancel, StepSlips;
    if ops != [] {
      StepCollects(c, s, ops[0]);
      InvStep(c, s, ops[0], true);
      WeakToo(s);
      StepCancel(c, s, ops[0]);
      StepExact(c, s, ops[0]);
      RunCollects(c, Step(c, s, ops[0]), ops[1..]);
    }
  }

  lemma InitCollects(c: Conf)
    ensures Collected(c, Init(c))
  {
    NoToggled(c, [], [], 0);
  }

  /** In every clean run of a thread, at any time, collection is as at the start if and only if the number of toggled
      functions called in the current thread or handler, and not active outside, is even. */
  lemma CollectsExactly(c: Conf, ops: seq<Op>)
    requires Legal(c, Init(c), ops, true)
    ensures var s := Run(c, Init(c), ops, true);
      && s.states != [] && s.fns != [] && s.fns[0] == 0 && Last(s.states).bottom <= |s.frames|
      && var b := Last(s.states).bottom;
         var n := |Toggled(c, s.frames[..b], s.frames[b..], s.fns[..LastZero(s.fns)], First(s.fns))|;
         s.cur.collect == c.collectAtStart <==> n % 2 == 0
  {
    hide QInv, ActiveOk, Run, PartsCollect, LastZero, Toggled, First;
    InitExact(c);
    InitCollects(c);
    RunCollects(c, Init(c), ops);
    CollectedTop(c, Run(c, Init(c), ops, true));
  }
}
