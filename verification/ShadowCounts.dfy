/**
 The counts of active functions.  Each function should be counted once for every call of it on
 the call stack, and once for every time it is the first of the thread or of a handler.  Three
 places take the wrong function off the counts or set a count: the repair of an underflow, the
 end of a handler, and the correction of a recursion level of 0.  What goes wrong there is
 entered as a slip; the counts are exact if and only if the slips of a run cancel out.
*/
module ShadowCounts {
  import opened Common
  import opened ShadowModel
  import opened ShadowProof
  import opened ShadowRuns

  // ---------------------------------------------------------------- what should be counted

  /** The non-skipped calls of `f` on the call stack. */
  function CountCalls(frames: seq<Frame>, f: Fn): (n: nat)
    ensures n <= |frames|
  {
    if frames == [] then 0
    else
      var j := Last(frames).jcc;
      CountCalls(Front(frames), f) + if j.Some? && j.value.to.cxt.fn == f then 1 else 0
  }

  /** The places right above a marker where `f` is. */
  function CountFirst(fns: seq<Fn>, f: Fn): (n: nat)
    ensures n <= |fns|
  {
    if |fns| <= 1 then 0
    else CountFirst(Front(fns), f) + if Last(fns) == f && fns[|fns| - 2] == 0 then 1 else 0
  }

  function Expected(frames: seq<Frame>, fns: seq<Fn>, f: Fn): nat { CountCalls(frames, f) + CountFirst(fns, f) }

  /** The count of `fn` is too high by `off` more than before. */
  datatype Slip = Slip(fn: Fn, off: int)

  function Net(slips: seq<Slip>, f: Fn): int {
    if slips == [] then 0 else Net(Front(slips), f) + if Last(slips).fn == f then Last(slips).off else 0
  }

  lemma {:induction false} NetAppend(a: seq<Slip>, b: seq<Slip>, f: Fn)
    ensures Net(a + b, f) == Net(a, f) + Net(b, f)
  {
    if b == [] {
      assert a + b == a;
    } else {
      assert Front(a + b) == a + Front(b);
      NetAppend(a, Front(b), f);
    }
  }

  /** The counts are what they should be but for these slips. */
  ghost predicate CountsAre(active: map<Fn, nat>, frames: seq<Frame>, fns: seq<Fn>, slips: seq<Slip>) {
    forall f :: f != 0 ==> Get(active, f) == (Expected(frames, fns, f) + Net(slips, f)) % UINT
  }

  ghost predicate Counts(s: State, slips: seq<Slip>) { CountsAre(s.active, s.frames, s.fns, slips) }

  /** Every count is exact, in 32 bits. */
  ghost predicate ActiveOk(s: State) {
    forall f :: f != 0 ==> Get(s.active, f) == Expected(s.frames, s.fns, f) % UINT
  }

  ghost predicate Cancel(slips: seq<Slip>) { forall f :: f != 0 ==> Net(slips, f) % UINT == 0 }

  lemma ExactIffCancel(s: State, slips: seq<Slip>)
    requires Counts(s, slips)
    ensures ActiveOk(s) <==> Cancel(slips)
  {
    hide Expected, Net;
    forall f | f != 0
      ensures Get(s.active, f) == Expected(s.frames, s.fns, f) % UINT <==> Net(slips, f) % UINT == 0
    {
      assert Get(s.active, f) == (Expected(s.frames, s.fns, f) + Net(slips, f)) % UINT;
    }
  }

  lemma NoSlips(s: State)
    ensures ActiveOk(s) <==> Counts(s, [])
  {
    assert forall f :: Net([], f) == 0;
  }

  lemma NetOne(slip: Slip, f: Fn)
    ensures Net([slip], f) == if slip.fn == f then slip.off else 0
  {
    assert Front([slip]) == [] && Last([slip]) == slip;
  }

  /** One function is taken off instead of another. */
  lemma Swapped(kept: Fn, lost: Fn)
    ensures forall f :: Net([Slip(kept, 1), Slip(lost, -1)], f) == (if f == kept then 1 else 0) - (if f == lost then 1 else 0)
    ensures kept != 0 && lost != 0 ==> (Cancel([Slip(kept, 1), Slip(lost, -1)]) <==> kept == lost)
  {
    var sl := [Slip(kept, 1), Slip(lost, -1)];
    forall f ensures Net(sl, f) == (if f == kept then 1 else 0) - (if f == lost then 1 else 0) {
      assert sl == [Slip(kept, 1)] + [Slip(lost, -1)];
      NetAppend([Slip(kept, 1)], [Slip(lost, -1)], f);
      NetOne(Slip(kept, 1), f);
      NetOne(Slip(lost, -1), f);
    }
    assert Net(sl, kept) == if kept == lost then 0 else 1;
  }

  // ---------------------------------------------------------------- single changes of the counts

  lemma CountFirstPush(fns: seq<Fn>, fn: Fn, f: Fn)
    requires fns != []
    ensures CountFirst(fns + [fn], f) == CountFirst(fns, f) + if fn == f && Last(fns) == 0 then 1 else 0
  {
    assert Front(fns + [fn]) == fns;
  }

  lemma CountCallsPush(frames: seq<Frame>, x: Frame, f: Fn)
    ensures CountCalls(frames + [x], f)
      == CountCalls(frames, f) + if x.jcc.Some? && x.jcc.value.to.cxt.fn == f then 1 else 0
  {
    assert Front(frames + [x]) == frames;
  }

  lemma UpDown(x: int)
    ensures (x % UINT + 1) % UINT == (x + 1) % UINT
    ensures (x % UINT + UINT - 1) % UINT == (x - 1) % UINT
  {
  }

  /** Entering a function, or a marker. */
  lemma CountPush(active: map<Fn, nat>, frames: seq<Frame>, fns: seq<Fn>, fn: Fn, slips: seq<Slip>)
    requires fns != [] && CountsAre(active, frames, fns, slips)
    ensures CountsAre(if fn != 0 && Last(fns) == 0 then Up(active, fn) else active, frames, fns + [fn], slips)
  {
    var a := if fn != 0 && Last(fns) == 0 then Up(active, fn) else active;
    forall f | f != 0 ensures Get(a, f) == (Expected(frames, fns + [fn], f) + Net(slips, f)) % UINT {
      CountFirstPush(fns, fn, f);
      UpDown(Expected(frames, fns, f) + Net(slips, f));
    }
  }

  lemma CountCall(active: map<Fn, nat>, frames: seq<Frame>, fns: seq<Fn>, x: Frame, slips: seq<Slip>)
    requires CountsAre(active, frames, fns, slips)
    ensures CountsAre(if x.jcc.Some? then Up(active, x.jcc.value.to.cxt.fn) else active, frames + [x], fns, slips)
  {
    var a := if x.jcc.Some? then Up(active, x.jcc.value.to.cxt.fn) else active;
    forall f | f != 0 ensures Get(a, f) == (Expected(frames + [x], fns, f) + Net(slips, f)) % UINT {
      CountCallsPush(frames, x, f);
      UpDown(Expected(frames, fns, f) + Net(slips, f));
    }
  }

  lemma CountReturn(active: map<Fn, nat>, frames: seq<Frame>, fns: seq<Fn>, slips: seq<Slip>)
    requires frames != [] && CountsAre(active, frames, fns, slips)
    ensures var x := Last(frames);
      CountsAre(if x.jcc.Some? then Down(active, x.jcc.value.to.cxt.fn) else active, Front(frames), fns, slips)
  {
    var x := Last(frames);
    var a := if x.jcc.Some? then Down(active, x.jcc.value.to.cxt.fn) else active;
    forall f | f != 0 ensures Get(a, f) == (Expected(Front(frames), fns, f) + Net(slips, f)) % UINT {
      UpDown(Expected(frames, fns, f) + Net(slips, f));
    }
  }

  /** Functions that are not right above a marker leave the function stack, or markers with nothing above. */
  lemma CountCut(active: map<Fn, nat>, frames: seq<Frame>, fns: seq<Fn>, fns': seq<Fn>, slips: seq<Slip>)
    requires CountsAre(active, frames, fns, slips) && forall f :: f != 0 ==> CountFirst(fns', f) == CountFirst(fns, f)
    ensures CountsAre(active, frames, fns', slips)
  {
    forall f | f != 0 ensures Get(active, f) == (Expected(frames, fns', f) + Net(slips, f)) % UINT {
      assert Expected(frames, fns', f) == Expected(frames, fns, f);
    }
  }

  // ---------------------------------------------------------------- pops

  lemma PopFrameCounts(c: Conf, s: State, slips: seq<Slip>)
    requires Inv(s, false) && |s.frames| > Last(s.states).bottom && Counts(s, slips)
    ensures Counts(PopFrame(c, s), slips)
  {
    hide PartsOk, Chain, PopFrame, CountsAre;
    TopPart(s, false);
    var f := Last(s.frames);
    CountReturn(s.active, s.frames, s.fns, slips);
    if f.jcc.Some? {
      PopFrameFns(s, false);
      assert s.fns[..f.fnSp + 1] == if f.fnSp + 2 == |s.fns| then Front(s.fns) else s.fns;
      CountCut(Down(s.active, f.jcc.value.to.cxt.fn), Front(s.frames), s.fns, s.fns[..f.fnSp + 1], slips);
    }
    PopParts(c, s);
  }

  lemma {:induction false} ToBottomCounts(c: Conf, s: State, slips: seq<Slip>)
    requires Inv(s, false) && Counts(s, slips)
    ensures Counts(ToBottom(c, s), slips)
    decreases |s.frames|
  {
    if |s.frames| > Last(s.states).bottom {
      InvPopFrame(c, s, false);
      PopFrameCounts(c, s, slips);
      ToBottomCounts(c, PopFrame(c, s), slips);
    }
  }

  /** The context that a handler is left in: the one from which its first call that is not skipped was made. */
  function BottomCxt(part: seq<Frame>, cxt: Option<Cxt>): Option<Cxt> {
    if part == [] then cxt else BottomCxt(Front(part), if Last(part).jcc.Some? then Last(part).cxt else cxt)
  }

  lemma PopFrameCxt(c: Conf, s: State)
    requires Inv(s, false) && |s.frames| > Last(s.states).bottom
    ensures var r, b := PopFrame(c, s), Last(s.states).bottom;
      && r.states == s.states && b <= |r.frames| && r.fns <= s.fns
      && BottomCxt(r.frames[b..], r.cur.cxt) == BottomCxt(s.frames[b..], s.cur.cxt)
      && s.fns != [] && s.fns[0] == 0 && r.fns != [] && r.fns[0] == 0 && LastZero(r.fns) == LastZero(s.fns)
  {
    hide PartsOk, Chain, PopFrame, LastZero;
    var b := Last(s.states).bottom;
    TopPart(s, false);
    PopTop(s, false);
    PopParts(c, s);
    assert Front(s.frames)[b..] == Front(s.frames[b..]) && Last(s.frames) == Last(s.frames[b..]);
  }

  lemma {:induction false} ToBottomCxt(c: Conf, s: State)
    requires Inv(s, false)
    ensures Last(s.states).bottom <= |s.frames| && s.fns != [] && s.fns[0] == 0
    ensures var u := ToBottom(c, s);
      && u.cur.cxt == BottomCxt(s.frames[Last(s.states).bottom..], s.cur.cxt)
      && u.fns <= s.fns && u.fns != [] && u.fns[0] == 0 && LastZero(u.fns) == LastZero(s.fns)
      && (s.cur.cxt.Some? ==> u.cur.cxt.Some? && u.cur.cxt.value.fn != 0)
    decreases |s.frames|
  {
    hide PartsOk, PopFrame, LastZero, BottomCxt;
    TopPart(s, false);
    if |s.frames| > Last(s.states).bottom {
      InvPopFrame(c, s, false);
      PopFrameCxt(c, s);
      ToBottomCxt(c, PopFrame(c, s));
    } else {
      NoPart(s.frames, s.cur.cxt);
    }
  }

  lemma NoPart(frames: seq<Frame>, cxt: Option<Cxt>)
    ensures BottomCxt(frames[|frames|..], cxt) == cxt
  {
  }

  /** What the end of a handler does to the counts: the function it was left in is taken off, while the one that
      leaves the function stack is the one above the marker. */
  function HandlerSlips(s: State): seq<Slip> {
    if s.states == [] || Last(s.states).bottom > |s.frames| || s.fns == [] || s.fns[0] != 0 then []
    else
      var m, cxt := LastZero(s.fns), BottomCxt(s.frames[Last(s.states).bottom..], s.cur.cxt);
      if cxt.None? || m + 1 >= |s.fns| then [] else [Slip(s.fns[m + 1], 1), Slip(cxt.value.fn, -1)]
  }

  lemma Dropped(frames: seq<Frame>, fns: seq<Fn>, f: Fn)
    requires |fns| > 2 && fns[|fns| - 2] == 0 && f != 0
    ensures Expected(frames, fns[..|fns| - 2], f) == Expected(frames, fns, f) - if f == Last(fns) then 1 else 0
  {
    var fns' := fns[..|fns| - 2];
    assert Front(fns) == fns' + [0] && fns == Front(fns) + [Last(fns)];
    CountFirstPush(Front(fns), Last(fns), f);
    CountFirstPush(fns', 0, f);
  }

  lemma DropCounts(active: map<Fn, nat>, frames: seq<Frame>, fns: seq<Fn>, fn: Fn, slips: seq<Slip>)
    requires |fns| > 2 && fns[|fns| - 2] == 0 && Last(fns) != 0 && CountsAre(active, frames, fns, slips)
    ensures CountsAre(Down(active, fn), frames, fns[..|fns| - 2], slips + [Slip(Last(fns), 1), Slip(fn, -1)])
  {
    var kept, a, fns' := Last(fns), Down(active, fn), fns[..|fns| - 2];
    Swapped(kept, fn);
    hide Expected, Net;
    forall f | f != 0
      ensures Get(a, f) == (Expected(frames, fns', f) + Net(slips + [Slip(kept, 1), Slip(fn, -1)], f)) % UINT
    {
      NetAppend(slips, [Slip(kept, 1), Slip(fn, -1)], f);
      Dropped(frames, fns, f);
      UpDown(Expected(frames, fns, f) + Net(slips, f));
    }
  }

  lemma PostSignalCounts(c: Conf, s: State, slips: seq<Slip>)
    requires Inv(s, false) && |s.states| > 1 && Counts(s, slips)
    ensures Counts(PostSignal(c, s), slips + HandlerSlips(s))
  {
    hide CountsAre, PartsOk, Chain, PopFrame;
    TopPart(s, false);
    var u, m := ToBottom(c, s), LastZero(s.fns);
    InvToBottom(c, s, false);
    ToBottomCounts(c, s, slips);
    ToBottomCxt(c, s);
    TopPart(u, false);
    HandlerShape(s);
    HandlerShape(u);
    if u.cur.cxt.Some? {
      DropCounts(u.active, u.frames, u.fns, u.cur.cxt.value.fn, slips);
      assert Front(Front(u.fns)) == u.fns[..|u.fns| - 2] && u.fns[m + 1] == s.fns[m + 1];
    } else {
      forall f | f != 0 ensures CountFirst(Front(u.fns), f) == CountFirst(u.fns, f) {
        CountFirstPush(Front(u.fns), 0, f);
        assert u.fns == Front(u.fns) + [0];
      }
      CountCut(u.active, u.frames, u.fns, Front(u.fns), slips);
      assert slips + [] == slips;
    }
  }

  /** A handler's part of the function stack. */
  lemma HandlerShape(s: State)
    requires Inv(s, false) && |s.states| > 1
    ensures s.fns != [] && s.fns[0] == 0 && LastZero(s.fns) > 0 && Last(s.states).bottom <= |s.frames|
    ensures s.cur.cxt.None? ==> LastZero(s.fns) == |s.fns| - 1 && s.frames[Last(s.states).bottom..] == []
    ensures s.cur.cxt.Some? ==> LastZero(s.fns) + 1 < |s.fns|
    ensures s.cur.cxt.Some? && |s.frames| == Last(s.states).bottom ==> LastZero(s.fns) + 2 == |s.fns|
  {
    TopPart(s, false);
    var b := Last(s.states).bottom;
    if s.cur.cxt.Some? {
      ChainAbove(s.frames[b..], s.fns, LastZero(s.fns), |s.fns| - 1, false);
      if |s.frames| == b {
        assert s.frames[b..] == [];
      }
    }
  }

  /** The end of a handler keeps counts exact exactly if the function that the handler was left in is its first. */
  lemma PostSignalExact(c: Conf, s: State)
    requires Inv(s, false) && |s.states| > 1 && ActiveOk(s)
    ensures s.fns != [] && s.fns[0] == 0 && Last(s.states).bottom <= |s.frames|
    ensures s.cur.cxt.Some? ==> LastZero(s.fns) + 1 < |s.fns|
    ensures var cxt := BottomCxt(s.frames[Last(s.states).bottom..], s.cur.cxt);
      ActiveOk(PostSignal(c, s)) <==> s.cur.cxt.None? || (cxt.Some? && cxt.value.fn == s.fns[LastZero(s.fns) + 1])
  {
    hide PartsOk, Chain, ToBottom, PostSignal, ActiveOk;
    HandlerShape(s);
    InvToBottom(c, s, false);
    ToBottomCxt(c, s);
    TopPart(ToBottom(c, s), false);
    NoSlips(s);
    PostSignalCounts(c, s, []);
    assert [] + HandlerSlips(s) == HandlerSlips(s);
    ExactIffCancel(PostSignal(c, s), HandlerSlips(s));
    var cxt := BottomCxt(s.frames[Last(s.states).bottom..], s.cur.cxt);
    assert Cancel([]);
    if cxt.Some? && LastZero(s.fns) + 1 < |s.fns| {
      Swapped(s.fns[LastZero(s.fns) + 1], cxt.value.fn);
    }
  }

  /** What leaving a handler before a pop slips. */
  function LeaveSlips(s: State): seq<Slip> {
    if s.cur.sig > 0 && |s.states| > 1 && |s.frames| == Last(s.states).bottom then HandlerSlips(s) else []
  }

  /** The functions right above a marker that a function stack loses with its entries from `n` on stay counted. */
  function CutFrom(fns: seq<Fn>, n: nat): seq<Slip> {
    if |fns| <= n || |fns| <= 1 then []
    else CutFrom(Front(fns), n) + if fns[|fns| - 2] == 0 then [Slip(Last(fns), 1)] else []
  }

  function CutSlips(fns: seq<Fn>, x: Frame): seq<Slip> {
    if x.jcc.Some? then CutFrom(fns, x.fnSp + 1) else []
  }

  /** A pop slips if it first leaves a handler, and if it cuts off functions right above a marker. */
  function PopSlips(c: Conf, s: State): seq<Slip>
    requires s.frames != [] && s.states != []
  {
    LeaveSlips(s) + CutSlips(LeaveAtBottom(c, s).fns, Last(s.frames))
  }

  /** What a pop of the call `f` leaves of the function stack. */
  function Cut(fns: seq<Fn>, f: Frame): seq<Fn> {
    if f.jcc.Some? && f.fnSp < |fns| then fns[..f.fnSp + 1] else fns
  }

  lemma {:induction false} CutFromNet(fns: seq<Fn>, n: nat, f: Fn)
    requires 1 <= n <= |fns|
    ensures Net(CutFrom(fns, n), f) == CountFirst(fns, f) - CountFirst(fns[..n], f)
  {
    if n == |fns| {
      assert fns[..n] == fns;
    } else {
      CutFromNet(Front(fns), n, f);
      assert Front(fns)[..n] == fns[..n];
      NetAppend(CutFrom(Front(fns), n), if fns[|fns| - 2] == 0 then [Slip(Last(fns), 1)] else [], f);
      NetOne(Slip(Last(fns), 1), f);
    }
  }

  lemma CutNet(fns: seq<Fn>, x: Frame, f: Fn)
    ensures Net(CutSlips(fns, x), f) == CountFirst(fns, f) - CountFirst(Cut(fns, x), f)
  {
    hide CountFirst;
    if x.jcc.Some? && x.fnSp < |fns| {
      CutFromNet(fns, x.fnSp + 1, f);
    }
  }

  lemma LeaveCounts(c: Conf, s: State, slips: seq<Slip>)
    requires Inv(s, false) && Counts(s, slips)
    ensures Counts(LeaveAtBottom(c, s), slips + LeaveSlips(s))
  {
    hide PostSignal, Counts, HandlerSlips;
    if s.cur.sig > 0 && |s.states| > 1 && |s.frames| == Last(s.states).bottom {
      PostSignalCounts(c, s, slips);
    } else {
      assert slips + [] == slips;
    }
  }

  /** The functions cut off are what the pop loses. */
  lemma CutCounts(active: map<Fn, nat>, frames: seq<Frame>, fns: seq<Fn>, x: Frame, slips: seq<Slip>)
    requires CountsAre(active, frames, fns, slips)
    ensures CountsAre(active, frames, Cut(fns, x), slips + CutSlips(fns, x))
  {
    hide CountFirst, CountCalls, Net, Cut, CutSlips;
    forall f | f != 0
      ensures Get(active, f) == (Expected(frames, Cut(fns, x), f) + Net(slips + CutSlips(fns, x), f)) % UINT
    {
      NetAppend(slips, CutSlips(fns, x), f);
      CutNet(fns, x, f);
    }
  }

  lemma FrameCounts(c: Conf, s: State, slips: seq<Slip>)
    requires s.frames != [] && Counts(s, slips)
    ensures Counts(PopFrame(c, s), slips + CutSlips(s.fns, Last(s.frames)))
  {
    hide CountsAre, PopFrame, Cut, CutSlips, Down;
    var x := Last(s.frames);
    PopFrameIs(c, s);
    CountReturn(s.active, s.frames, s.fns, slips);
    CutCounts(PopFrame(c, s).active, Front(s.frames), s.fns, x, slips);
  }

  lemma PopFrameIs(c: Conf, s: State)
    requires s.frames != []
    ensures var r, x := PopFrame(c, s), Last(s.frames);
      && r.fns == Cut(s.fns, x) && r.frames == Front(s.frames)
      && r.active == if x.jcc.Some? then Down(s.active, x.jcc.value.to.cxt.fn) else s.active
  {
  }

  /** Every pop, also one that reaches through two handlers. */
  lemma PopCounts(c: Conf, s: State, slips: seq<Slip>)
    requires Poppable(s) && s.frames != [] && Counts(s, slips)
    ensures s.states != [] && Counts(Pop(c, s), slips + PopSlips(c, s))
  {
    PopAny(c, s);
    var l := LeaveAtBottom(c, s);
    assert Counts(l, slips + LeaveSlips(s)) by {
      if Inv(s, false) {
        LeaveCounts(c, s, slips);
      } else {
        assert slips + [] == slips;
      }
    }
    hide Poppable, Counts, LeaveSlips, CutSlips, PopFrame, LeaveAtBottom;
    FrameCounts(c, l, slips + LeaveSlips(s));
    Reassociate(slips, LeaveSlips(s), CutSlips(l.fns, Last(s.frames)));
  }

  /** If the call `f` is not skipped, its pop cuts off no function that stands right above a marker: the handlers
      whose markers are cut off have executed nothing. */
  predicate NothingCut(fns: seq<Fn>, f: Frame) {
    f.jcc.Some? ==> forall i :: f.fnSp < i < |fns| && fns[i - 1] == 0 ==> fns[i] == 0
  }

  /** What leaving a handler before a pop slips, from the state before. */
  lemma LeaveSlipsAre(c: Conf, s: State)
    requires Inv(s, false)
    ensures s.fns != [] && s.fns[0] == 0 && s.states != []
    ensures var m, leaves := LastZero(s.fns), |s.states| > 1 && |s.frames| == Last(s.states).bottom;
      && LeaveAtBottom(c, s).fns == (if leaves then s.fns[..m] else s.fns)
      && if leaves && s.cur.cxt.Some?
         then m + 1 < |s.fns| && s.cur.cxt.value.fn != 0 && s.fns[m + 1] != 0
              && LeaveSlips(s) == [Slip(s.fns[m + 1], 1), Slip(s.cur.cxt.value.fn, -1)]
         else LeaveSlips(s) == []
  {
    hide PartsOk, Chain;
    TopPart(s, false);
    if |s.states| > 1 {
      HandlerShape(s);
      NoPart(s.frames, s.cur.cxt);
      if |s.frames| == Last(s.states).bottom {
        DropPart(s, false);
        assert ToBottom(c, s) == s;
      }
    }
  }

  /** A shorter function stack has no more functions above markers, and as many exactly if none has been cut off. */
  lemma {:induction false} CountFirstCut(fns: seq<Fn>, n: nat, f: Fn)
    requires 1 <= n <= |fns|
    ensures CountFirst(fns[..n], f) <= CountFirst(fns, f)
    ensures CountFirst(fns[..n], f) == CountFirst(fns, f) <==> forall i :: n <= i < |fns| && fns[i - 1] == 0 ==> fns[i] != f
  {
    if n < |fns| {
      var t := Front(fns);
      CountFirstCut(t, n, f);
      assert t[..n] == fns[..n];
      assert forall i :: 0 <= i < |t| ==> t[i] == fns[i];
    } else {
      assert fns[..n] == fns;
    }
  }

  /** No function stands above a marker more or less often. */
  ghost predicate SameFirsts(fns: seq<Fn>, fns': seq<Fn>) {
    forall f :: f != 0 ==> CountFirst(fns', f) == CountFirst(fns, f)
  }

  lemma CutFirsts(fns: seq<Fn>, x: Frame)
    ensures NothingCut(fns, x) <==> SameFirsts(fns, Cut(fns, x))
  {
    hide CountFirst;
    if x.jcc.Some? && x.fnSp < |fns| {
      if NothingCut(fns, x) {
        forall f | f != 0 ensures CountFirst(Cut(fns, x), f) == CountFirst(fns, f) {
          CountFirstCut(fns, x.fnSp + 1, f);
        }
      } else {
        var i :| x.fnSp < i < |fns| && fns[i - 1] == 0 && fns[i] != 0;
        CountFirstCut(fns, x.fnSp + 1, fns[i]);
      }
    }
  }

  lemma CutLess(fns: seq<Fn>, x: Frame, f: Fn)
    ensures CountFirst(Cut(fns, x), f) <= CountFirst(fns, f) <= |fns|
  {
    hide CountFirst;
    if x.jcc.Some? && x.fnSp < |fns| {
      CountFirstCut(fns, x.fnSp + 1, f);
    }
  }

  lemma NearZero(x: int)
    requires -1 <= x < UINT - 1
    ensures x % UINT == 0 <==> x == 0
  {
  }

  /** The function taken off instead of `kept` cannot make up for one that is cut off. */
  lemma CancelSwapped(kept: Fn, lost: Fn, fns: seq<Fn>, x: Frame)
    requires kept != 0 && lost != 0 && |fns| < 0x7FFF_FFFF
    ensures Cancel([Slip(kept, 1), Slip(lost, -1)] + CutSlips(fns, x)) <==> lost == kept && SameFirsts(fns, Cut(fns, x))
  {
    Swapped(kept, lost);
    hide Net, CountFirst, Cut, CutSlips;
    var sl, fns' := [Slip(kept, 1), Slip(lost, -1)], Cut(fns, x);
    forall f | f != 0
      ensures Net(sl + CutSlips(fns, x), f) % UINT == 0 <==> Net(sl, f) + CountFirst(fns, f) - CountFirst(fns', f) == 0
      ensures CountFirst(fns', f) <= CountFirst(fns, f)
    {
      NetAppend(sl, CutSlips(fns, x), f);
      CutNet(fns, x, f);
      CutLess(fns, x, f);
      NearZero(Net(sl, f) + CountFirst(fns, f) - CountFirst(fns', f));
    }
    if Cancel(sl + CutSlips(fns, x)) {
      assert Net(sl + CutSlips(fns, x), kept) % UINT == 0;
      forall f | f != 0 ensures CountFirst(fns', f) == CountFirst(fns, f) {
        assert Net(sl + CutSlips(fns, x), f) % UINT == 0;
      }
    }
  }

  lemma CancelNothing(fns: seq<Fn>, x: Frame)
    requires |fns| < 0x7FFF_FFFF
    ensures Cancel([] + CutSlips(fns, x)) <==> SameFirsts(fns, Cut(fns, x))
  {
    assert [] + CutSlips(fns, x) == CutSlips(fns, x);
    hide Net, CountFirst, Cut, CutSlips;
    var fns' := Cut(fns, x);
    forall f | f != 0 ensures Net(CutSlips(fns, x), f) % UINT == 0 <==> CountFirst(fns', f) == CountFirst(fns, f) {
      CutNet(fns, x, f);
      CutLess(fns, x, f);
      NearZero(CountFirst(fns, f) - CountFirst(fns', f));
    }
  }

  /** Every pop keeps exact counts exact exactly if a handler that it leaves is in its first function, and no function
      right above a marker is cut off the function stack: it would stay counted. */
  lemma PopExact(c: Conf, s: State)
    requires Inv(s, false) && Fits(s) && s.frames != [] && ActiveOk(s)
    ensures s.fns != [] && s.fns[0] == 0
    ensures var m, leaves := LastZero(s.fns), |s.states| > 1 && |s.frames| == Last(s.states).bottom;
      ActiveOk(Pop(c, s)) <==>
        && (leaves && s.cur.cxt.Some? ==> m + 1 < |s.fns| && s.cur.cxt.value.fn == s.fns[m + 1])
        && NothingCut(if leaves then s.fns[..m] else s.fns, Last(s.frames))
  {
    LeaveSlipsAre(c, s);
    assert Poppable(s);
    hide *;
    NoSlips(s);
    PopCounts(c, s, []);
    assert [] + PopSlips(c, s) == PopSlips(c, s);
    ExactIffCancel(Pop(c, s), PopSlips(c, s));
    PopSlipsAre(c, s);
    var fns, x := LeaveAtBottom(c, s).fns, Last(s.frames);
    FitsLeft(c, s);
    CutFirsts(fns, x);
    if LeaveSlips(s) != [] {
      CancelSwapped(s.fns[LastZero(s.fns) + 1], s.cur.cxt.value.fn, fns, x);
    } else {
      CancelNothing(fns, x);
    }
  }

  lemma PopSlipsAre(c: Conf, s: State)
    requires s.frames != [] && s.states != []
    ensures PopSlips(c, s) == LeaveSlips(s) + CutSlips(LeaveAtBottom(c, s).fns, Last(s.frames))
  {
  }

  lemma FitsLeft(c: Conf, s: State)
    requires s.states != [] && Fits(s)
    ensures |LeaveAtBottom(c, s).fns| < 0x7FFF_FFFF
  {
    hide LeaveAtBottom;
  }

  /** A pop that reaches through two handlers keeps exact counts exact exactly if the first of them is in its first
      function and the others have executed nothing. */
  lemma PopAcross(c: Conf, s: State)
    requires Inv(s, false) && Fits(s) && s.frames != [] && !PopOk(s) && ActiveOk(s)
    ensures s.fns != [] && s.fns[0] == 0 && (s.cur.cxt.Some? ==> LastZero(s.fns) + 1 < |s.fns|)
    ensures var m := LastZero(s.fns);
      ActiveOk(Pop(c, s)) <==>
        (s.cur.cxt.None? || s.cur.cxt.value.fn == s.fns[m + 1]) && NothingCut(s.fns[..m], Last(s.frames))
  {
    AcrossLeaves(s);
    LeaveSlipsAre(c, s);
    hide *;
    PopExact(c, s);
  }

  lemma AcrossLeaves(s: State)
    requires Inv(s, false) && s.frames != [] && !PopOk(s)
    ensures |s.states| > 1 && |s.frames| == Last(s.states).bottom
  {
  }

  /** A pop of an entry of the part that it comes to cuts off nothing that is counted. */
  lemma PopOkCuts(c: Conf, s: State)
    requires Inv(s, false) && PopOk(s)
    ensures s.states != [] && s.frames != [] && PopSlips(c, s) == LeaveSlips(s)
  {
    InvParts(s);
    hide *;
    InvLeaveAtBottom(c, s, false);
    KeepsFrames(c, s);
    PopSlipsAre(c, s);
    CutInPart(LeaveAtBottom(c, s));
    assert LeaveSlips(s) + [] == LeaveSlips(s);
  }

  lemma InvParts(s: State)
    requires Inv(s, false) && PopOk(s)
    ensures s.states != [] && s.frames != [] && s.fns != []
  {
    hide PartsOk;
    TopPart(s, false);
  }

  lemma CutInPart(l: State)
    requires Inv(l, false) && l.states != [] && |l.frames| > Last(l.states).bottom
    ensures CutSlips(l.fns, Last(l.frames)) == []
  {
    hide Inv, CutFrom;
    var x := Last(l.frames);
    if x.jcc.Some? {
      PopFrameFns(l, false);
      TopPart(l, false);
      CutNothing(l.fns, x.fnSp + 1);
    }
  }

  lemma CutNothing(fns: seq<Fn>, n: nat)
    requires 1 <= n && |fns| <= n + 1 && (|fns| == n + 1 ==> fns[n - 1] != 0)
    ensures CutFrom(fns, n) == []
  {
  }

  function UnwindSlips(c: Conf, s: State, sp: nat, minpops: int): seq<Slip>
    requires s.states != []
    decreases |s.frames|
  {
    if Passed(s, sp, minpops) then PopSlips(c, s) + UnwindSlips(c, Pop(c, s), sp, minpops - 1) else []
  }

  lemma {:induction false} UnwindCounts(c: Conf, s: State, sp: nat, minpops: int, slips: seq<Slip>)
    requires Poppable(s) && Counts(s, slips)
    ensures s.states != [] && Poppable(Unwind(c, s, sp, minpops))
    ensures Counts(Unwind(c, s, sp, minpops), slips + UnwindSlips(c, s, sp, minpops))
    decreases |s.frames|
  {
    PoppableParts(s);
    hide Counts, Poppable, PopSlips, Pop;
    if Passed(s, sp, minpops) {
      PopAny(c, s);
      PopCounts(c, s, slips);
      UnwindCounts(c, Pop(c, s), sp, minpops - 1, slips + PopSlips(c, s));
      Reassociate(slips, PopSlips(c, s), UnwindSlips(c, Pop(c, s), sp, minpops - 1));
    } else {
      assert slips + [] == slips;
    }
  }

  lemma PoppableParts(s: State)
    requires Poppable(s)
    ensures s.states != [] && s.fns != []
  {
  }

  lemma Reassociate<T>(a: seq<T>, b: seq<T>, c: seq<T>)
    ensures (a + b) + c == a + (b + c)
  {
  }

  // ---------------------------------------------------------------- underflow

  /** The repair of an underflow takes the function of the block executed last off the counts, while the one that
      leaves the function stack is the one on top. */
  function UnderflowSlips(s: State): seq<Slip> {
    if s.fns == [] || s.cur.bbcc.None? then [] else [Slip(Last(s.fns), 1), Slip(s.cur.bbcc.value.cxt.fn, -1)]
  }

  lemma UnderflowCounts(c: Conf, s: State, caller: Fn, g: Found, slips: seq<Slip>)
    requires QInv(s, false) && NoCall(s) && s.cur.bbcc.Some? && caller != 0 && Counts(s, slips)
    ensures Counts(Pop(c, Underflow(c, s, caller, g)), slips + UnderflowSlips(s))
  {
    hide PartsOk, Pop, Underflow;
    TopPart(s, false);
    NoCallTop(s, false);
    UnderflowParts(c, s, caller, g);
    var r := Pop(c, Underflow(c, s, caller, g));
    hide Counts;
    RepairedCounts(s, r, caller, slips);
  }

  lemma RepairedCounts(s: State, r: State, caller: Fn, slips: seq<Slip>)
    requires |s.fns| > 1 && s.fns[|s.fns| - 2] == 0 && s.cur.bbcc.Some? && Counts(s, slips)
    requires r.frames == s.frames && r.fns == Front(s.fns) + [caller]
    requires var f := s.cur.bbcc.value.cxt.fn; r.active == Down(Up(Down(Up(s.active, caller), f), f), f)
    ensures Counts(r, slips + UnderflowSlips(s))
  {
    hide Expected, Down, Up;
    forall h | h != 0
      ensures Get(r.active, h) == (Expected(r.frames, r.fns, h) + Net(slips + UnderflowSlips(s), h)) % UINT
    {
      NetAppend(slips, UnderflowSlips(s), h);
      Swapped(Last(s.fns), s.cur.bbcc.value.cxt.fn);
      Replaced(s.frames, s.fns, caller, h);
      RepairedCount(s.active, caller, s.cur.bbcc.value.cxt.fn, h, Expected(s.frames, s.fns, h) + Net(slips, h));
    }
  }

  lemma Replaced(frames: seq<Frame>, fns: seq<Fn>, fn: Fn, f: Fn)
    requires |fns| > 1 && fns[|fns| - 2] == 0
    ensures Expected(frames, Front(fns) + [fn], f)
      == Expected(frames, fns, f) + (if f == fn then 1 else 0) - (if f == Last(fns) then 1 else 0)
  {
    CountFirstPush(Front(fns), fn, f);
    CountFirstPush(Front(fns), Last(fns), f);
    assert fns == Front(fns) + [Last(fns)];
  }

  lemma UpOne(active: map<Fn, nat>, g: Fn, h: Fn, x: int)
    requires Get(active, h) == x % UINT
    ensures Get(Up(active, g), h) == (x + if h == g then 1 else 0) % UINT
  {
    UpDown(x);
  }

  lemma DownOne(active: map<Fn, nat>, g: Fn, h: Fn, x: int)
    requires Get(active, h) == x % UINT
    ensures Get(Down(active, g), h) == (x - if h == g then 1 else 0) % UINT
  {
    UpDown(x);
  }

  /** The four changes that a repair and the return after it make to a count. */
  lemma RepairedCount(active: map<Fn, nat>, caller: Fn, f: Fn, h: Fn, x: int)
    requires Get(active, h) == x % UINT
    ensures Get(Down(Up(Down(Up(active, caller), f), f), f), h)
      == (x + (if h == caller then 1 else 0) - (if h == f then 1 else 0)) % UINT
  {
    hide Get, Up, Down;
    var i, j := if h == caller then 1 else 0, if h == f then 1 else 0;
    UpOne(active, caller, h, x);
    DownOne(Up(active, caller), f, h, x + i);
    UpOne(Down(Up(active, caller), f), f, h, x + i - j);
    DownOne(Up(Down(Up(active, caller), f), f), f, h, x + i);
  }

  /** Repairing an underflow keeps exact counts exact if and only if the block executed last belongs to the function
      on top of the function stack. */
  lemma UnderflowExact(c: Conf, s: State, caller: Fn, g: Found)
    requires QInv(s, false) && NoCall(s) && s.cur.bbcc.Some? && caller != 0 && ActiveOk(s)
    ensures s.fns != []
    ensures ActiveOk(Pop(c, Underflow(c, s, caller, g))) <==> s.cur.bbcc.value.cxt.fn == Last(s.fns)
  {
    hide PartsOk, Pop, Underflow, ActiveOk;
    TopPart(s, false);
    NoCallTop(s, false);
    NoSlips(s);
    UnderflowCounts(c, s, caller, g, []);
    assert [] + UnderflowSlips(s) == UnderflowSlips(s);
    ExactIffCancel(Pop(c, Underflow(c, s, caller, g)), UnderflowSlips(s));
    Swapped(Last(s.fns), s.cur.bbcc.value.cxt.fn);
  }

  // ---------------------------------------------------------------- a basic block starts

  /** A jump that replaces the current call pops it. */
  function JumpSlips(c: Conf, s: State, bb: Bb, sp: nat): seq<Slip>
    requires s.states != []
  {
    if PopOnJump(c, s, bb, sp).state != s && s.frames != [] then PopSlips(c, s) else []
  }

  function ArriveSlips(c: Conf, s: State, bb: Bb, sp: nat): seq<Slip>
    requires s.states != []
  {
    if IsReturn(s, bb, sp) then if NoCall(s) then UnderflowSlips(s) else UnwindSlips(c, s, sp, ReturnPops(s, bb, sp))
    else
      var o := PopOnJump(c, s, bb, sp);
      JumpSlips(c, s, bb, sp) + UnwindSlips(c, o.state, o.sp, 0)
  }

  /** The block executed last does not matter for a pop. */
  lemma SamePopSlips(c: Conf, s: State, b: Option<Bbcc>)
    requires s.states != [] && s.frames != []
    ensures PopSlips(c, s.(cur := s.cur.(bbcc := b))) == PopSlips(c, s)
  {
    var s' := s.(cur := s.cur.(bbcc := b));
    assert LeaveSlips(s') == LeaveSlips(s);
    SameLeft(c, s, b);
    hide LeaveSlips, CutSlips, LeaveAtBottom;
  }

  lemma SameLeft(c: Conf, s: State, b: Option<Bbcc>)
    requires s.states != []
    ensures LeaveAtBottom(c, s.(cur := s.cur.(bbcc := b))).fns == LeaveAtBottom(c, s).fns
  {
    var s' := s.(cur := s.cur.(bbcc := b));
    if |s.frames| == Last(s.states).bottom {
      assert ToBottom(c, s') == s' && ToBottom(c, s) == s;
    }
  }

  lemma PopOnJumpCounts(c: Conf, s: State, bb: Bb, sp: nat, slips: seq<Slip>)
    requires Inv(s, false) && Counts(s, slips)
    ensures s.states != [] && Poppable(PopOnJump(c, s, bb, sp).state)
    ensures Counts(PopOnJump(c, s, bb, sp).state, slips + JumpSlips(c, s, bb, sp))
  {
    hide PartsOk, Pop, PopSlips, Stacked;
    var o := PopOnJump(c, s, bb, sp);
    if o.state != s {
      var s' := s.(cur := s.cur.(bbcc := Some(Last(s.frames).jcc.value.from)));
      Rebased(c, s, s'.cur.bbcc);
      PopAny(c, s');
      PopCounts(c, s', slips);
      SamePopSlips(c, s, s'.cur.bbcc);
    } else {
      assert slips + [] == slips;
    }
  }

  lemma Rebased(c: Conf, s: State, b: Option<Bbcc>)
    requires Inv(s, false) && s.frames != [] && s.cur.bbcc.Some?
    ensures Poppable(s.(cur := s.cur.(bbcc := b)))
  {
    hide PartsOk, Chain;
    TopPart(s, false);
    PopIgnoresBbcc(c, s, b, false);
  }

  lemma ArriveCounts(c: Conf, s: State, bb: Bb, sp: nat, g: Found, slips: seq<Slip>)
    requires QInv(s, false) && bb.fn != 0 && Counts(s, slips)
    ensures s.fns != [] && s.states != [] && Poppable(Arrive(c, s, bb, sp, g))
    ensures Counts(Arrive(c, s, bb, sp, g), slips + ArriveSlips(c, s, bb, sp))
  {
    TopPart(s, false);
    hide PartsOk, Pop, Underflow, Counts, UnderflowSlips, PopOnJump, JumpSlips, Stacked;
    if IsReturn(s, bb, sp) {
      if NoCall(s) {
        UnderflowCounts(c, s, bb.fn, g, slips);
        InvUnderflow(c, s, bb.fn, g, false);
      } else {
        UnwindCounts(c, s, sp, ReturnPops(s, bb, sp), slips);
      }
    } else {
      var o := PopOnJump(c, s, bb, sp);
      PopOnJumpCounts(c, s, bb, sp, slips);
      UnwindCounts(c, o.state, o.sp, 0, slips + JumpSlips(c, s, bb, sp));
      Reassociate(slips, JumpSlips(c, s, bb, sp), UnwindSlips(c, o.state, o.sp, 0));
    }
  }

  /** The correction of a recursion level of 0. */
  function LevelSlips(c: Conf, s: State, called: bool): seq<Slip> {
    if s.fns != [] && Recursions(c, Last(s.fns)) > 1 && RecLevel(s, called) == 0
    then [Slip(Last(s.fns), if called then 2 else 1)] else []
  }

  lemma CorrectedCount(a: nat, x: int, k: nat)
    ensures a == x % UINT && (a + k) % UINT == 0 ==> 1 == (x + 1 + k) % UINT
  {
    assert (x % UINT + k) % UINT == (x + k) % UINT;
    assert (x + k) % UINT == 0 ==> (x + k + 1) % UINT == 1;
  }

  lemma ChooseIs(c: Conf, s: State, bb: Bb, called: bool)
    requires s.fns != [] && s.cur.cxt.Some?
    ensures var a, sl, top := Choose(c, s, bb, called).0, LevelSlips(c, s, called), Last(s.fns);
      && a == (if sl == [] then s.active else s.active[top := 1])
      && (sl != [] ==> sl == [Slip(top, if called then 2 else 1)])
      && (sl != [] ==> (Get(s.active, top) + if called then 1 else 0) % UINT == 0)
  {
  }

  lemma ChooseCounts(c: Conf, s: State, bb: Bb, called: bool, slips: seq<Slip>)
    requires s.fns != [] && s.cur.cxt.Some? && Counts(s, slips)
    ensures CountsAre(Choose(c, s, bb, called).0, s.frames, s.fns, slips + LevelSlips(c, s, called))
  {
    ChooseIs(c, s, bb, called);
    var a, sl := Choose(c, s, bb, called).0, LevelSlips(c, s, called);
    hide Choose, LevelSlips, RecLevel;
    if sl == [] {
      assert slips + sl == slips;
    } else {
      CorrectedCounts(s.active, s.frames, s.fns, Last(s.fns), if called then 1 else 0, slips);
    }
  }

  lemma CorrectedCounts(active: map<Fn, nat>, frames: seq<Frame>, fns: seq<Fn>, top: Fn, k: nat, slips: seq<Slip>)
    requires CountsAre(active, frames, fns, slips) && (Get(active, top) + k) % UINT == 0
    ensures CountsAre(active[top := 1], frames, fns, slips + [Slip(top, k + 1)])
  {
    hide Expected, Net;
    forall f | f != 0 ensures Get(active[top := 1], f) == (Expected(frames, fns, f) + Net(slips + [Slip(top, k + 1)], f)) % UINT {
      NetAppend(slips, [Slip(top, k + 1)], f);
      NetOne(Slip(top, k + 1), f);
      CorrectedCount(Get(active, top), Expected(frames, fns, f) + Net(slips, f), k);
    }
  }

  /** The correction makes exact counts wrong, and is the only thing in choosing a cost centre that does. */
  lemma ChooseExact(c: Conf, s: State, bb: Bb, called: bool)
    requires s.fns != [] && s.cur.cxt.Some? && ActiveOk(s) && Last(s.fns) != 0
    ensures ActiveOk(s.(active := Choose(c, s, bb, called).0))
      <==> Recursions(c, Last(s.fns)) <= 1 || RecLevel(s, called) != 0
  {
    var r, sl := s.(active := Choose(c, s, bb, called).0), LevelSlips(c, s, called);
    NoSlips(s);
    ChooseCounts(c, s, bb, called, []);
    assert [] + sl == sl;
    ExactIffCancel(r, sl);
    if sl != [] {
      NetOne(sl[0], Last(s.fns));
    }
  }

  function SettleSlips(c: Conf, s: State, bb: Bb, calls: bool, skip: bool, id: nat): seq<Slip>
    requires s.fns != []
  {
    var s1 := if (calls && !skip) || s.cur.cxt.None? then PushCxt(s, bb.fn, id) else s;
    if s1.cur.cxt.None? then [] else LevelSlips(c, s1, calls && !skip)
  }

  lemma SettleCounts(c: Conf, s: State, bb: Bb, calls: bool, skip: bool, o: Origin, sp: nat, id: nat, slips: seq<Slip>)
    requires s.fns != [] && bb.fn != 0 && Counts(s, slips)
    ensures Counts(Settle(c, s, bb, calls, skip, o, sp, id), slips + SettleSlips(c, s, bb, calls, skip, id))
  {
    hide CountsAre, Enter, Choose, LevelSlips;
    var s1 := if (calls && !skip) || s.cur.cxt.None? then PushCxt(s, bb.fn, id) else s;
    if s1.fns != s.fns {
      CountPush(s.active, s.frames, s.fns, bb.fn, slips);
    }
    assert Counts(s1, slips);
    if s1.cur.cxt.None? {
      assert slips + [] == slips;
    } else {
      var (a, bbcc) := Choose(c, s1, bb, calls && !skip);
      ChooseCounts(c, s1, bb, calls && !skip, slips);
      if calls {
        EnterCounts(c, s1.(active := a), o, sp, bbcc, skip, slips + LevelSlips(c, s1, calls && !skip));
      }
    }
  }

  lemma EnterCounts(c: Conf, s: State, o: Origin, sp: nat, bbcc: Bbcc, skip: bool, slips: seq<Slip>)
    requires Counts(s, slips)
    ensures Counts(Enter(c, s, o, sp, bbcc, skip), slips)
  {
    hide CountsAre;
    var r := Enter(c, s, o, sp, bbcc, skip);
    CountCall(s.active, s.frames, s.fns, Last(r.frames), slips);
  }

  // ---------------------------------------------------------------- runs

  /** The slips of a step; they can be told from the state before it. */
  function StepSlips(c: Conf, s: State, op: Op): seq<Slip>
    requires s.fns != [] && s.states != [] && Enabled(s, op)
  {
    match op
    case Block(bb, sp, g) =>
      var s1 := Arrive(c, s, bb, sp, g);
      ArriveSlips(c, s, bb, sp)
      + if s1.fns == [] then [] else SettleSlips(c, s1, bb, Calls(c, s, bb, sp), bb.fn in c.skip, g.entered)
    case SigReturn => HandlerSlips(s)
    case _ => []
  }

  lemma StepCounts(c: Conf, s: State, op: Op, slips: seq<Slip>)
    requires QInv(s, false) && s.fns != [] && Enabled(s, op) && Counts(s, slips)
    ensures Counts(Step(c, s, op), slips + StepSlips(c, s, op))
  {
    hide PartsOk, Settle, PostSignal, Counts, ArriveSlips, SettleSlips, HandlerSlips, Arrive, PreSignal;
    match op
    case Block(bb, sp, g) => BlockCounts(c, s, bb, sp, g, slips);
    case Leave(jmp) => Unchanged(s, Step(c, s, op), slips);
    case Spend(n) => Unchanged(s, Step(c, s, op), slips);
    case Signal(sig) => SignalCounts(c, s, sig, slips);
    case SigReturn => PostSignalCounts(c, s, slips);
  }

  lemma Unchanged(s: State, r: State, slips: seq<Slip>)
    requires r.active == s.active && r.frames == s.frames && r.fns == s.fns && Counts(s, slips)
    ensures Counts(r, slips + [])
  {
    assert slips + [] == slips;
  }

  lemma SignalCounts(c: Conf, s: State, sig: nat, slips: seq<Slip>)
    requires s.states != [] && s.fns != [] && Counts(s, slips)
    ensures Counts(PreSignal(c, s, sig), slips + [])
  {
    hide CountsAre;
    CountPush(s.active, s.frames, s.fns, 0, slips);
    assert slips + [] == slips;
  }

  lemma BlockCounts(c: Conf, s: State, bb: Bb, sp: nat, g: Found, slips: seq<Slip>)
    requires QInv(s, false) && s.fns != [] && bb.fn != 0 && Counts(s, slips)
    ensures Counts(SetupBbcc(c, s, bb, sp, g), slips + StepSlips(c, s, Block(bb, sp, g)))
  {
    hide PartsOk, Counts, ArriveSlips, SettleSlips, Arrive, PopOnJump, Poppable;
    var s1, o, calls := Arrive(c, s, bb, sp, g), PopOnJump(c, s, bb, sp), Calls(c, s, bb, sp);
    hide Calls;
    ArriveCounts(c, s, bb, sp, g, slips);
    PoppableParts(s1);
    var sp' := if Emulated(s, bb, sp) && s1.frames != [] then Last(s1.frames).sp else o.sp;
    var sl := slips + ArriveSlips(c, s, bb, sp);
    SettleCounts(c, s1, bb, calls, bb.fn in c.skip, o, sp', g.entered, sl);
    Reassociate(slips, ArriveSlips(c, s, bb, sp), SettleSlips(c, s1, bb, calls, bb.fn in c.skip, g.entered));
  }

  /** A step keeps exact counts exact if and only if its slips cancel out; returns through handlers are no exception. */
  lemma StepExact(c: Conf, s: State, op: Op)
    requires QInv(s, false) && s.fns != [] && Enabled(s, op) && ActiveOk(s)
    ensures ActiveOk(Step(c, s, op)) <==> Cancel(StepSlips(c, s, op))
  {
    hide PartsOk, Step, StepSlips, ActiveOk, Cancel;
    NoSlips(s);
    StepCounts(c, s, op, []);
    assert [] + StepSlips(c, s, op) == StepSlips(c, s, op);
    ExactIffCancel(Step(c, s, op), StepSlips(c, s, op));
  }

  ghost function RunSlips(c: Conf, s: State, ops: seq<Op>): seq<Slip>
    requires Legal(c, s, ops, false)
    decreases |ops|
  {
    if ops == [] then [] else StepSlips(c, s, ops[0]) + RunSlips(c, Step(c, s, ops[0]), ops[1..])
  }

  lemma {:induction false} RunCounts(c: Conf, s: State, ops: seq<Op>, slips: seq<Slip>)
    requires QInv(s, false) && Legal(c, s, ops, false) && Counts(s, slips)
    ensures Counts(Run(c, s, ops, false), slips + RunSlips(c, s, ops))
    decreases |ops|
  {
    hide Counts, Step, StepSlips, QInv, Clean;
    if ops == [] {
      assert slips + [] == slips;
    } else {
      InvStep(c, s, ops[0], false);
      StepCounts(c, s, ops[0], slips);
      RunCounts(c, Step(c, s, ops[0]), ops[1..], slips + StepSlips(c, s, ops[0]));
      Reassociate(slips, StepSlips(c, s, ops[0]), RunSlips(c, Step(c, s, ops[0]), ops[1..]));
    }
  }

  /** After any run from the start of a thread, the counts are exact if and only if the slips of the run cancel. */
  lemma RunExact(c: Conf, ops: seq<Op>)
    requires Legal(c, Init(c), ops, false)
    ensures ActiveOk(Run(c, Init(c), ops, false)) <==> Cancel(RunSlips(c, Init(c), ops))
  {
    hide Run, RunSlips, Legal;
    InitExact(c);
    RunCounts(c, Init(c), ops, []);
    assert [] + RunSlips(c, Init(c), ops) == RunSlips(c, Init(c), ops);
    ExactIffCancel(Run(c, Init(c), ops, false), RunSlips(c, Init(c), ops));
  }

  /** ... and so after one more step of any kind, even one that reaches through several handlers. */
  lemma RunThenStep(c: Conf, ops: seq<Op>, op: Op)
    requires Legal(c, Init(c), ops, false) && Enabled(Run(c, Init(c), ops, false), op)
    ensures var s := Run(c, Init(c), ops, false);
      s.fns != [] && s.states != []
      && (ActiveOk(Step(c, s, op)) <==> Cancel(RunSlips(c, Init(c), ops) + StepSlips(c, s, op)))
  {
    var s, slips := Run(c, Init(c), ops, false), RunSlips(c, Init(c), ops);
    InitExact(c);
    InvFromStart(c, ops, false);
    TopPart(s, false);
    hide *;
    RunCounts(c, Init(c), ops, []);
    assert [] + slips == slips;
    StepCounts(c, s, op, slips);
    ExactIffCancel(Step(c, s, op), slips + StepSlips(c, s, op));
  }

  lemma InitExact(c: Conf)
    ensures QInv(Init(c), true) && QInv(Init(c), false) && ActiveOk(Init(c)) && Counts(Init(c), [])
  {
    InvInit(c, true);
    InvInit(c, false);
    hide QInv;
    NoSlips(Init(c));
  }

  /** The counts are exact in every state of the run. */
  ghost predicate AlwaysExact(c: Conf, s: State, ops: seq<Op>)
    requires Legal(c, s, ops, false)
    decreases |ops|
  {
    ActiveOk(s) && (ops != [] ==> AlwaysExact(c, Step(c, s, ops[0]), ops[1..]))
  }

  /** The slips of every step cancel. */
  ghost predicate NeverSlips(c: Conf, s: State, ops: seq<Op>)
    requires Legal(c, s, ops, false)
    decreases |ops|
  {
    ops != [] ==> Cancel(StepSlips(c, s, ops[0])) && NeverSlips(c, Step(c, s, ops[0]), ops[1..])
  }

  /** The first state in which a count is wrong is the one after the first step whose slips do not cancel. */
  lemma {:induction false} FirstWrong(c: Conf, s: State, ops: seq<Op>)
    requires QInv(s, false) && ActiveOk(s) && Legal(c, s, ops, false)
    ensures AlwaysExact(c, s, ops) <==> NeverSlips(c, s, ops)
    decreases |ops|
  {
    hide ActiveOk, Cancel, Step, StepSlips, QInv, Clean;
    if ops != [] {
      InvStep(c, s, ops[0], false);
      StepExact(c, s, ops[0]);
      if ActiveOk(Step(c, s, ops[0])) {
        FirstWrong(c, Step(c, s, ops[0]), ops[1..]);
      }
    }
  }

  // ---------------------------------------------------------------- runs in which functions and contexts stay in step

  lemma CancelAppend(a: seq<Slip>, b: seq<Slip>)
    requires Cancel(a) && Cancel(b)
    ensures Cancel(a + b)
  {
    forall f | f != 0 ensures Net(a + b, f) % UINT == 0 {
      NetAppend(a, b, f);
      assert Net(a, f) % UINT == 0 && Net(b, f) % UINT == 0;
    }
  }

  /** With functions and contexts in step, a handler is left in its first function. */
  lemma {:induction false} ChainBottom(part: seq<Frame>, fns: seq<Fn>, m: nat, top: nat, cxt: Option<Cxt>)
    requires top < |fns| && Chain(part, fns, m, top, true) && cxt.Some? && cxt.value.fn == fns[top]
    ensures m + 1 < |fns| && BottomCxt(part, cxt).Some? && BottomCxt(part, cxt).value.fn == fns[m + 1]
  {
    if part != [] {
      var f := Last(part);
      ChainBottom(Front(part), fns, m, if f.jcc.Some? then f.fnSp else top, if f.jcc.Some? then f.cxt else cxt);
    }
  }

  lemma HandlerCancel(s: State)
    requires Inv(s, true)
    ensures Cancel(HandlerSlips(s)) && Cancel(LeaveSlips(s))
  {
    hide PartsOk, Chain, BottomCxt, Cancel;
    TopPart(s, true);
    assert Cancel([]) by { NoSlipsCancel(); }
    var part, m := s.frames[Last(s.states).bottom..], LastZero(s.fns);
    if s.cur.cxt.Some? {
      ChainBottom(part, s.fns, m, |s.fns| - 1, s.cur.cxt);
      Swapped(s.fns[m + 1], BottomCxt(part, s.cur.cxt).value.fn);
    }
  }

  lemma NoSlipsCancel()
    ensures Cancel([])
  {
  }

  lemma PopCancel(c: Conf, s: State)
    requires Inv(s, true) && PopOk(s)
    ensures s.states != [] && s.frames != [] && Cancel(PopSlips(c, s))
  {
    hide *;
    WeakInv(s);
    PopOkCuts(c, s);
    HandlerCancel(s);
  }

  lemma {:induction false} UnwindCancel(c: Conf, s: State, sp: nat, minpops: int)
    requires Inv(s, true) && UnwindOk(c, s, sp, minpops)
    ensures Cancel(UnwindSlips(c, s, sp, minpops))
    decreases |s.frames|
  {
    NoSlipsCancel();
    hide Cancel, PopSlips, Pop, PopOk;
    if Passed(s, sp, minpops) {
      PopCancel(c, s);
      InvPop(c, s, true);
      UnwindCancel(c, Pop(c, s), sp, minpops - 1);
      CancelAppend(PopSlips(c, s), UnwindSlips(c, Pop(c, s), sp, minpops - 1));
    }
  }

  lemma ArriveCancel(c: Conf, s: State, bb: Bb, sp: nat)
    requires QInv(s, true) && bb.fn != 0 && ArriveOk(c, s, bb, sp, true)
    ensures Cancel(ArriveSlips(c, s, bb, sp))
  {
    NoSlipsCancel();
    TopPart(s, true);
    hide Cancel, PopSlips, Pop, PartsOk, PopOk, Inv;
    if IsReturn(s, bb, sp) {
      if NoCall(s) {
        NoCallTop(s, true);
        Swapped(Last(s.fns), s.cur.bbcc.value.cxt.fn);
      } else {
        UnwindCancel(c, s, sp, ReturnPops(s, bb, sp));
      }
    } else {
      var o := PopOnJump(c, s, bb, sp);
      InvPopOnJump(c, s, bb, sp, true);
      if o.state != s {
        PopCancel(c, s);
      }
      UnwindCancel(c, o.state, o.sp, 0);
      CancelAppend(JumpSlips(c, s, bb, sp), UnwindSlips(c, o.state, o.sp, 0));
    }
  }

  lemma {:induction false} CountCallsSome(frames: seq<Frame>, i: nat, f: Fn)
    requires i < |frames| && frames[i].jcc.Some? && frames[i].jcc.value.to.cxt.fn == f
    ensures CountCalls(frames, f) >= 1
  {
    if i < |frames| - 1 {
      CountCallsSome(Front(frames), i, f);
    }
  }

  lemma {:induction false} ChainTop(part: seq<Frame>, fns: seq<Fn>, m: nat, top: nat) returns (i: nat)
    requires top < |fns| && Chain(part, fns, m, top, true) && top != m + 1
    ensures i < |part| && part[i].jcc.Some? && part[i].jcc.value.to.cxt.fn == fns[top]
  {
    if Last(part).jcc.Some? {
      i := |part| - 1;
    } else {
      i := ChainTop(Front(part), fns, m, top);
    }
  }

  /** With functions and contexts in step and exact counts, the current function is active, and the recursion level
      is not 0. */
  lemma LevelPositive(s: State, called: bool)
    requires Inv(s, true) && s.cur.cxt.Some? && ActiveOk(s) && |s.frames| + |s.fns| + 1 < UINT
    ensures s.fns != [] && Last(s.fns) != 0 && Get(s.active, Last(s.fns)) > 0 && RecLevel(s, called) > 0
  {
    hide *;
    TopExpected(s);
    ExactBelow(s, Last(s.fns));
    LevelFrom(s, called);
  }

  lemma ExactBelow(s: State, f: Fn)
    requires ActiveOk(s) && f != 0 && |s.frames| + |s.fns| + 1 < UINT
    ensures Get(s.active, f) == Expected(s.frames, s.fns, f) <= |s.frames| + |s.fns|
  {
    hide CountCalls, CountFirst;
  }

  lemma LevelFrom(s: State, called: bool)
    requires s.fns != [] && 0 < Get(s.active, Last(s.fns)) < UINT - 1
    ensures RecLevel(s, called) > 0
  {
  }

  /** Then a cost centre is kept for each level of recursion, up to as many as are asked for; two if nothing is said. */
  lemma CentreIs(c: Conf, s: State, bb: Bb, called: bool)
    requires Inv(s, true) && s.cur.cxt.Some? && ActiveOk(s) && |s.frames| + |s.fns| + 1 < UINT
    ensures s.fns != []
    ensures var f, r := Last(s.fns), Choose(c, s, bb, called).1;
      var level: nat := Expected(s.frames, s.fns, f) + if called then 1 else 0;
      && r.bb == bb && r.cxt == s.cur.cxt.value && level > 0
      && (f in c.recursions ==> r.rec == if c.recursions[f] <= 1 then 0 else if level >= c.recursions[f] then c.recursions[f] - 1 else level - 1)
      && (f !in c.recursions ==> r.rec == if level >= 2 then 1 else 0)
  {
    hide PartsOk, Expected, ActiveOk, Inv;
    LevelPositive(s, called);
    ExactBelow(s, Last(s.fns));
  }

  /** The current function is to be counted. */
  lemma TopExpected(s: State)
    requires Inv(s, true) && s.cur.cxt.Some?
    ensures s.fns != [] && Last(s.fns) != 0 && Expected(s.frames, s.fns, Last(s.fns)) > 0
  {
    hide PartsOk, Chain;
    TopPart(s, true);
    var b, m, top := Last(s.states).bottom, LastZero(s.fns), |s.fns| - 1;
    ChainAbove(s.frames[b..], s.fns, m, top, true);
    if top != m + 1 {
      var i := ChainTop(s.frames[b..], s.fns, m, top);
      assert s.frames[b..][i] == s.frames[b + i];
      CountCallsSome(s.frames, b + i, Last(s.fns));
    }
  }

  lemma CalledLevel(s: State)
    requires s.fns != [] && Last(s.fns) != 0 && ActiveOk(s) && |s.frames| + |s.fns| + 1 < UINT
    ensures RecLevel(s, true) > 0
  {
  }

  lemma SettleCancel(c: Conf, s: State, bb: Bb, calls: bool, skip: bool, id: nat)
    requires Inv(s, true) && s.fns != [] && bb.fn != 0 && (calls ==> s.cur.cxt.Some?) && ActiveOk(s)
    requires |s.frames| + |s.fns| + 2 < UINT
    ensures Cancel(SettleSlips(c, s, bb, calls, skip, id))
  {
    NoSlipsCancel();
    NoSlips(s);
    hide PartsOk, Cancel, Chain, ActiveOk, RecLevel, CountsAre;
    TopPart(s, true);
    var s1 := if (calls && !skip) || s.cur.cxt.None? then PushCxt(s, bb.fn, id) else s;
    if s1.fns != s.fns {
      CountPush(s.active, s.frames, s.fns, bb.fn, []);
    }
    assert Counts(s1, []);
    NoSlips(s1);
    if s.cur.cxt.None? {
      InvFirst(s, bb.fn, id, true);
    }
    if calls && !skip {
      CalledLevel(s1);
    } else {
      LevelPositive(s1, false);
    }
  }

  lemma StepCancel(c: Conf, s: State, op: Op)
    requires QInv(s, true) && s.fns != [] && Enabled(s, op) && Clean(c, s, op, true) && Fits(s) && ActiveOk(s)
    ensures Cancel(StepSlips(c, s, op))
  {
    NoSlipsCancel();
    hide PartsOk, Cancel, ArriveSlips, SettleSlips, HandlerSlips, Arrive, PopOnJump, ActiveOk;
    match op {
      case Block(bb, sp, g) =>
        var s1 := Arrive(c, s, bb, sp, g);
        ArriveCancel(c, s, bb, sp);
        InvArrive(c, s, bb, sp, g, true);
        TopPart(s1, true);
        WeakToo(s);
        NoSlips(s);
        ArriveCounts(c, s, bb, sp, g, []);
        assert [] + ArriveSlips(c, s, bb, sp) == ArriveSlips(c, s, bb, sp);
        ExactIffCancel(s1, ArriveSlips(c, s, bb, sp));
        ArriveSmall(c, s, bb, sp, g);
        SettleCancel(c, s1, bb, Calls(c, s, bb, sp), bb.fn in c.skip, g.entered);
        CancelAppend(ArriveSlips(c, s, bb, sp), SettleSlips(c, s1, bb, Calls(c, s, bb, sp), bb.fn in c.skip, g.entered));
      case SigReturn => HandlerCancel(s);
      case _ =>
    }
  }

  lemma ArriveSmall(c: Conf, s: State, bb: Bb, sp: nat, g: Found)
    requires QInv(s, true) && bb.fn != 0
    ensures |Arrive(c, s, bb, sp, g).frames| <= |s.frames| && |Arrive(c, s, bb, sp, g).fns| <= |s.fns|
  {
    hide Pop, Underflow;
    if IsReturn(s, bb, sp) && NoCall(s) {
      TopPart(s, true);
      NoCallTop(s, true);
      UnderflowParts(c, s, bb.fn, g);
    }
  }

  lemma {:induction false} WeakChain(part: seq<Frame>, fns: seq<Fn>, m: nat, top: nat)
    requires top < |fns| && Chain(part, fns, m, top, true)
    ensures Chain(part, fns, m, top, false)
  {
    if part != [] {
      WeakChain(Front(part), fns, m, if Last(part).jcc.Some? then Last(part).fnSp else top);
    }
  }

  lemma {:induction false} WeakParts(states: seq<Exec>, e: Exec, frames: seq<Frame>, fns: seq<Fn>)
    requires PartsOk(states, e, frames, fns, true)
    ensures PartsOk(states, e, frames, fns, false)
  {
    if e.cxt.Some? {
      WeakChain(frames[Last(states).bottom..], fns, LastZero(fns), |fns| - 1);
    }
    if |states| > 1 {
      WeakParts(Front(states), states[|states| - 2], frames[..Last(states).bottom], fns[..LastZero(fns)]);
    }
  }

  lemma WeakToo(s: State)
    requires QInv(s, true)
    ensures QInv(s, false)
  {
    WeakInv(s);
  }

  lemma WeakInv(s: State)
    requires Inv(s, true)
    ensures Inv(s, false)
  {
    WeakParts(s.states, s.cur, s.frames, s.fns);
  }

  /** As long as no underflow puts another function in the place of one that still has calls, nothing slips. */
  lemma {:induction false} CleanNeverSlips(c: Conf, s: State, ops: seq<Op>)
    requires QInv(s, true) && ActiveOk(s) && Legal(c, s, ops, true)
    ensures Legal(c, s, ops, false) && NeverSlips(c, s, ops)
    decreases |ops|
  {
    hide ActiveOk, Cancel, Step, StepSlips, PartsOk;
    WeakToo(s);
    if ops != [] {
      StepCancel(c, s, ops[0]);
      StepExact(c, s, ops[0]);
      InvStep(c, s, ops[0], true);
      CleanNeverSlips(c, Step(c, s, ops[0]), ops[1..]);
    }
  }

  lemma {:induction false} LastExact(c: Conf, s: State, ops: seq<Op>, strong: bool)
    requires Legal(c, s, ops, strong) && Legal(c, s, ops, false) && AlwaysExact(c, s, ops)
    ensures ActiveOk(Run(c, s, ops, strong))
    decreases |ops|
  {
    if ops != [] {
      LastExact(c, Step(c, s, ops[0]), ops[1..], strong);
    }
  }

  /** In such a run from the start of a thread every count is exact, and never 0 while its function runs. */
  lemma ActiveFromStart(c: Conf, ops: seq<Op>, f: Fn)
    requires Legal(c, Init(c), ops, true) && f != 0
    ensures var s := Run(c, Init(c), ops, true);
      && Get(s.active, f) == Expected(s.frames, s.fns, f)
      && (s.cur.cxt.Some? && f == s.cur.cxt.value.fn ==> Get(s.active, f) > 0)
  {
    hide ActiveOk, QInv, Step, Clean;
    InitExact(c);
    CleanNeverSlips(c, Init(c), ops);
    FirstWrong(c, Init(c), ops);
    LastExact(c, Init(c), ops, true);
    InvFromStart(c, ops, true);
    RunFits(c, Init(c), ops, true);
    CountIs(Run(c, Init(c), ops, true), f);
  }

  lemma CountIs(s: State, f: Fn)
    requires QInv(s, true) && ActiveOk(s) && Fits(s) && f != 0
    ensures Get(s.active, f) == Expected(s.frames, s.fns, f)
    ensures s.cur.cxt.Some? && f == s.cur.cxt.value.fn ==> Get(s.active, f) > 0
  {
    hide PartsOk;
    TopPart(s, true);
    if s.cur.cxt.Some? {
      LevelPositive(s, false);
    }
  }
}
