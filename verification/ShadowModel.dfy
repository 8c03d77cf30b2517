/**
 Callgrind's shadow call stack (`callstack.c`, `context.c`, `threads.c`, `bbcc.c`): the state
 of one thread and what each operation makes of it.

 Function groups, `skip_direct_recursion` and switching instrumentation off and on are not
 part of this model; costs are those of one event.
*/
module ShadowModel {
  import opened Common

  type Fn = nat                       // 0 is the marker that separates handlers on the function stack

  const UINT := 0x1_0000_0000
  const MAX_SIGHANDLERS := 10
  const MAX_ADDR := 0xFFFF_FFFF_FFFF_FFFF

  /** An execution context.  Only its innermost function matters here; `id` tells contexts apart. */
  datatype Cxt = Cxt(fn: Fn, id: nat)

  datatype JumpKind = JNone | Jump | Call | Return

  datatype Jmp = Jmp(kind: JumpKind, retAddr: nat)

  /** A basic block; the last of its jumps is the one at its end. */
  datatype Bb = Bb(addr: nat, fn: Fn, isEntry: bool, sect: nat, obj: nat, jmps: seq<Jmp>)

  datatype Bbcc = Bbcc(bb: Bb, cxt: Cxt, rec: nat)

  datatype Jcc = Jcc(from: Bbcc, jmp: nat, to: Bbcc)

  /** A call entry; one without a jCC is a call of a skipped function. */
  datatype Frame = Frame(jcc: Option<Jcc>, enter: int, sp: nat, retAddr: nat, nonskipped: Option<Bbcc>,
                         cxt: Option<Cxt>, fnSp: nat)

  /** The execution state of a thread or of a signal handler.  `cost` says whose cost array is in use. */
  datatype Exec = Exec(sig: nat, collect: bool, cxt: Option<Cxt>, jmps: nat, bbcc: Option<Bbcc>,
                       nonskipped: Option<Bbcc>, cost: nat, bottom: nat)

  /** What `push_cxt` has stored in the call entry that is not in use yet. */
  datatype Pending = Pending(cxt: Option<Cxt>, fnSp: nat)

  /** The options that bear on the call stack. */
  datatype Conf = Conf(collectAtStart: bool, toggle: set<Fn>, skip: set<Fn>, popOnJump: set<Fn>, recursions: map<Fn, nat>)

  datatype State = State(
    cur: Exec,                        // the current state
    states: seq<Exec>,                // one for the thread and one for each nested handler
    frames: seq<Frame>,               // the call stack
    pend: Pending,
    fns: seq<Fn>,                     // the function stack, from its bottom to its top
    active: map<Fn, nat>,
    costs: seq<int>,                  // the cost arrays of `states`
    jccCost: map<Jcc, int>,
    sigCost: int,                     // the thread's cost of signal handlers
    lastDump: int)                    // ... and its cost at the last dump

  function Get(active: map<Fn, nat>, f: Fn): nat { if f in active then active[f] else 0 }

  function Up(active: map<Fn, nat>, f: Fn): map<Fn, nat> { active[f := (Get(active, f) + 1) % UINT] }

  function Down(active: map<Fn, nat>, f: Fn): map<Fn, nat> { active[f := (Get(active, f) + UINT - 1) % UINT] }

  function CostOf(s: State): int { if s.cur.cost < |s.costs| then s.costs[s.cur.cost] else 0 }

  // ---------------------------------------------------------------- contexts

  /** `push_cxt`: remembers the context, and enters a function that is not on top already.  `id` is the
      context found for the new function stack. */
  function PushCxt(s: State, fn: Fn, id: nat): State
    requires s.fns != []
  {
    var s1 := s.(pend := Pending(s.cur.cxt, |s.fns| - 1));
    if fn != 0 && Last(s.fns) == fn then s1
    else s1.(fns := s.fns + [fn],
             active := if fn != 0 && Last(s.fns) == 0 then Up(s.active, fn) else s.active,
             cur := s.cur.(cxt := if fn == 0 then None else Some(Cxt(fn, id))))
  }

  // ---------------------------------------------------------------- calls

  /** Entering a function for the first time, or leaving it for the last. */
  function Toggle(c: Conf, e: Exec, fn: Fn, depth: nat, when: nat): Exec {
    if depth == when && fn in c.toggle then e.(collect := !e.collect) else e
  }

  function RetAddr(bb: Bb, jmp: nat): nat {
    if jmp < |bb.jmps| && bb.jmps[jmp].kind.Call? then bb.jmps[jmp].retAddr else 0
  }

  /** `push_call_stack` */
  function PushCall(c: Conf, s: State, from: Bbcc, jmp: nat, to: Bbcc, sp: nat, skip: bool): State {
    var frame := Frame(if skip then None else Some(Jcc(from, jmp, to)), CostOf(s), sp, RetAddr(from.bb, jmp),
                       s.cur.nonskipped, s.pend.cxt, s.pend.fnSp);
    var s1 := s.(frames := s.frames + [frame], pend := Pending(None, 0));
    if skip then
      s1.(cur := s.cur.(nonskipped := if s.cur.nonskipped.Some? then s.cur.nonskipped else Some(from)))
    else
      var active := Up(s.active, to.cxt.fn);
      s1.(active := active,
          cur := Toggle(c, s.cur, to.cxt.fn, Get(active, to.cxt.fn), 1).(nonskipped := None))
  }

  /** The part of `pop_call_stack` that removes an entry. */
  function PopFrame(c: Conf, s: State): (r: State)
    requires s.frames != []
    ensures |r.frames| == |s.frames| - 1 && |r.fns| <= |s.fns|
  {
    var f := Last(s.frames);
    var s1 := s.(frames := Front(s.frames), pend := Pending(None, f.fnSp), cur := s.cur.(nonskipped := f.nonskipped));
    match f.jcc
    case None => s1
    case Some(j) =>
      var fn := j.to.cxt.fn;
      var active := Down(s.active, fn);
      var sum := (if j in s.jccCost then s.jccCost[j] else 0) + CostOf(s) - f.enter;
      s1.(active := active, jccCost := s.jccCost[j := sum],
          fns := if f.fnSp < |s.fns| then s.fns[..f.fnSp + 1] else s.fns,
          cur := Toggle(c, s1.cur.(cxt := f.cxt), fn, Get(active, fn), 0))
  }

  // ---------------------------------------------------------------- signal handlers

  /** `exec_state_save` and `exec_state_restore` */
  function Save(s: State): State
    requires s.states != []
  {
    var e := Last(s.states);
    s.(states := Front(s.states) + [s.cur.(sig := e.sig, cost := e.cost, bottom := e.bottom)])
  }

  function Restore(s: State): State
    requires s.states != []
  {
    s.(cur := Last(s.states))
  }

  /** `pre_signal` */
  function PreSignal(c: Conf, s: State, sig: nat): State
    requires s.states != [] && s.fns != []
  {
    var e := Exec(sig, c.collectAtStart, None, 0, None, None, |s.states|, |s.frames|);
    PushCxt(Save(s).(states := Save(s).states + [e], costs := s.costs + [0], cur := e), 0, 0)
  }

  /** Unwinds the frames of the current handler. */
  function ToBottom(c: Conf, s: State): (r: State)
    requires s.states != []
    ensures r.states == s.states && |r.fns| <= |s.fns|
    ensures |r.frames| == if |s.frames| > Last(s.states).bottom then Last(s.states).bottom else |s.frames|
    decreases |s.frames|
  {
    if |s.frames| > Last(s.states).bottom then ToBottom(c, PopFrame(c, s)) else s
  }

  /** Takes what the handler has put on the function stack off again. */
  function DropFns(fns: seq<Fn>): (r: seq<Fn>)
    ensures |r| <= |fns|
  {
    var f1 := if |fns| > 1 && Last(fns) != 0 then Front(fns) else fns;
    if |f1| > 1 then Front(f1) else f1
  }

  /** `post_signal` */
  function PostSignal(c: Conf, s: State): (r: State)
    requires |s.states| > 1
    ensures r.states == Front(s.states) && |r.fns| <= |s.fns|
    ensures |r.frames| == if |s.frames| > Last(s.states).bottom then Last(s.states).bottom else |s.frames|
  {
    var u := ToBottom(c, s);
    Restore(u.(active := if u.cur.cxt.Some? then Down(u.active, u.cur.cxt.value.fn) else u.active,
               fns := DropFns(u.fns),
               sigCost := u.sigCost + CostOf(u),
               costs := if u.costs != [] then Front(u.costs) else [],
               states := Front(u.states)))
  }

  /** A pop at the bottom of a handler's part of the call stack first leaves the handler. */
  function LeaveAtBottom(c: Conf, s: State): (r: State)
    requires s.states != []
    ensures r.states != [] && |r.frames| == |s.frames| && |r.fns| <= |s.fns|
  {
    if s.cur.sig > 0 && |s.states| > 1 && |s.frames| == Last(s.states).bottom then PostSignal(c, s) else s
  }

  /** `pop_call_stack` */
  function Pop(c: Conf, s: State): (r: State)
    requires s.frames != [] && s.states != []
    ensures |r.frames| == |s.frames| - 1 && r.states != [] && |r.fns| <= |s.fns|
  {
    PopFrame(c, LeaveAtBottom(c, s))
  }

  predicate Passed(s: State, sp: nat, minpops: int) {
    s.frames != [] && (Last(s.frames).sp < sp || (Last(s.frames).sp == sp && minpops > 0))
  }

  /** `unwind_call_stack` */
  function Unwind(c: Conf, s: State, sp: nat, minpops: int): (r: State)
    requires s.states != []
    ensures |r.frames| <= |s.frames| && r.states != [] && |r.fns| <= |s.fns|
    decreases |s.frames|
  {
    if Passed(s, sp, minpops) then Unwind(c, Pop(c, s), sp, minpops - 1) else s
  }

  // ---------------------------------------------------------------- underflow

  /** What the hash tables of contexts and cost centres come up with: the block that a made-up call is
      attributed to, and the contexts of its caller, of its callee, and of a function entered. */
  datatype Found = Found(source: Bbcc, caller: nat, back: nat, entered: nat)

  /** `handleUnderflow`: a return from a function whose call was not seen.  A call of it by `caller` is
      made up. */
  function Underflow(c: Conf, s: State, caller: Fn, g: Found): (r: State)
    requires s.fns != [] && s.cur.bbcc.Some?
    ensures |r.frames| == |s.frames| + 1 && r.states == s.states
  {
    var bbcc := s.cur.bbcc.value;
    var s0 := s.(fns := if |s.fns| > 1 then Front(s.fns) else s.fns, cur := s.cur.(cxt := None));
    var s1 := PushCxt(s0, caller, g.caller);
    var s2 := s1.(active := Down(s1.active, bbcc.cxt.fn), cur := s1.cur.(nonskipped := None));
    var s3 := PushCall(c, PushCxt(s2, bbcc.cxt.fn, g.back), g.source, 0, bbcc, MAX_ADDR, false);
    SetEnter(s3, if s.cur.sig == 0 then s.lastDump else 0)
  }

  function SetEnter(s: State, enter: int): (r: State)
    requires s.frames != []
    ensures |r.frames| == |s.frames| && r.states == s.states
  {
    s.(frames := Front(s.frames) + [Last(s.frames).(enter := enter)])
  }

  // ---------------------------------------------------------------- a basic block starts

  /** How many frames a return to `addr` with an unchanged stack pointer leaves; 0 if none matches. */
  function PopCount(frames: seq<Frame>, sp: nat, addr: nat): nat {
    if frames == [] || Last(frames).sp != sp then 0
    else if Last(frames).retAddr == addr then 1
    else
      var n := PopCount(Front(frames), sp, addr);
      if n == 0 then 0 else n + 1
  }

  function LastKind(s: State): JumpKind {
    if s.cur.bbcc.None? then JNone
    else
      var jmps := s.cur.bbcc.value.bb.jmps;
      if s.cur.jmps < |jmps| then jmps[s.cur.jmps].kind else JNone
  }

  /** The frames that a return leaves at least; 0 if it does not match the call stack. */
  function ReturnPops(s: State, bb: Bb, sp: nat): nat {
    if s.frames == [] then 1
    else if sp < Last(s.frames).sp then 0
    else if Last(s.frames).sp == sp then PopCount(s.frames, sp, bb.addr)
    else 1
  }

  predicate FalseReturn(s: State, bb: Bb, sp: nat) {
    LastKind(s).Return? && ReturnPops(s, bb, sp) == 0
  }

  /** A jump into another section, object or function is taken for a call. */
  predicate Emulated(s: State, bb: Bb, sp: nat) {
    var k := LastKind(s);
    s.cur.bbcc.Some? && !k.Call? && (!k.Return? || FalseReturn(s, bb, sp))
    && (FalseReturn(s, bb, sp) || bb.isEntry
        || s.cur.bbcc.value.bb.sect != bb.sect || s.cur.bbcc.value.bb.obj != bb.obj)
  }

  predicate IsReturn(s: State, bb: Bb, sp: nat) {
    LastKind(s).Return? && !FalseReturn(s, bb, sp)
  }

  /** A return on an empty call stack, or right above a marker, has no call to match. */
  predicate NoCall(s: State) {
    s.frames == [] || (|s.fns| > 1 && s.fns[|s.fns| - 2] == 0)
  }

  /** Where a call comes from: the call's block, its jump, and the stack pointer. */
  datatype Origin = Origin(state: State, sp: nat, jmp: nat)

  /** `pop_on_jump`: a jump between functions replaces the current call. */
  function PopOnJump(c: Conf, s: State, bb: Bb, sp: nat): (r: Origin)
    requires s.states != []
    ensures r.state.states != [] && |r.state.frames| <= |s.frames| && |r.state.fns| <= |s.fns|
  {
    if Emulated(s, bb, sp) && s.cur.bbcc.value.bb.fn in c.popOnJump && s.frames != [] && Last(s.frames).jcc.Some? then
      var f := Last(s.frames);
      Origin(Pop(c, s.(cur := s.cur.(bbcc := Some(f.jcc.value.from)))), f.sp, f.jcc.value.jmp)
    else Origin(s, sp, s.cur.jmps)
  }

  /** The recursion level of a function, in 32 bits. */
  function RecLevel(s: State, called: bool): nat
    requires s.fns != []
  {
    var top := Last(s.fns);
    (Get(s.active, top) + if called then 1 else 0) % UINT
  }

  function Recursions(c: Conf, fn: Fn): nat { if fn in c.recursions then c.recursions[fn] else 2 }

  /** The cost centre for the recursion level.  A level of 0 is corrected to 1. */
  function Choose(c: Conf, s: State, bb: Bb, called: bool): (map<Fn, nat>, Bbcc)
    requires s.fns != [] && s.cur.cxt.Some?
  {
    var top, cxt := Last(s.fns), s.cur.cxt.value;
    var most, level := Recursions(c, top), RecLevel(s, called);
    if most <= 1 then (s.active, Bbcc(bb, cxt, 0))
    else if level == 0 then (s.active[top := 1], Bbcc(bb, cxt, 0))
    else (s.active, Bbcc(bb, cxt, (if level > most then most else level) - 1))
  }

  /** What the jump that led here does to the stacks, before the new context is set. */
  function Arrive(c: Conf, s: State, bb: Bb, sp: nat, g: Found): (r: State)
    requires s.fns != [] && s.states != []
    ensures r.states != []
  {
    if IsReturn(s, bb, sp) then
      if NoCall(s) then Pop(c, Underflow(c, s, bb.fn, g)) else Unwind(c, s, sp, ReturnPops(s, bb, sp))
    else
      var o := PopOnJump(c, s, bb, sp);
      Unwind(c, o.state, o.sp, 0)
  }

  /** A jump that leaves frames behind is no call. */
  predicate Calls(c: Conf, s: State, bb: Bb, sp: nat)
    requires s.states != []
  {
    (LastKind(s).Call? || Emulated(s, bb, sp))
    && (var o := PopOnJump(c, s, bb, sp); |Unwind(c, o.state, o.sp, 0).frames| == |o.state.frames|)
  }

  /** Pushes the call that led to `bbcc`.  One from a skipped function comes from the function that
      called that. */
  function Enter(c: Conf, s: State, o: Origin, sp: nat, bbcc: Bbcc, skip: bool): State {
    if !skip && s.cur.nonskipped.Some? then
      var from := s.cur.nonskipped.value;
      PushCall(c, s, from, if from.bb.jmps == [] then 0 else |from.bb.jmps| - 1, bbcc, sp, skip)
    else PushCall(c, s, if s.cur.bbcc.Some? then s.cur.bbcc.value else bbcc, o.jmp, bbcc, sp, skip)
  }

  /** The rest of `setup_bbcc`, from the context on. */
  function Settle(c: Conf, s: State, bb: Bb, calls: bool, skip: bool, o: Origin, sp: nat, id: nat): State
    requires s.fns != []
  {
    var s1 := if (calls && !skip) || s.cur.cxt.None? then PushCxt(s, bb.fn, id) else s;
    if s1.cur.cxt.None? then s1           // not in a state that keeps the invariant
    else
      var (active, bbcc) := Choose(c, s1, bb, calls && !skip);
      var s2 := s1.(active := active);
      Executing(if calls then Enter(c, s2, o, sp, bbcc, skip) else s2, bbcc)
  }

  function Executing(s: State, bbcc: Bbcc): State {
    s.(cur := s.cur.(bbcc := Some(bbcc), jmps := 0))
  }

  /** `setup_bbcc`: the block `bb` starts, with the stack pointer at `sp`. */
  function SetupBbcc(c: Conf, s: State, bb: Bb, sp: nat, g: Found): State
    requires s.fns != [] && s.states != []
  {
    var s1, o, calls := Arrive(c, s, bb, sp, g), PopOnJump(c, s, bb, sp), Calls(c, s, bb, sp);
    var sp' := if Emulated(s, bb, sp) && s1.frames != [] then Last(s1.frames).sp else o.sp;
    if s1.fns == [] then s1 else Settle(c, s1, bb, calls, bb.fn in c.skip, o, sp', g.entered)
  }

  // ---------------------------------------------------------------- runs

  datatype Op =
    | Block(bb: Bb, sp: nat, g: Found)       // a basic block starts
    | Leave(jmp: nat)                        // it is left by this jump
    | Spend(n: int)                          // it costs something
    | Signal(sig: nat)                       // a handler is entered
    | SigReturn                              // ... and left

  predicate Enabled(s: State, op: Op) {
    match op
    case Block(bb, _, _) => bb.fn != 0
    case Leave(jmp) => s.cur.bbcc.Some? && jmp < |s.cur.bbcc.value.bb.jmps|
    case Spend(_) => true
    case Signal(sig) => sig > 0 && |s.states| < MAX_SIGHANDLERS
    case SigReturn => |s.states| > 1
  }

  function Step(c: Conf, s: State, op: Op): State
    requires s.fns != [] && s.states != [] && Enabled(s, op)
  {
    match op
    case Block(bb, sp, g) => SetupBbcc(c, s, bb, sp, g)
    case Leave(jmp) => s.(cur := s.cur.(jmps := jmp))
    case Spend(n) => if s.cur.cost < |s.costs| then s.(costs := s.costs[s.cur.cost := s.costs[s.cur.cost] + n]) else s
    case Signal(sig) => PreSignal(c, s, sig)
    case SigReturn => PostSignal(c, s)
  }

  /** A new thread. */
  function Init(c: Conf): State {
    var e := Exec(0, c.collectAtStart, None, 0, None, None, 0, 0);
    State(e, [e], [], Pending(None, 0), [0], map[], [0], map[], 0, 0)
  }
}
