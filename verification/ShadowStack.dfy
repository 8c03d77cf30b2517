/**
 Callgrind's data of the current thread and the routines that change it in place.  Each
 does what the function of the same name in `ShadowModel` says; the source's assertions
 hold wherever the invariant does.

 Where the source leaves a field of a call entry stale that is not read again, 0 is written.
*/
module ShadowStack {
  import opened Common
  import opened ShadowModel
  import opened ShadowProof

  const N_CALL_STACK_INITIAL_ENTRIES := 500
  const N_FNSTACK_INITIAL_ENTRIES := 500
  const NO_ENTRY := Frame(None, 0, 0, 0, None, None, 0)
  const NO_STATE := Exec(0, false, None, 0, None, None, 0, 0)

  /** `size`, doubled until it is not below `i`. */
  function Doubled(size: nat, i: nat): (r: nat)
    requires size > 0
    ensures r >= size && r >= i
    decreases i - size
  {
    if i > size then Doubled(2 * size, i) else size
  }

  /** The size of the call stack that is made to have an entry `i`. */
  function Enlarged(size: nat, i: nat): nat
    requires size > 0
  {
    if i < size then size else Doubled(2 * size, i)
  }

  /** `i` is `size` times a power of two. */
  ghost predicate PowerTimes(size: nat, i: nat)
    requires size > 0
    decreases i - size
  {
    i == size || (i > size && PowerTimes(2 * size, i))
  }

  /** The loop stops one doubling too early for entries whose number is the size times 2, 4, 8 and so on, and makes
      room for all others. */
  lemma {:induction false} RoomExact(size: nat, i: nat)
    requires size > 0
    ensures i < Enlarged(size, i) <==> !PowerTimes(2 * size, i)
    decreases i - size
  {
    if i > 2 * size {
      RoomExact(2 * size, i);
    }
  }

  /** What removing an entry changes, field by field. */
  lemma PopFrameIs(c: Conf, s: State)
    requires s.frames != []
    ensures var f, r := Last(s.frames), PopFrame(c, s);
      var cur := s.cur.(nonskipped := f.nonskipped);
      var s1 := s.(frames := Front(s.frames), pend := Pending(None, f.fnSp), cur := cur);
      && CostOf(s1) == CostOf(s)
      && (f.jcc.None? ==> r == s1)
      && (f.jcc.Some? ==>
          var j, active := f.jcc.value, Down(s.active, f.jcc.value.to.cxt.fn);
          var cost := (if j in s.jccCost then s.jccCost[j] else 0) + CostOf(s) - f.enter;
          && CostOf(s1.(active := active)) == CostOf(s)
          && (f.fnSp < |s.fns| ==>
              r == s1.(active := active, jccCost := s.jccCost[j := cost], fns := s.fns[..f.fnSp + 1],
                       cur := Toggle(c, cur.(cxt := f.cxt), j.to.cxt.fn, Get(active, j.to.cxt.fn), 0))))
  {
  }

  class ClgThread {
    const c: Conf
    var cur: Exec
    const states: array<Exec>
    const costs: array<int>
    var statesSp: nat
    var entries: seq<Frame>
    var sp: nat
    var fnStack: seq<Fn>
    var top: nat
    var active: map<Fn, nat>
    var jccCost: map<Jcc, int>
    var sigCost: int
    var lastDump: int

    ghost predicate Valid()
      reads this`statesSp, this`entries, this`sp, this`fnStack, this`top
    {
      && states.Length == costs.Length == MAX_SIGHANDLERS && statesSp < MAX_SIGHANDLERS
      && sp < |entries| && top < |fnStack|
    }

    ghost function St(): State
      requires Valid()
      reads this, states, costs
    {
      State(cur, states[..statesSp + 1], entries[..sp], Pending(entries[sp].cxt, entries[sp].fnSp), fnStack[..top + 1],
            active, costs[..statesSp + 1], jccCost, sigCost, lastDump)
    }

    constructor (c: Conf)
      ensures Valid() && St() == Init(c) && this.c == c && fresh(states) && fresh(costs)
    {
      this.c := c;
      cur := Exec(0, c.collectAtStart, None, 0, None, None, 0, 0);
      states := new Exec[MAX_SIGHANDLERS](_ => NO_STATE);
      costs := new int[MAX_SIGHANDLERS](_ => 0);
      statesSp, sp, top, sigCost, lastDump := 0, 0, 0, 0, 0;
      entries := seq(N_CALL_STACK_INITIAL_ENTRIES, _ => NO_ENTRY);
      fnStack := seq(N_FNSTACK_INITIAL_ENTRIES, _ => 0);
      active, jccCost := map[], map[];
      new;
      states[0] := cur;
      assert states[..1] == [cur];
    }

    // -------------------------------------------------------------- single fields

    method SetCur(e: Exec)
      requires Valid()
      modifies this`cur
      ensures Valid() && cur == e && St() == old(St()).(cur := e)
    {
      cur := e;
    }

    method SetActive(a: map<Fn, nat>)
      requires Valid()
      modifies this`active
      ensures Valid() && active == a && St() == old(St()).(active := a)
    {
      active := a;
    }

    /** The context that the next call entry will keep. */
    method SetPend(cxt: Option<Cxt>, fnSp: nat)
      requires Valid()
      modifies this`entries
      ensures Valid() && |entries| == old(|entries|) && St() == old(St()).(pend := Pending(cxt, fnSp))
    {
      ghost var was := entries;
      entries := entries[sp := entries[sp].(cxt := cxt, fnSp := fnSp)];
      assert entries[..sp] == was[..sp];
    }

    method AddJccCost(j: Jcc, n: int)
      requires Valid()
      modifies this`jccCost
      ensures Valid()
      ensures var m := old(St()).jccCost; St() == old(St()).(jccCost := m[j := (if j in m then m[j] else 0) + n])
    {
      jccCost := jccCost[j := (if j in jccCost then jccCost[j] else 0) + n];
    }

    /** The fields that are read directly. */
    lemma Fields()
      requires Valid()
      ensures var s := St(); s.cur == cur && s.active == active && CostOf(s) == CurrentCost() && s.states != [] && s.fns != []
      ensures |St().frames| == sp && |St().fns| == top + 1 && |St().states| == statesSp + 1 && St().lastDump == lastDump
      ensures St().pend == Pending(entries[sp].cxt, entries[sp].fnSp) && Last(St().fns) == fnStack[top]
    {
    }

    function CurrentCost(): int
      requires Valid()
      reads this, costs
    {
      if cur.cost <= statesSp then costs[cur.cost] else 0
    }

    // -------------------------------------------------------------- contexts

    /** Pushes a function, or a marker, on the function stack, which is doubled if it is full. */
    method PushFn(fn: Fn)
      requires Valid()
      modifies this`fnStack, this`top
      ensures Valid() && St() == old(St()).(fns := old(St()).fns + [fn])
    {
      ghost var fns := fnStack[..top + 1];
      if top == |fnStack| - 1 {
        fnStack := fnStack + seq(|fnStack|, _ => 0);
      }
      top := top + 1;
      fnStack := fnStack[top := fn];
      assert fnStack[..top + 1] == fns + [fn];
    }

    method SetTop(n: nat)
      requires Valid() && n <= top
      modifies this`top
      ensures Valid() && St() == old(St()).(fns := old(St()).fns[..n + 1])
    {
      ghost var fns := fnStack[..top + 1];
      top := n;
      assert fnStack[..top + 1] == fns[..top + 1];
    }

    /** `push_cxt` */
    method PushCxt(fn: Fn, id: nat)
      requires Valid() && entries[sp].cxt.None?
      modifies this`entries, this`fnStack, this`top, this`active, this`cur
      ensures Valid() && St() == ShadowModel.PushCxt(old(St()), fn, id) && |entries| == old(|entries|)
    {
      hide ClgThread.St;
      Fields();
      SetPend(cur.cxt, top);
      if fn != 0 && fnStack[top] == fn {
        return;
      }
      if fn != 0 && fnStack[top] == 0 {
        SetActive(Up(active, fn));
      }
      PushFn(fn);
      Fields();
      SetCur(cur.(cxt := if fn == 0 then None else Some(Cxt(fn, id))));
    }

    // -------------------------------------------------------------- calls

    /** `ensure_stack_size`.  It is called with the entry after the one in use, for which there is room afterwards; see
        `RoomExact` for other entries. */
    method EnsureStackSize(i: nat)
      requires Valid()
      modifies this`entries
      ensures Valid() && St() == old(St()) && |entries| == Enlarged(old(|entries|), i) >= old(|entries|)
      ensures entries[..old(|entries|)] == old(entries) && (i <= old(|entries|) ==> i < |entries|)
    {
      if i < |entries| {
        return;
      }
      ghost var was := entries;
      var size := 2 * |entries|;
      while i > size
        invariant size > 0 && size >= 2 * |entries| && Doubled(size, i) == Doubled(2 * |entries|, i)
        decreases i - size
      {
        size := 2 * size;
      }
      entries := entries + seq(size - |entries|, _ => NO_ENTRY);
      assert entries[..sp] == was[..sp];
    }

    /** `push_call_stack` */
    method PushCallStack(from: Bbcc, jmp: nat, to: Bbcc, addr: nat, skip: bool)
      requires Valid()
      requires !skip ==> entries[sp].cxt.Some?
      requires !skip && cur.nonskipped.Some? ==> cur.nonskipped.value == from
      modifies this`entries, this`sp, this`active, this`cur
      ensures Valid() && sp == old(sp) + 1 && St() == PushCall(c, old(St()), from, jmp, to, addr, skip)
    {
      hide ClgThread.St, CurrentCost, Up, Get, RetAddr;
      EnsureStackSize(sp + 1);
      Fields();
      var jcc := None;
      if !skip {
        var fn := to.cxt.fn;
        jcc := Some(Jcc(from, jmp, to));
        SetActive(Up(active, fn));
        Fields();
        SetCur(Toggle(c, cur, fn, Get(active, fn), 1));
        Fields();
      }
      var entry := entries[sp];
      PutEntry(Frame(jcc, CurrentCost(), addr, RetAddr(from.bb, jmp), cur.nonskipped, entry.cxt, entry.fnSp));
      Fields();
      if !skip {
        SetCur(cur.(nonskipped := None));
      } else if cur.nonskipped.None? {
        SetCur(cur.(nonskipped := Some(from)));
      }
    }

    /** Fills in the entry at the stack pointer and clears the context of the next. */
    method PutEntry(f: Frame)
      requires Valid() && sp + 1 < |entries|
      modifies this`entries, this`sp
      ensures Valid() && sp == old(sp) + 1
      ensures St() == old(St()).(frames := old(St()).frames + [f], pend := Pending(None, 0))
    {
      ghost var was := entries;
      entries := entries[sp := f];
      sp := sp + 1;
      entries := entries[sp := entries[sp].(cxt := None, fnSp := 0)];
      assert entries[..sp] == was[..sp - 1] + [f];
    }

    /** Takes the entry below the stack pointer off and clears its context. */
    method TakeEntry() returns (lower: Frame)
      requires Valid() && sp > 0
      modifies this`entries, this`sp
      ensures Valid() && lower == Last(old(St()).frames) == old(entries[sp - 1])
      ensures St() == old(St()).(frames := Front(old(St()).frames), pend := Pending(None, lower.fnSp))
    {
      ghost var was := entries;
      lower := entries[sp - 1];
      entries := entries[sp - 1 := lower.(cxt := None)];
      sp := sp - 1;
      assert entries[..sp] == was[..sp];
    }

    /** `pop_call_stack`, without the check for the end of a handler. */
    method DropEntry()
      requires Valid() && sp > 0
      requires entries[sp - 1].jcc.Some? ==> entries[sp - 1].fnSp <= top
      modifies this`entries, this`sp, this`active, this`cur, this`top, this`jccCost
      ensures Valid() && St() == PopFrame(c, old(St()))
    {
      hide *;
      Fields();
      PopFrameIs(c, St());
      var lower := TakeEntry();
      Fields();
      SetCur(cur.(nonskipped := lower.nonskipped));
      if lower.jcc.Some? {
        EndCall(lower, lower.jcc.value);
      }
    }

    /** The end of the call `j`, kept in the entry `lower`. */
    method EndCall(lower: Frame, j: Jcc)
      requires Valid() && lower.fnSp <= top
      modifies this`active, this`cur, this`top, this`jccCost
      ensures var s, fn := old(St()), j.to.cxt.fn; var active := Down(s.active, fn);
        var cost := (if j in s.jccCost then s.jccCost[j] else 0) + CostOf(s.(active := active)) - lower.enter;
        Valid() && lower.fnSp < |s.fns|
        && St() == s.(active := active, jccCost := s.jccCost[j := cost], fns := s.fns[..lower.fnSp + 1],
                      cur := Toggle(c, s.cur.(cxt := lower.cxt), fn, Get(active, fn), 0))
    {
      hide *;
      Fields();
      var fn := j.to.cxt.fn;
      SetActive(Down(active, fn));
      Fields();
      AddJccCost(j, CurrentCost() - lower.enter);
      SetTop(lower.fnSp);
      Fields();
      SetCur(Toggle(c, cur.(cxt := lower.cxt), fn, Get(active, fn), 0));
    }

    // -------------------------------------------------------------- signal handlers

    /** `exec_state_save`; the top entry keeps its signal, cost array and bottom. */
    method ExecStateSave()
      requires Valid() && cur.cost == states[statesSp].cost && cur.sig == states[statesSp].sig
      modifies states
      ensures Valid() && St() == Save(old(St()))
    {
      ghost var was := states[..statesSp + 1];
      states[statesSp] := cur.(bottom := states[statesSp].bottom);
      assert states[..statesSp + 1] == Front(was) + [states[statesSp]];
    }

    method PushExecState(sig: nat)
      requires Valid() && statesSp + 1 < MAX_SIGHANDLERS && sig > 0
      modifies this`statesSp, this`cur, states, costs
      ensures Valid()
      ensures var s, e := old(St()), Exec(sig, c.collectAtStart, None, 0, None, None, |old(St()).states|, |old(St()).frames|);
        St() == s.(states := s.states + [e], costs := s.costs + [0], cur := e)
    {
      ghost var s := St();
      statesSp := statesSp + 1;
      states[statesSp] := Exec(sig, c.collectAtStart, None, 0, None, None, statesSp, sp);
      costs[statesSp] := 0;
      cur := states[statesSp];
      assert states[..statesSp + 1] == s.states + [cur] && costs[..statesSp + 1] == s.costs + [0];
    }

    /** `pre_signal` */
    method PreSignal(sig: nat)
      requires Valid() && Inv(St(), false) && Enabled(St(), Signal(sig))
      modifies this, states, costs
      ensures Valid() && St() == ShadowModel.PreSignal(c, old(St()), sig)
    {
      ghost var s := St();
      TopState();
      ExecStateSave();
      PushExecState(sig);
      PushCxt(0, 0);
    }

    /** What the invariant says of the current state. */
    lemma TopState()
      requires Valid() && Inv(St(), false)
      ensures cur.cost == states[statesSp].cost && cur.sig == states[statesSp].sig && entries[sp].cxt.None?
      ensures statesSp == |St().states| - 1 && (cur.sig > 0 <==> statesSp > 0)
      ensures states[statesSp].bottom <= sp
    {
      assert St().states[statesSp] == states[statesSp];
      TopPart(St(), false);
    }

    /** Above the bottom of its part, an entry can be dropped. */
    lemma CanDrop()
      requires Valid() && Inv(St(), false) && sp > states[statesSp].bottom
      ensures entries[sp - 1].jcc.Some? ==> entries[sp - 1].fnSp <= top
    {
      assert St().states[statesSp] == states[statesSp];
      assert Last(St().frames) == entries[sp - 1];
      if entries[sp - 1].jcc.Some? {
        PopFrameFns(St(), false);
      }
    }

    /** The loop of `post_signal`: unwinds the frames of the handler. */
    method UnwindHandler()
      requires Valid() && Inv(St(), false)
      modifies this`entries, this`sp, this`active, this`cur, this`top, this`jccCost
      ensures Valid() && St() == ToBottom(c, old(St()))
    {
      ghost var s := St();
      TopState();
      while sp > states[statesSp].bottom
        invariant Valid() && Inv(St(), false) && ToBottom(c, St()) == ToBottom(c, s)
        decreases sp
      {
        assert Last(St().states) == states[statesSp];
        InvPopFrame(c, St(), false);
        CanDrop();
        DropEntry();
      }
      assert Last(St().states) == states[statesSp];
    }

    /** Sets the function stack back below the handler's marker.  Nothing may have been executed yet. */
    method LowerTop()
      requires Valid()
      modifies this`top
      ensures Valid() && St() == old(St()).(fns := DropFns(old(St()).fns))
    {
      ghost var fns := fnStack[..top + 1];
      if top > 0 {
        if fnStack[top] != 0 {
          top := top - 1;
        }
        if top > 0 {
          top := top - 1;
        }
      }
      assert fnStack[..top + 1] == DropFns(fns);
    }

    /** The rest of `post_signal`: the handler's function and marker, its costs and its state go. */
    method LeaveHandler()
      requires Valid() && statesSp > 0
      modifies this`active, this`top, this`sigCost, this`statesSp, this`cur
      ensures Valid()
      ensures var u := old(St());
        St() == Restore(u.(active := if u.cur.cxt.Some? then Down(u.active, u.cur.cxt.value.fn) else u.active,
                           fns := DropFns(u.fns), sigCost := u.sigCost + CostOf(u), costs := Front(u.costs),
                           states := Front(u.states)))
    {
      hide ClgThread.St, CurrentCost;
      Fields();
      if cur.cxt.Some? {
        SetActive(Down(active, cur.cxt.value.fn));
      }
      LowerTop();
      Fields();
      AddSigCost(CurrentCost());
      DropState();
      ExecStateRestore();
    }

    method AddSigCost(n: int)
      requires Valid()
      modifies this`sigCost
      ensures Valid() && St() == old(St()).(sigCost := old(St()).sigCost + n)
    {
      sigCost := sigCost + n;
    }

    /** `exec_state_restore` */
    method ExecStateRestore()
      requires Valid()
      modifies this`cur
      ensures Valid() && St().states != [] && St() == Restore(old(St()))
    {
      cur := states[statesSp];
    }

    method DropState()
      requires Valid() && statesSp > 0
      modifies this`statesSp
      ensures Valid() && statesSp == old(statesSp) - 1
      ensures var u := old(St()); St() == u.(states := Front(u.states), costs := Front(u.costs))
    {
      ghost var u := St();
      statesSp := statesSp - 1;
      assert states[..statesSp + 1] == Front(u.states) && costs[..statesSp + 1] == Front(u.costs);
    }

    /** `post_signal` */
    method PostSignal()
      requires Valid() && Inv(St(), false) && statesSp > 0
      modifies this
      ensures Valid() && St() == ShadowModel.PostSignal(c, old(St())) && Inv(St(), false)
    {
      hide ToBottom, PartsOk;
      ghost var s := St();
      InvToBottom(c, s, false);
      InvPostSignal(c, s, false);
      UnwindHandler();
      LeaveHandler();
    }

    /** `pop_call_stack`.  The assertion in it holds for every call; the invariant may only be lost by a pop that reaches
        through two handlers, and even then all calls can be popped. */
    method PopCallStack()
      requires Valid() && Poppable(St()) && sp > 0
      modifies this
      ensures Valid() && St() == Pop(c, old(St())) && Poppable(St())
      ensures old(entries[sp - 1].jcc.Some?) ==> cur.cxt.Some?
      ensures old(Inv(St(), false) && PopOk(St())) ==> Inv(St(), false) && cur.cxt.Some?
    {
      hide *;
      ghost var s := St();
      PopFacts();
      if cur.sig > 0 && sp == states[statesSp].bottom {
        PostSignal();
      }
      assert St() == LeaveAtBottom(c, s);
      Fields();
      TopFrame();
      DropEntry();
      assert St() == Pop(c, s) by { PopIs(s); }
      Fields();
    }

    lemma PopIs(s: State)
      requires s.states != [] && s.frames != []
      ensures Pop(c, s) == PopFrame(c, LeaveAtBottom(c, s))
    {
      hide LeaveAtBottom, PopFrame;
    }

    lemma CanPop()
      requires Valid() && Inv(St(), false) && PopOk(St())
      ensures Poppable(St()) && sp > 0
    {
      hide PartsOk;
    }

    lemma TopFrame()
      requires Valid() && sp > 0
      ensures St().frames != [] && Last(St().frames) == entries[sp - 1]
    {
    }

    /** What a pop needs, and when the handler is left. */
    lemma PopFacts()
      requires Valid() && Poppable(St()) && sp > 0
      ensures var s, leaves := St(), cur.sig > 0 && sp == states[statesSp].bottom;
        && statesSp < states.Length && s.states != [] && s.frames != [] && Last(s.frames) == entries[sp - 1] && Poppable(Pop(c, s))
        && (leaves ==> Inv(s, false) && statesSp > 0 && LeaveAtBottom(c, s) == ShadowModel.PostSignal(c, s))
        && (!leaves ==> LeaveAtBottom(c, s) == s)
        && LeaveAtBottom(c, s).frames == s.frames
        && (Last(s.frames).jcc.Some? ==> Last(s.frames).fnSp < |LeaveAtBottom(c, s).fns| && Pop(c, s).cur.cxt.Some?)
        && (Inv(s, false) && PopOk(s) ==> Inv(Pop(c, s), false) && Pop(c, s).cur.cxt.Some?)
    {
      hide PartsOk, Stacked, Pop, ShadowModel.PostSignal;
      ghost var s := St();
      PopAny(c, s);
      assert Last(s.states) == states[statesSp] && Last(s.frames) == entries[sp - 1];
      if Inv(s, false) {
        TopState();
        InvPop(c, s, false);
      }
    }

    /** `unwind_call_stack` */
    method UnwindCallStack(addr: nat, minpops: nat) returns (count: nat)
      requires Valid() && Poppable(St())
      modifies this
      ensures Valid() && St() == Unwind(c, old(St()), addr, minpops) && Poppable(St())
      ensures old(Inv(St(), false) && UnwindOk(c, St(), addr, minpops)) ==> Inv(St(), false)
      ensures count == old(sp) - sp
    {
      hide Pop, Inv, Poppable;
      ghost var s := St();
      ghost var ok := Inv(s, false) && UnwindOk(c, s, addr, minpops);
      count := 0;
      var pops: int := minpops;
      while sp > 0 && (entries[sp - 1].sp < addr || (entries[sp - 1].sp == addr && pops > 0))
        invariant Valid() && Poppable(St()) && (ok ==> Inv(St(), false) && UnwindOk(c, St(), addr, pops))
        invariant Unwind(c, St(), addr, pops) == Unwind(c, s, addr, minpops) && count == old(sp) - sp
        decreases sp
      {
        assert Last(St().frames) == entries[sp - 1];
        assert Passed(St(), addr, pops);
        pops := pops - 1;
        count := count + 1;
        PopCallStack();
      }
      assert !Passed(St(), addr, pops);
    }

    // -------------------------------------------------------------- underflow

    /** Forces a new top context. */
    method ReplaceTop(caller: Fn, id: nat)
      requires Valid() && top > 0 && fnStack[top - 1] == 0 && caller != 0 && entries[sp].cxt.None?
      modifies this`entries, this`fnStack, this`top, this`active, this`cur
      ensures Valid() && cur == old(cur).(cxt := Some(Cxt(caller, id))) && entries[sp].cxt.None?
      ensures var s := old(St()); St() == ShadowModel.PushCxt(s.(fns := Front(s.fns), cur := s.cur.(cxt := None)), caller, id)
    {
      hide ClgThread.St;
      Fields();
      SecondFn();
      SetTop(top - 1);
      SetCur(cur.(cxt := None));
      Fields();
      PushCxt(caller, id);
      Fields();
    }

    lemma SecondFn()
      requires Valid() && top > 0
      ensures St().fns[top - 1] == fnStack[top - 1]
    {
    }

    lemma TopFn()
      requires Valid()
      ensures Last(St().fns) == fnStack[top]
    {
    }

    /** Made-up calls belong to the handler that is running. */
    lemma SameHandler(s: State, fn: Fn, id: nat, from: Bbcc, to: Bbcc)
      requires s.fns != [] && s.cur.cxt.Some?
      ensures PushCall(c, ShadowModel.PushCxt(s, fn, id), from, 0, to, MAX_ADDR, false).cur.sig == s.cur.sig
    {
    }

    /** `handleUnderflow` */
    method HandleUnderflow(bb: Bb, g: Found)
      requires Valid() && QInv(St(), false) && NoCall(St()) && cur.bbcc.Some? && bb.fn != 0
      modifies this
      ensures Valid() && St() == Underflow(c, old(St()), bb.fn, g)
    {
      hide PartsOk, ClgThread.St, PushCall, ShadowModel.PushCxt, SetEnter, Down;
      ghost var s := St();
      TopState();
      Fields();
      NoCallTop(s, false);
      TopIs();
      SecondFn();
      ReplaceTop(bb.fn, g.caller);
      var bbcc := cur.bbcc.value;
      Fields();
      SetActive(Down(active, bbcc.cxt.fn));
      SetCur(cur.(nonskipped := None));
      CallBack(g.source, bbcc, g.back);
      Fields();
      SetEnterCost(if cur.sig == 0 then lastDump else 0);
    }

    /** The made-up call of the function that is returning. */
    method CallBack(source: Bbcc, bbcc: Bbcc, id: nat)
      requires Valid() && cur.cxt.Some? && cur.nonskipped.None? && entries[sp].cxt.None?
      modifies this`entries, this`sp, this`fnStack, this`top, this`active, this`cur
      ensures Valid() && sp > 0 && cur.sig == old(cur.sig)
      ensures St() == PushCall(c, ShadowModel.PushCxt(old(St()), bbcc.cxt.fn, id), source, 0, bbcc, MAX_ADDR, false)
    {
      hide ClgThread.St, PushCall;
      Fields();
      SameHandler(St(), bbcc.cxt.fn, id, source, bbcc);
      PushCxt(bbcc.cxt.fn, id);
      Fields();
      assert entries[sp].cxt.Some?;
      PushCallStack(source, 0, bbcc, MAX_ADDR, false);
      Fields();
    }

    method SetEnterCost(enter: int)
      requires Valid() && sp > 0
      modifies this`entries
      ensures Valid() && St() == SetEnter(old(St()), enter)
    {
      ghost var s := St();
      entries := entries[sp - 1 := entries[sp - 1].(enter := enter)];
      assert entries[..sp] == Front(s.frames) + [entries[sp - 1]];
    }

    // -------------------------------------------------------------- a basic block starts

    /** The search for frames left by a return that keeps the stack pointer. */
    method CountPops(bb: Bb, addr: nat) returns (popcount: nat)
      requires Valid() && sp > 0 && entries[sp - 1].sp == addr
      ensures popcount == PopCount(St().frames, addr, bb.addr)
    {
      ghost var frames := St().frames;
      popcount := 1;
      var up: nat := sp - 1;
      assert frames[..sp] == frames;
      while entries[up].retAddr != bb.addr
        invariant up < sp && entries[up].sp == addr && popcount > 0
        invariant var n := PopCount(frames[..up + 1], addr, bb.addr);
          PopCount(frames, addr, bb.addr) == if n == 0 then 0 else n + popcount - 1
        decreases up
      {
        assert Front(frames[..up + 1]) == frames[..up];
        if up > 0 && entries[up - 1].sp == addr {
          up := up - 1;
          popcount := popcount + 1;
        } else {
          popcount := 0;
          return;
        }
      }
    }

    /** What the jump that led here is taken for. */
    method Classify(bb: Bb, addr: nat) returns (isReturn: bool, emulated: bool, pops: nat)
      requires Valid()
      ensures isReturn == IsReturn(St(), bb, addr) && emulated == Emulated(St(), bb, addr)
      ensures isReturn ==> pops == ReturnPops(St(), bb, addr)
    {
      var kind := JNone;
      pops := 1;
      isReturn, emulated := false, false;
      if cur.bbcc.None? {
        return;
      }
      var last := cur.bbcc.value.bb;
      if cur.jmps < |last.jmps| {
        kind := last.jmps[cur.jmps].kind;
      }
      var falseReturn := false;
      if kind.Return? && sp > 0 {
        assert Last(St().frames) == entries[sp - 1];
        if addr < entries[sp - 1].sp {
          pops := 0;
        } else if entries[sp - 1].sp == addr {
          pops := CountPops(bb, addr);
        }
        falseReturn := pops == 0;
      }
      isReturn := kind.Return? && !falseReturn;
      if !isReturn && !kind.Call? {
        emulated := falseReturn || bb.isEntry || last.sect != bb.sect || last.obj != bb.obj;
      }
    }

    method PopOnJump(bb: Bb, addr: nat, emulated: bool) returns (from: nat, jmp: nat)
      requires Valid() && QInv(St(), false) && emulated == Emulated(St(), bb, addr)
      requires ShadowModel.PopOnJump(c, St(), bb, addr).state != St() ==> PopOk(St())
      modifies this
      ensures Valid() && Inv(St(), false)
      ensures var o := ShadowModel.PopOnJump(c, old(St()), bb, addr); St() == o.state && from == o.sp && jmp == o.jmp
    {
      hide PartsOk, Pop;
      ghost var s := St();
      from, jmp := addr, cur.jmps;
      if emulated && cur.bbcc.value.bb.fn in c.popOnJump && sp > 0 {
        var ce := entries[sp - 1];
        assert Last(s.frames) == ce;
        if ce.jcc.Some? {
          CxtOfBbcc(s);
          PopIgnoresBbcc(c, s, Some(ce.jcc.value.from), false);
          cur := cur.(bbcc := Some(ce.jcc.value.from));
          from, jmp := ce.sp, ce.jcc.value.jmp;
          assert |Pop(c, St()).frames| != |s.frames|;
          PopCallStack();
        }
      }
    }

    /** What the jump does to the stacks; `calls` if it is a call. */
    method Arrive(bb: Bb, addr: nat, g: Found) returns (calls: bool, from: nat, jmp: nat)
      requires Valid() && QInv(St(), false) && bb.fn != 0 && ArriveOk(c, St(), bb, addr, false)
      modifies this
      ensures Valid() && Inv(St(), false) && St() == ShadowModel.Arrive(c, old(St()), bb, addr, g)
      ensures calls == Calls(c, old(St()), bb, addr) && (calls ==> St().cur.cxt.Some?)
      ensures calls ==> jmp == ShadowModel.PopOnJump(c, old(St()), bb, addr).jmp
      ensures calls ==> from == CallSp(old(St()), St(), bb, addr, ShadowModel.PopOnJump(c, old(St()), bb, addr).sp)
    {
      hide ClgThread.St, PartsOk, Pop, Underflow, Unwind, PopOk;
      ghost var s := St();
      Fields();
      InvArrive(c, s, bb, addr, g, false);
      var isReturn, emulated, pops := Classify(bb, addr);
      calls, from, jmp := false, addr, 0;
      if isReturn {
        TopIs();
        if sp == 0 || (top > 0 && fnStack[top - 1] == 0) {
          HandleUnderflow(bb, g);
          AfterUnderflow(c, s, bb.fn, g);
          CanPop();
          PopCallStack();
        } else {
          var _ := UnwindCallStack(addr, pops);
        }
      } else {
        var call := emulated;
        if cur.bbcc.Some? && cur.jmps < |cur.bbcc.value.bb.jmps| && cur.bbcc.value.bb.jmps[cur.jmps].kind.Call? {
          call := true;
        }
        from, jmp := PopOnJump(bb, addr, emulated);
        Fields();
        var count := UnwindCallStack(from, 0);
        Fields();
        calls := call && count == 0;
        if emulated && sp > 0 {
          from := entries[sp - 1].sp;
          LastIs();
        }
      }
    }

    lemma LastIs()
      requires Valid() && sp > 0
      ensures St().frames != [] && Last(St().frames) == entries[sp - 1]
    {
    }

    lemma TopIs()
      requires Valid()
      ensures NoCall(St()) <==> sp == 0 || (top > 0 && fnStack[top - 1] == 0)
    {
    }

    /** The cost centre for the block. */
    method ChooseBbcc(bb: Bb, called: bool) returns (bbcc: Bbcc)
      requires Valid() && cur.cxt.Some?
      modifies this`active
      ensures Valid() && (St().active, bbcc) == Choose(c, old(St()), bb, called)
      ensures St() == old(St()).(active := St().active)
    {
      var fn, rec := fnStack[top], 0;
      TopFn();
      var most := Recursions(c, fn);
      if most > 1 {
        var level := Get(active, fn) % UINT;
        if called {
          level := (level + 1) % UINT;
        }
        if level > most {
          level := most;
        }
        if level == 0 {
          level := 1;
          active := active[fn := 1];
        }
        rec := level - 1;
      }
      bbcc := Bbcc(bb, cur.cxt.value, rec);
    }

    method EnterBlock(from: nat, jmp: nat, bbcc: Bbcc, skip: bool)
      requires Valid() && (!skip ==> entries[sp].cxt.Some?)
      modifies this`entries, this`sp, this`active, this`cur
      ensures Valid() && forall s :: St() == Enter(c, old(St()), Origin(s, from, jmp), from, bbcc, skip)
    {
      Fields();
      if !skip && cur.nonskipped.Some? {
        // a call from skipped to nonskipped
        var b := cur.nonskipped.value;
        PushCallStack(b, if b.bb.jmps == [] then 0 else |b.bb.jmps| - 1, bbcc, from, skip);
      } else {
        PushCallStack(if cur.bbcc.Some? then cur.bbcc.value else bbcc, jmp, bbcc, from, skip);
      }
    }

    /** The rest of `setup_bbcc`, from the context on. */
    method Settle(bb: Bb, calls: bool, skip: bool, from: nat, jmp: nat, id: nat)
      requires Valid() && Inv(St(), false) && bb.fn != 0 && (calls ==> cur.cxt.Some?)
      modifies this
      ensures Valid() && forall s :: St() == ShadowModel.Settle(c, old(St()), bb, calls, skip, Origin(s, from, jmp), from, id)
    {
      hide ClgThread.St, PartsOk, Enter, Choose;
      ghost var s := St();
      Fields();
      TopState();
      if (calls && !skip) || cur.cxt.None? {
        LastNot(s, bb.fn);
        PushCxt(bb.fn, id);
        Fields();
      }
      var bbcc := ChooseBbcc(bb, calls && !skip);
      Fields();
      if calls {
        EnterBlock(from, jmp, bbcc, skip);
      }
      Fields();
      SetCur(cur.(bbcc := Some(bbcc), jmps := 0));
    }

    /** `setup_bbcc` */
    method SetupBbcc(bb: Bb, addr: nat, g: Found)
      requires Valid() && QInv(St(), false) && bb.fn != 0 && ArriveOk(c, St(), bb, addr, false)
      modifies this
      ensures Valid() && St() == ShadowModel.SetupBbcc(c, old(St()), bb, addr, g)
    {
      hide ClgThread.St, PartsOk, ShadowModel.Arrive, ShadowModel.Settle, ArriveOk;
      ghost var s := St();
      var calls, from, jmp := Arrive(bb, addr, g);
      Fields();
      ghost var s1 := St();
      Settle(bb, calls, bb.fn in c.skip, from, jmp, g.entered);
      SettleIgnores(c, s1, bb, calls, bb.fn in c.skip, Origin(s, from, jmp), from,
                    ShadowModel.PopOnJump(c, s, bb, addr), CallSp(s, s1, bb, addr, ShadowModel.PopOnJump(c, s, bb, addr).sp),
                    g.entered);
    }
  }

  /** The stack pointer of a call: an emulated one gets that of the frame it is called from. */
  function CallSp(s: State, s1: State, bb: Bb, addr: nat, sp: nat): nat {
    if Emulated(s, bb, addr) && s1.frames != [] then Last(s1.frames).sp else sp
  }

  lemma CxtOfBbcc(s: State)
    requires Inv(s, false) && s.cur.bbcc.Some?
    ensures s.cur.cxt.Some?
  {
  }

  /** In a thread that has executed nothing, no function is on top. */
  lemma LastNot(s: State, fn: Fn)
    requires Inv(s, false) && fn != 0
    ensures s.cur.cxt.None? ==> Last(s.fns) != fn
  {
  }

  /** Of the origin of a call only its jump matters, and only if there is a call. */
  lemma SettleIgnores(c: Conf, s: State, bb: Bb, calls: bool, skip: bool, o: Origin, sp: nat, o2: Origin, sp2: nat, id: nat)
    requires s.fns != [] && (calls ==> o.jmp == o2.jmp && sp == sp2)
    ensures Settle(c, s, bb, calls, skip, o, sp, id) == Settle(c, s, bb, calls, skip, o2, sp2, id)
  {
  }
}
