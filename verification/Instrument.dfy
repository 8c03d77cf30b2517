/**
 The instrumentation pass itself (`cg_main.c`): a bounded queue of outstanding events,
 flushed as a batch of merged helper calls.
*/
module Instrument {
  import opened Common
  import opened CacheSim
  import opened InstrumentModel
  import opened InstrumentRef

  /** The events outstanding: those of data only with cache simulation, fast-path fetches only where
      allowed, and each data event of the instruction whose fetch comes before it. */
  ghost predicate QueueOk(s: Sim, info: seq<InstrInfo>, q: seq<Event>)
    requires s.Ok()
  {
    && (forall i :: 0 <= i < |q| ==>
          && q[i].inode < |info|
          && (q[i].IrNoX? ==> s.NoX(info[q[i].inode]))
          && (q[i].IsData() ==> s.cacheSim))
    && (forall i :: 0 <= i < |q| - 1 && q[i].IrNoX? && q[i + 1].IsData() ==> q[i].inode == q[i + 1].inode)
  }

  /** A fetch at the end of the queue is that of the current instruction. */
  ghost predicate Current(info: seq<InstrInfo>, q: seq<Event>) {
    q != [] && q[|q| - 1].IrNoX? ==> q[|q| - 1].inode == |info| - 1
  }

  /** The last event is a read that a following write may turn into a modify. */
  predicate Open(q: seq<Event>) {
    q != [] && q[|q| - 1].Dr?
  }

  lemma NothingMore(a: seq<Action>)
    ensures a + [] == a
  {
  }

  lemma MicrosOne(q: seq<Event>, e: Event)
    ensures Micros(q + [e]) == Micros(q) + Micro(e)
  {
    assert (q + [e])[..|q|] == q;
  }

  lemma MicrosStep(q: seq<Event>, i: nat)
    requires i < |q|
    ensures Micros(q[..i + 1]) == Micros(q[..i]) + Micro(q[i])
  {
    assert q[..i + 1] == q[..i] + [q[i]];
    MicrosOne(q[..i], q[i]);
  }

  lemma MicroPair(before: seq<Action>, e: Event, e2: Event)
    ensures before + Micro(e) + Micro(e2) == before + (Micro(e) + Micro(e2))
  {
  }

  lemma MicroTriple(before: seq<Action>, n: nat, n2: nat, n3: nat)
    ensures before + [AIr(n)] + [AIr(n2)] == before + [AIr(n), AIr(n2)]
    ensures before + [AIr(n)] + [AIr(n2)] + [AIr(n3)] == before + [AIr(n), AIr(n2), AIr(n3)]
  {
  }

  lemma ActsOne(ins: seq<OutStmt>, h: Helper)
    ensures Acts(ins + [Insert(h)]) == Acts(ins) + Expand(h)
  {
    assert (ins + [Insert(h)])[..|ins|] == ins;
  }

  lemma InsertedTwo(out: seq<OutStmt>, a: seq<OutStmt>, b: seq<OutStmt>)
    requires AllInserted(a) && AllInserted(b)
    ensures out + a + b == out + (a + b) && AllInserted(a + b)
  {
  }

  /** What was outstanding plus what is posted is what has been emitted plus what is now outstanding. */
  lemma Posted(out: seq<OutStmt>, ins: seq<OutStmt>, before: seq<Action>, posted: seq<Action>, now: seq<Action>)
    requires AllInserted(ins) && Acts(ins) + now == before + posted
    ensures Acts(out + ins) + now == Acts(out) + before + posted
  {
    ActsAppend(out, ins);
    Assoc(Acts(out), Acts(ins), now);
    Assoc(Acts(out), before, posted);
  }

  // ---------------------------------------------------------------- runs of the output

  /** A run of the output so far follows the reference run of the input so far. */
  ghost predicate Follows(s: Sim, env: Env, stmts: seq<Stmt>, out: seq<OutStmt>) {
    var ref, run := RefRun(s, env, stmts), Reach(env, out);
    run.1 == ref.1 && run.0 == if run.1 then ref.0 else Acts(out)
  }

  lemma FollowsInserts(s: Sim, env: Env, stmts: seq<Stmt>, out: seq<OutStmt>, ins: seq<OutStmt>)
    requires Follows(s, env, stmts, out) && AllInserted(ins)
    ensures Follows(s, env, stmts, out + ins)
  {
    ActsAppend(out, ins);
    ReachAppend(env, out, ins);
  }

  /** An exit may be copied once everything posted before it has been emitted. */
  lemma FollowsCopy(s: Sim, env: Env, stmts: seq<Stmt>, out: seq<OutStmt>, st: Stmt)
    requires Follows(s, env, stmts, out)
    requires st.Exit? ==> Acts(out) == RefAll(s, stmts + [st]).acts
    ensures Follows(s, env, stmts + [st], out + [Copied(st)])
  {
    AppendCopied(env, out, st);
    assert (stmts + [st])[..|stmts|] == stmts;
  }

  // ---------------------------------------------------------------- instruction marks

  function Marks(stmts: seq<Stmt>): nat {
    if stmts == [] then 0
    else Marks(stmts[..|stmts| - 1]) + if stmts[|stmts| - 1].IMark? then 1 else 0
  }

  lemma {:induction false} MarksMonotone(stmts: seq<Stmt>, i: nat)
    requires i < |stmts|
    ensures Marks(stmts[..i]) + (if stmts[i].IMark? then 1 else 0) <= Marks(stmts)
    decreases |stmts|
  {
    if i < |stmts| - 1 {
      MarksMonotone(stmts[..|stmts| - 1], i);
      assert stmts[..|stmts| - 1][..i] == stmts[..i];
    }
  }

  lemma {:induction false} InfoPerMark(s: Sim, stmts: seq<Stmt>)
    ensures |RefAll(s, stmts).info| == Marks(stmts)
  {
    if stmts != [] {
      InfoPerMark(s, stmts[..|stmts| - 1]);
    }
  }

  /** One statement more. */
  lemma RefAllStep(s: Sim, stmts: seq<Stmt>, i: nat)
    requires i < |stmts|
    ensures stmts[..i + 1] == stmts[..i] + [stmts[i]]
    ensures RefAll(s, stmts[..i + 1]) == Step(s, RefAll(s, stmts[..i]), stmts[i])
  {
    assert stmts[..i + 1][..i] == stmts[..i];
  }

  lemma EventOk(s: Sim, info: seq<InstrInfo>, q: seq<Event>, i: nat)
    requires s.Ok() && QueueOk(s, info, q) && i < |q|
    ensures q[i].inode < |info| && (q[i].IsData() ==> s.cacheSim) && (q[i].IrNoX? ==> s.NoX(info[q[i].inode]))
    ensures i + 1 < |q| && q[i].IrNoX? && q[i + 1].IsData() ==> q[i].inode == q[i + 1].inode
  {
  }

  /** The events that a merged helper stands for. */
  lemma WithData(q: seq<Event>, i: nat)
    requires i + 1 < |q| && q[i].IrNoX? && q[i + 1].IsData() && q[i].inode == q[i + 1].inode
    ensures var n, ev2 := q[i].inode, q[i + 1];
      Micros(q[..i + 2]) == Micros(q[..i])
        + Expand(if ev2.Dw? then Log1IrNoX1Dw(n, ev2.ea, ev2.szB) else Log1IrNoX1Dr(n, ev2.ea, ev2.szB))
  {
    hide Micros;
    MicrosStep(q, i);
    MicrosStep(q, i + 1);
    MicroPair(Micros(q[..i]), q[i], q[i + 1]);
  }

  lemma Fetched(q: seq<Event>, i: nat, k: nat)
    requires 1 <= k <= 3 && i + k <= |q| && forall j :: i <= j < i + k ==> q[j].IrNoX?
    ensures Micros(q[..i + k]) == Micros(q[..i]) + if k == 1 then [AIr(q[i].inode)]
      else if k == 2 then [AIr(q[i].inode), AIr(q[i + 1].inode)]
      else [AIr(q[i].inode), AIr(q[i + 1].inode), AIr(q[i + 2].inode)]
  {
    hide Micros;
    MicrosStep(q, i);
    if k > 1 {
      MicrosStep(q, i + 1);
      var n2 := q[i + 1].inode;
      MicroTriple(Micros(q[..i]), q[i].inode, n2, if k > 2 then q[i + 2].inode else n2);
    }
    if k > 2 {
      MicrosStep(q, i + 2);
    }
  }

  lemma NoMicros()
    ensures Micros([]) == []
  {
  }

  lemma NothingInserted()
    ensures AllInserted([]) && Acts([]) == []
  {
  }

  lemma OneInserted(ins: seq<OutStmt>, h: Helper)
    requires AllInserted(ins)
    ensures AllInserted([Insert(h)]) && AllInserted(ins + [Insert(h)])
  {
  }

  lemma NothingCurrent(info: seq<InstrInfo>)
    ensures Current(info, [])
  {
  }

  class CgState {
    const s: Sim
    const nInstrs: nat
    const events: array<Event>
    var eventsUsed: nat
    var sbInfo: seq<InstrInfo>
    var sbOut: seq<OutStmt>

    ghost predicate Valid()
      reads this, events
    {
      && s.Ok() && 0 < events.Length && eventsUsed <= events.Length
      && QueueOk(s, sbInfo, Queue()) && OutOk(s, sbInfo, sbOut)
    }

    ghost function Queue(): (q: seq<Event>)
      reads this, events
    {
      if eventsUsed <= events.Length then events[..eventsUsed] else []
    }

    /** What has been emitted and what is outstanding add up to what should have been posted. */
    ghost predicate Tracks(r: Ref)
      reads this, events
    {
      && Acts(sbOut) + Micros(Queue()) == r.acts && r.open == Open(Queue())
      && sbInfo == r.info && Current(sbInfo, Queue())
    }

    constructor (s: Sim, nEvents: nat, nInstrs: nat)
      requires s.Ok() && nEvents > 0
      ensures Valid() && this.s == s && this.nInstrs == nInstrs && events.Length == nEvents && fresh(events)
      ensures Queue() == [] && sbInfo == [] && sbOut == []
    {
      this.s, this.nInstrs := s, nInstrs;
      events := new Event[nEvents](_ => IrGen(0));
      eventsUsed, sbInfo, sbOut := 0, [], [];
    }

    // -------------------------------------------------------------- flushing

    /** Chooses the helper that notifies event `i`, and possibly the ones right behind it. */
    method Notify(i: nat) returns (h: Helper, next: nat)
      requires Valid() && i < eventsUsed
      ensures i < next <= eventsUsed && HelperOk(s, sbInfo, h)
      ensures Micros(Queue()[..next]) == Micros(Queue()[..i]) + Expand(h)
    {
      hide Micros, QueueOk, OutOk;
      MicrosStep(Queue(), i);
      EventOk(s, sbInfo, Queue(), i);
      next := i + 1;
      match events[i]
      case IrNoX(n) =>
        h, next := NotifyNoX(i, n);
      case IrGen(n) =>
        h := if s.cacheSim then Log1IrGen0D(n) else Log1Ir(n);
      case Dr(n, ea, szB) =>
        h := Log0Ir1Dr(n, ea, szB, None);
      case Dm(n, ea, szB) =>
        h := Log0Ir1Dr(n, ea, szB, None);
      case Dw(n, ea, szB) =>
        h := Log0Ir1Dw(n, ea, szB, None);
      case Bc(n, g, inv) =>
        h := LogCondBranch(n, g, inv);
      case Bi(n, d) =>
        h := LogIndBranch(n, d);
    }

    /** A fast-path fetch is merged with the data event, or the two or one fetches, behind it. */
    method NotifyNoX(i: nat, n: nat) returns (h: Helper, next: nat)
      requires Valid() && i < eventsUsed && events[i] == IrNoX(n)
      ensures i < next <= eventsUsed && HelperOk(s, sbInfo, h)
      ensures Micros(Queue()[..next]) == Micros(Queue()[..i]) + Expand(h)
    {
      hide Micros, QueueOk, OutOk;
      EventOk(s, sbInfo, Queue(), i);
      Fetched(Queue(), i, 1);
      if i + 1 < eventsUsed && events[i + 1].IsData() {
        h := NotifyWithData(i, n);
        next := i + 2;
      } else if i + 2 < eventsUsed && events[i + 1].IrNoX? && events[i + 2].IrNoX? {
        h := NotifyThree(i, n);
        next := i + 3;
      } else if i + 1 < eventsUsed && events[i + 1].IrNoX? {
        h := NotifyTwo(i, n);
        next := i + 2;
      } else {
        h := if s.cacheSim then Log1IrNoX0D(n) else Log1Ir(n);
        next := i + 1;
      }
    }

    method NotifyWithData(i: nat, n: nat) returns (h: Helper)
      requires Valid() && i + 1 < eventsUsed && events[i] == IrNoX(n) && events[i + 1].IsData()
      ensures HelperOk(s, sbInfo, h) && Micros(Queue()[..i + 2]) == Micros(Queue()[..i]) + Expand(h)
    {
      hide Micros, Expand, QueueOk, OutOk;
      EventOk(s, sbInfo, Queue(), i);
      EventOk(s, sbInfo, Queue(), i + 1);
      WithData(Queue(), i);
      var ev2 := events[i + 1];
      h := if ev2.Dw? then Log1IrNoX1Dw(n, ev2.ea, ev2.szB) else Log1IrNoX1Dr(n, ev2.ea, ev2.szB);
    }

    method NotifyTwo(i: nat, n: nat) returns (h: Helper)
      requires Valid() && i + 1 < eventsUsed && events[i] == IrNoX(n) && events[i + 1].IrNoX?
      ensures HelperOk(s, sbInfo, h) && Micros(Queue()[..i + 2]) == Micros(Queue()[..i]) + Expand(h)
    {
      hide Micros, QueueOk, OutOk;
      EventOk(s, sbInfo, Queue(), i);
      EventOk(s, sbInfo, Queue(), i + 1);
      Fetched(Queue(), i, 2);
      var n2 := events[i + 1].inode;
      h := if s.cacheSim then Log2IrNoX0D(n, n2) else Log2Ir(n, n2);
    }

    method NotifyThree(i: nat, n: nat) returns (h: Helper)
      requires Valid() && i + 2 < eventsUsed && events[i] == IrNoX(n) && events[i + 1].IrNoX? && events[i + 2].IrNoX?
      ensures HelperOk(s, sbInfo, h) && Micros(Queue()[..i + 3]) == Micros(Queue()[..i]) + Expand(h)
    {
      hide Micros, QueueOk, OutOk;
      EventOk(s, sbInfo, Queue(), i);
      EventOk(s, sbInfo, Queue(), i + 1);
      EventOk(s, sbInfo, Queue(), i + 2);
      Fetched(Queue(), i, 3);
      var n2, n3 := events[i + 1].inode, events[i + 2].inode;
      h := if s.cacheSim then Log3IrNoX0D(n, n2, n3) else Log3Ir(n, n2, n3);
    }

    method Emit(h: Helper)
      requires Valid() && HelperOk(s, sbInfo, h)
      modifies this`sbOut
      ensures Valid() && sbOut == old(sbOut) + [Insert(h)]
    {
      sbOut := sbOut + [Insert(h)];
    }

    /** Emits a helper call for every outstanding event, in order, and empties the queue. */
    method FlushEvents() returns (ghost ins: seq<OutStmt>)
      requires Valid()
      modifies this`eventsUsed, this`sbOut
      ensures Valid() && Queue() == []
      ensures sbOut == old(sbOut) + ins && AllInserted(ins)
      ensures Acts(ins) == old(Micros(Queue()))
    {
      hide Micros, Acts, AllInserted, QueueOk, OutOk, Expand, HelperOk;
      ins := [];
      NothingInserted();
      NoMicros();
      var i := 0;
      ghost var q := Queue();
      while i < eventsUsed
        invariant Valid() && i <= eventsUsed && Queue() == q && eventsUsed == old(eventsUsed)
        invariant sbOut == old(sbOut) + ins && AllInserted(ins)
        invariant Acts(ins) == Micros(q[..i])
      {
        var h, next := Notify(i);
        ActsOne(ins, h);
        OneInserted(ins, h);
        Emit(h);
        ins := ins + [Insert(h)];
        i := next;
      }
      assert q[..i] == q;
      Emptied();
      eventsUsed := 0;
    }

    lemma Emptied()
      requires Valid()
      ensures QueueOk(s, sbInfo, [])
    {
    }

    // -------------------------------------------------------------- posting events

    /** Flushes when the queue is full. */
    method MakeRoom() returns (ghost ins: seq<OutStmt>)
      requires Valid()
      modifies this`eventsUsed, this`sbOut
      ensures Valid() && eventsUsed < events.Length
      ensures sbOut == old(sbOut) + ins && AllInserted(ins)
      ensures Acts(ins) + Micros(Queue()) == old(Micros(Queue()))
      ensures Queue() == old(Queue()) || Queue() == []
    {
      ins := [];
      if eventsUsed == events.Length {
        ins := FlushEvents();
      }
    }

    /** Puts an event into a queue with room for it. */
    method Enqueue(e: Event)
      requires Valid() && eventsUsed < events.Length && e.inode < |sbInfo|
      requires e.IrNoX? ==> s.NoX(sbInfo[e.inode])
      requires e.IsData() ==> s.cacheSim && e.inode == |sbInfo| - 1 && Current(sbInfo, Queue())
      modifies this`eventsUsed, events
      ensures Valid() && Queue() == old(Queue()) + [e]
    {
      events[eventsUsed] := e;
      eventsUsed := eventsUsed + 1;
      assert Queue() == old(Queue()) + [e];
    }

    /** Appends an event, making room first; `ins` is what a flush emitted. */
    method AddEvent(e: Event) returns (ghost ins: seq<OutStmt>)
      requires Valid() && e.inode < |sbInfo|
      requires e.IrNoX? ==> s.NoX(sbInfo[e.inode])
      requires e.IsData() ==> s.cacheSim && e.inode == |sbInfo| - 1 && Current(sbInfo, Queue())
      modifies this`eventsUsed, this`sbOut, events
      ensures Valid() && sbOut == old(sbOut) + ins && AllInserted(ins)
      ensures Acts(ins) + Micros(Queue()) == old(Micros(Queue())) + Micro(e)
      ensures Queue() != [] && Queue()[|Queue()| - 1] == e
    {
      hide *;
      NothingCurrent(sbInfo);
      ins := MakeRoom();
      ghost var q := Queue();
      MicrosOne(q, e);
      Enqueue(e);
      Assoc(Acts(ins), Micros(q), Micro(e));
    }

    method SetupInstrInfo(addr: nat, len: nat) returns (n: nat)
      requires Valid() && |sbInfo| < nInstrs
      modifies this`sbInfo
      ensures Valid() && n == |old(sbInfo)| && sbInfo == old(sbInfo) + [InstrInfo(addr, len)]
    {
      n := |sbInfo|;
      sbInfo := sbInfo + [InstrInfo(addr, len)];
    }

    /** A new instruction and its fetch. */
    method AddEventIr(addr: nat, len: nat, ghost r: Ref) returns (ghost ins: seq<OutStmt>)
      requires Valid() && Tracks(r) && |sbInfo| < nInstrs
      modifies this, events
      ensures Valid() && sbOut == old(sbOut) + ins && AllInserted(ins)
      ensures Tracks(Ref(r.acts + [AIr(|r.info|)], false, r.info + [InstrInfo(addr, len)]))
    {
      ghost var q := Queue();
      var n := SetupInstrInfo(addr, len);
      ins := AddEvent(if s.NoX(sbInfo[n]) then IrNoX(n) else IrGen(n));
      Posted(old(sbOut), ins, Micros(q), [AIr(n)], Micros(Queue()));
    }

    method AddEventDr(szB: nat, ea: Atom, ghost r: Ref) returns (ghost ins: seq<OutStmt>)
      requires Valid() && Tracks(r) && r.info != [] && 1 <= szB <= s.minLine
      modifies this`eventsUsed, this`sbOut, events
      ensures Valid() && sbOut == old(sbOut) + ins && AllInserted(ins)
      ensures Tracks(PostRead(s, r, ea, szB))
    {
      ins := [];
      if s.cacheSim {
        var n := |sbInfo| - 1;
        ins := AddEvent(Dr(n, ea, szB));
        Posted(old(sbOut), ins, old(Micros(Queue())), [ARead(n, ea, szB, None)], Micros(Queue()));
      }
    }

    /** A write joins the read of the same place that is last in the queue, if there is one. */
    method AddEventDw(szB: nat, ea: Atom, ghost r: Ref) returns (ghost ins: seq<OutStmt>)
      requires Valid() && Tracks(r) && r.info != [] && 1 <= szB <= s.minLine
      modifies this`eventsUsed, this`sbOut, events
      ensures Valid() && sbOut == old(sbOut) + ins && AllInserted(ins)
      ensures Tracks(PostWrite(s, r, ea, szB))
    {
      ins := [];
      if !s.cacheSim {
        return;
      }
      var n := |sbInfo| - 1;
      LastRead(r, n, ea, szB);
      if eventsUsed > 0 && events[eventsUsed - 1] == Dr(n, ea, szB) {
        Merge(n, ea, szB);
        return;
      }
      ins := AddEvent(Dw(n, ea, szB));
      Posted(old(sbOut), ins, old(Micros(Queue())), [AWrite(n, ea, szB, None)], Micros(Queue()));
    }

    /** Whether a write joins a read can be seen from the actions posted. */
    lemma LastRead(r: Ref, n: nat, ea: Atom, szB: nat)
      requires Valid() && Tracks(r)
      ensures (eventsUsed > 0 && events[eventsUsed - 1] == Dr(n, ea, szB))
          <==> (r.open && r.acts != [] && r.acts[|r.acts| - 1] == ARead(n, ea, szB, None))
    {
      ghost var q := Queue();
      if Open(q) {
        var m := Micros(q);
        assert m == Micros(q[..|q| - 1]) + Micro(q[|q| - 1]);
        assert r.acts[|r.acts| - 1] == m[|m| - 1];
      }
    }

    /** The last read becomes a modify, which counts as one read. */
    method Merge(n: nat, ea: Atom, szB: nat)
      requires Valid() && eventsUsed > 0 && events[eventsUsed - 1] == Dr(n, ea, szB)
      modifies events
      ensures Valid() && Micros(Queue()) == old(Micros(Queue())) && !Open(Queue())
      ensures Current(sbInfo, Queue())
    {
      ghost var q := Queue();
      ghost var front := q[..|q| - 1];
      assert q == front + [Dr(n, ea, szB)];
      events[eventsUsed - 1] := Dm(n, ea, szB);
      assert Queue() == front + [Dm(n, ea, szB)];
      MicrosOne(front, Dr(n, ea, szB));
      MicrosOne(front, Dm(n, ea, szB));
    }

    /** Empties the queue; nothing can join what has been emitted. */
    method Flush(ghost r: Ref) returns (ghost ins: seq<OutStmt>)
      requires Valid() && Tracks(r)
      modifies this`eventsUsed, this`sbOut
      ensures Valid() && sbOut == old(sbOut) + ins && AllInserted(ins) && Queue() == []
      ensures Tracks(r.(open := false)) && Acts(sbOut) == r.acts
    {
      ins := FlushEvents();
      ActsAppend(old(sbOut), ins);
      NothingMore(Acts(sbOut));
    }

    /** A call emitted when nothing is outstanding. */
    method EmitNow(h: Helper, ghost r: Ref)
      requires Valid() && Tracks(r) && Queue() == [] && HelperOk(s, sbInfo, h)
      modifies this`sbOut
      ensures Valid() && sbOut == old(sbOut) + [Insert(h)] && Tracks(r.(acts := r.acts + Expand(h)))
    {
      hide Acts, OutOk, Expand, HelperOk;
      NoMicros();
      ActsOne(sbOut, h);
      NothingMore(Acts(sbOut));
      Emit(h);
      NothingMore(Acts(sbOut));
    }

    /** A guarded access is not queued: the queue is flushed and a guarded call emitted at once. */
    method AddEventGuarded(szB: nat, ea: Atom, guard: Atom, isWrite: bool, ghost r: Ref)
        returns (ghost ins: seq<OutStmt>)
      requires Valid() && Tracks(r) && r.info != [] && 1 <= szB <= s.minLine
      modifies this`eventsUsed, this`sbOut
      ensures Valid() && sbOut == old(sbOut) + ins && AllInserted(ins)
      ensures Tracks(if !s.cacheSim then r
                     else if isWrite then PostOther(r, AWrite(|r.info| - 1, ea, szB, Some(guard)))
                     else PostOther(r, ARead(|r.info| - 1, ea, szB, Some(guard))))
    {
      hide Acts, Micros, Current, QueueOk, OutOk, AllInserted, CgState.Tracks;
      InfoIs(r);
      ins := [];
      NothingInserted();
      if s.cacheSim {
        var n := |sbInfo| - 1;
        ins := Flush(r);
        var h := if isWrite then Log0Ir1Dw(n, ea, szB, Some(guard)) else Log0Ir1Dr(n, ea, szB, Some(guard));
        EmitNow(h, r.(open := false));
        OneInserted(ins, h);
        InsertedTwo(old(sbOut), ins, [Insert(h)]);
        ins := ins + [Insert(h)];
      }
    }

    /** A conditional branch: the guard is widened, and inverted back if the exit was. */
    method AddEventBc(guard: Atom, inverted: bool, ghost r: Ref) returns (ghost ins: seq<OutStmt>)
      requires Valid() && Tracks(r) && r.info != []
      modifies this`eventsUsed, this`sbOut, events
      ensures Valid() && sbOut == old(sbOut) + ins && AllInserted(ins)
      ensures Tracks(if s.branchSim then PostOther(r, ACond(|r.info| - 1, guard, inverted)) else r)
    {
      ins := [];
      if s.branchSim {
        var n := |sbInfo| - 1;
        ins := AddEvent(Bc(n, guard, inverted));
        Posted(old(sbOut), ins, old(Micros(Queue())), [ACond(n, guard, inverted)], Micros(Queue()));
      }
    }

    method AddEventBi(dst: Atom, ghost r: Ref) returns (ghost ins: seq<OutStmt>)
      requires Valid() && Tracks(r) && r.info != []
      modifies this`eventsUsed, this`sbOut, events
      ensures Valid() && sbOut == old(sbOut) + ins && AllInserted(ins)
      ensures Tracks(if s.branchSim then PostOther(r, AInd(|r.info| - 1, dst)) else r)
    {
      ins := [];
      if s.branchSim {
        var n := |sbInfo| - 1;
        ins := AddEvent(Bi(n, dst));
        Posted(old(sbOut), ins, old(Micros(Queue())), [AInd(n, dst)], Micros(Queue()));
      }
    }

    // -------------------------------------------------------------- statements

    /** A guard is shown to the predictor only for an exit that is a branch of the guest. */
    method ProcessBranch(st: Stmt, ghost r: Ref) returns (ghost ins: seq<OutStmt>)
      requires Valid() && Tracks(r) && r.info != [] && st.Exit? && IsBranch(st.jk)
      modifies this`eventsUsed, this`sbOut, events
      ensures Valid() && sbOut == old(sbOut) + ins && AllInserted(ins)
      ensures Tracks(if s.branchSim
                     then PostOther(r, ACond(|r.info| - 1, st.guard, Inverted(r.info[|r.info| - 1], st.dst))) else r)
    {
      var inverted := Inverted(sbInfo[|sbInfo| - 1], st.dst);
      EmitWiden(st.guard, inverted, r);
      ghost var ins0 := [Widen(st.guard, inverted)];
      ins := AddEventBc(st.guard, inverted, r);
      InsertedTwo(old(sbOut), ins0, ins);
      ins := ins0 + ins;
    }

    method ProcessExit(st: Stmt, ghost r: Ref) returns (ghost ins: seq<OutStmt>)
      requires Valid() && Tracks(r) && r.info != [] && st.Exit?
      modifies this`eventsUsed, this`sbOut, events
      ensures Valid() && sbOut == old(sbOut) + ins && AllInserted(ins)
      ensures Tracks(Step(s, r, st)) && Acts(sbOut) == Step(s, r, st).acts
    {
      hide CgState.Valid, CgState.Tracks, Acts;
      if IsBranch(st.jk) {
        ins := ProcessBranch(st, r);
        ghost var r1 := if s.branchSim
        then PostOther(r, ACond(|r.info| - 1, st.guard, Inverted(r.info[|r.info| - 1], st.dst))) else r;
        ghost var ins2 := Flush(r1);
        InsertedTwo(old(sbOut), ins, ins2);
        ins := ins + ins2;
      } else {
        ins := Flush(r);
      }
    }

    method EmitWiden(guard: Atom, inverted: bool, ghost r: Ref)
      requires Valid() && Tracks(r)
      modifies this`sbOut
      ensures Valid() && Tracks(r) && sbOut == old(sbOut) + [Widen(guard, inverted)]
    {
      sbOut := sbOut + [Widen(guard, inverted)];
      ActsAppend(old(sbOut), [Widen(guard, inverted)]);
    }

    method ProcessReadWrite(szB: nat, ea: Atom, ghost r: Ref) returns (ghost ins: seq<OutStmt>)
      requires Valid() && Tracks(r) && r.info != [] && 1 <= szB <= s.minLine
      modifies this`eventsUsed, this`sbOut, events
      ensures Valid() && sbOut == old(sbOut) + ins && AllInserted(ins)
      ensures Tracks(PostWrite(s, PostRead(s, r, ea, szB), ea, szB))
    {
      ins := AddEventDr(szB, ea, r);
      ghost var ins2 := AddEventDw(szB, ea, PostRead(s, r, ea, szB));
      InsertedTwo(old(sbOut), ins, ins2);
      ins := ins + ins2;
    }

    method ProcessLL(szB: nat, ea: Atom, ghost r: Ref) returns (ghost ins: seq<OutStmt>)
      requires Valid() && Tracks(r) && r.info != [] && 1 <= szB <= s.minLine
      modifies this`eventsUsed, this`sbOut, events
      ensures Valid() && sbOut == old(sbOut) + ins && AllInserted(ins)
      ensures Tracks(PostRead(s, r, ea, szB).(open := false))
    {
      ins := AddEventDr(szB, ea, r);
      ghost var ins2 := Flush(PostRead(s, r, ea, szB));
      InsertedTwo(old(sbOut), ins, ins2);
      ins := ins + ins2;
    }

    lemma InfoIs(r: Ref)
      requires Tracks(r)
      ensures r.info == sbInfo
    {
    }

    /** A helper of a statement reads or writes at most a line. */
    method ProcessMixed(st: Stmt, ghost r: Ref) returns (ghost ins: seq<OutStmt>)
      requires Valid() && Tracks(r) && StmtOk(s, st) && r.info != [] && (st.Dirty? || st.Cas?)
      modifies this`eventsUsed, this`sbOut, events
      ensures Valid() && sbOut == old(sbOut) + ins && AllInserted(ins)
      ensures Tracks(Step(s, r, st))
    {
      hide CgState.Tracks, PostRead, PostWrite, AllInserted, QueueOk, OutOk;
      match st
      case Dirty(fx, a, sz, _) =>
        var sz' := Min(sz, s.minLine);
        if fx.Modifies? {
          ins := ProcessReadWrite(sz', a, r);
        } else if fx.Reads? {
          ins := AddEventDr(sz', a, r);
        } else {
          ins := AddEventDw(sz', a, r);
        }
      case Cas(a, sz, double, _) =>
        ins := ProcessReadWrite(Min(if double then 2 * sz else sz, s.minLine), a, r);
    }

    /** Posts the events of one statement; an exit leaves nothing outstanding. */
    method Process(st: Stmt, ghost r: Ref) returns (ghost ins: seq<OutStmt>)
      requires Valid() && Tracks(r) && StmtOk(s, st)
      requires if st.IMark? then |sbInfo| < nInstrs else r.info != []
      modifies this, events
      ensures Valid() && sbOut == old(sbOut) + ins && AllInserted(ins)
      ensures Tracks(Step(s, r, st)) && (st.Exit? ==> Acts(sbOut) == Step(s, r, st).acts)
    {
      hide CgState.Valid, CgState.Tracks, PostRead, PostWrite, PostOther, AllInserted, Acts, Inverted;
      InfoIs(r);
      NothingInserted();
      match st
      case Plain(_) => ins := [];
      case IMark(addr, len) => ins := AddEventIr(addr, InstrLen(len), r);
      case Load(_, a, sz) => ins := AddEventDr(sz, a, r);
      case Store(a, sz, _) => ins := AddEventDw(sz, a, r);
      case StoreG(a, sz, g, _) => ins := AddEventGuarded(sz, a, g, true, r);
      case LoadG(a, sz, g, _) => ins := AddEventGuarded(sz, a, g, false, r);
      case Dirty(_, _, _, _) => ins := ProcessMixed(st, r);
      case Cas(_, _, _, _) => ins := ProcessMixed(st, r);
      case LoadLinked(a, sz, _) => ins := ProcessLL(sz, a, r);
      case StoreCond(a, sz, _) => ins := AddEventDw(sz, a, r);
      case Exit(_, _, _) => ins := ProcessExit(st, r);
    }

    method Copy(st: Stmt, ghost r: Ref)
      requires Valid() && Tracks(r)
      modifies this`sbOut
      ensures Valid() && Tracks(r) && sbOut == old(sbOut) + [Copied(st)]
    {
      AppendCopied(Env(map[], map[]), sbOut, st);
      sbOut := sbOut + [Copied(st)];
    }
  }

  // ---------------------------------------------------------------- the pass

  method CountMarks(stmts: seq<Stmt>) returns (n: nat)
    ensures n == Marks(stmts)
  {
    n := 0;
    for i := 0 to |stmts|
      invariant n == Marks(stmts[..i])
    {
      assert stmts[..i + 1][..i] == stmts[..i];
      if stmts[i].IMark? {
        n := n + 1;
      }
    }
    assert stmts[..|stmts|] == stmts;
  }

  /** The first `i` statements have been dealt with. */
  ghost predicate Done(cgs: CgState, stmts: seq<Stmt>, i: nat)
    requires i <= |stmts|
    reads cgs, cgs.events
  {
    && cgs.Valid() && cgs.Tracks(RefAll(cgs.s, stmts[..i]))
    && Erase(cgs.sbOut) == stmts[..i]
    && forall env :: Follows(cgs.s, env, stmts[..i], cgs.sbOut)
  }

  lemma DoneInserts(s: Sim, stmts: seq<Stmt>, out: seq<OutStmt>, ins: seq<OutStmt>)
    requires forall env :: Follows(s, env, stmts, out)
    requires AllInserted(ins)
    ensures Erase(out + ins) == Erase(out)
    ensures forall env :: Follows(s, env, stmts, out + ins)
  {
    ActsAppend(out, ins);
    forall env ensures Follows(s, env, stmts, out + ins) {
      FollowsInserts(s, env, stmts, out, ins);
    }
  }

  lemma DoneCopy(s: Sim, stmts: seq<Stmt>, out: seq<OutStmt>, st: Stmt)
    requires forall env :: Follows(s, env, stmts, out)
    requires st.Exit? ==> Acts(out) == RefAll(s, stmts + [st]).acts
    ensures Erase(out + [Copied(st)]) == Erase(out) + [st]
    ensures forall env :: Follows(s, env, stmts + [st], out + [Copied(st)])
  {
    AppendCopied(Env(map[], map[]), out, st);
    forall env ensures Follows(s, env, stmts + [st], out + [Copied(st)]) {
      FollowsCopy(s, env, stmts, out, st);
    }
  }

  /** A statement before the first instruction mark is copied verbatim. */
  method CopyOne(cgs: CgState, stmts: seq<Stmt>, i: nat)
    requires i < |stmts| && Done(cgs, stmts, i) && cgs.Queue() == [] && cgs.sbInfo == [] && !stmts[i].IMark?
    modifies cgs`sbOut
    ensures Done(cgs, stmts, i + 1) && cgs.Queue() == []
  {
    RefAllStep(cgs.s, stmts, i);
    ghost var out := cgs.sbOut;
    assert Acts(out) + Micros(cgs.Queue()) == Acts(out);
    cgs.Copy(stmts[i], RefAll(cgs.s, stmts[..i]));
    DoneCopy(cgs.s, stmts[..i], out, stmts[i]);
  }

  /** Copies what precedes the first instruction mark. */
  method Preamble(cgs: CgState, stmts: seq<Stmt>) returns (i: nat)
    requires Done(cgs, stmts, 0) && cgs.Queue() == [] && cgs.sbInfo == []
    requires exists j :: 0 <= j < |stmts| && stmts[j].IMark?
    modifies cgs`sbOut
    ensures i < |stmts| && stmts[i].IMark? && Done(cgs, stmts, i)
  {
    hide *;
    ghost var first :| 0 <= first < |stmts| && stmts[first].IMark?;
    i := 0;
    while !stmts[i].IMark?
      invariant i <= first && Done(cgs, stmts, i) && cgs.Queue() == [] && cgs.sbInfo == []
      decreases first - i
    {
      CopyOne(cgs, stmts, i);
      i := i + 1;
    }
  }

  method Instruct(cgs: CgState, stmts: seq<Stmt>, i: nat)
    requires i < |stmts| && Done(cgs, stmts, i) && StmtOk(cgs.s, stmts[i])
    requires stmts[i].IMark? || cgs.sbInfo != []
    requires cgs.nInstrs == Marks(stmts)
    modifies cgs, cgs.events
    ensures Done(cgs, stmts, i + 1) && cgs.sbInfo != []
  {
    hide *;
    ghost var r := RefAll(cgs.s, stmts[..i]);
    var st := stmts[i];
    DoneParts(cgs, stmts, i);
    InfoPerMark(cgs.s, stmts[..i]);
    MarksMonotone(stmts, i);
    RefAllStep(cgs.s, stmts, i);
    StepInfo(cgs.s, r, st);
    ghost var out := cgs.sbOut;
    ghost var ins := cgs.Process(st, r);
    DoneInserts(cgs.s, stmts[..i], out, ins);
    ghost var out2 := cgs.sbOut;
    cgs.Copy(st, Step(cgs.s, r, st));
    DoneCopy(cgs.s, stmts[..i], out2, st);
    cgs.InfoIs(Step(cgs.s, r, st));
    DoneFrom(cgs, stmts, i + 1);
  }

  lemma DoneParts(cgs: CgState, stmts: seq<Stmt>, i: nat)
    requires i <= |stmts| && Done(cgs, stmts, i)
    ensures cgs.Valid() && cgs.Tracks(RefAll(cgs.s, stmts[..i])) && RefAll(cgs.s, stmts[..i]).info == cgs.sbInfo
    ensures Erase(cgs.sbOut) == stmts[..i] && forall env :: Follows(cgs.s, env, stmts[..i], cgs.sbOut)
  {
  }

  lemma DoneFrom(cgs: CgState, stmts: seq<Stmt>, i: nat)
    requires i <= |stmts| && cgs.Valid() && cgs.Tracks(RefAll(cgs.s, stmts[..i]))
    requires Erase(cgs.sbOut) == stmts[..i] && forall env :: Follows(cgs.s, env, stmts[..i], cgs.sbOut)
    ensures Done(cgs, stmts, i)
  {
  }

  /** From the first instruction mark on there is a current instruction. */
  lemma StepInfo(s: Sim, r: Ref, st: Stmt)
    requires st.IMark? || r.info != []
    ensures Step(s, r, st).info != []
  {
  }

  method Traverse(cgs: CgState, stmts: seq<Stmt>, first: nat)
    requires first < |stmts| && stmts[first].IMark? && Done(cgs, stmts, first) && cgs.nInstrs == Marks(stmts)
    requires forall i :: first <= i < |stmts| ==> StmtOk(cgs.s, stmts[i])
    modifies cgs, cgs.events
    ensures Done(cgs, stmts, |stmts|) && cgs.sbInfo != []
  {
    hide Done, CgState.Valid, CgState.Tracks;
    var i := first;
    while i < |stmts|
      invariant first <= i <= |stmts| && Done(cgs, stmts, i)
      invariant i == first || cgs.sbInfo != []
    {
      Instruct(cgs, stmts, i);
      i := i + 1;
    }
  }

  /** A branch to an unknown destination at the end is shown to the predictor, except a return. */
  method EndBranch(cgs: CgState, sb: Block, ghost r: Ref) returns (ghost ins: seq<OutStmt>)
    requires cgs.Valid() && cgs.Tracks(r) && r == RefAll(cgs.s, sb.stmts) && r.info != []
    modifies cgs`eventsUsed, cgs`sbOut, cgs.events
    ensures cgs.Valid() && cgs.sbOut == old(cgs.sbOut) + ins && AllInserted(ins)
    ensures cgs.Tracks(Ref(r.acts + Ending(cgs.s, sb), r.open && Ending(cgs.s, sb) == [], r.info))
  {
    hide CgState.Valid, Acts, Micros, Current;
    ins := [];
    if (sb.jumpkind.Boring? || sb.jumpkind.Call?) && sb.next.Tmp? {
      ins := cgs.AddEventBi(sb.next, r);
    }
  }

  /** The branch at the end, and the last flush. */
  method Finish(cgs: CgState, sb: Block)
    requires Done(cgs, sb.stmts, |sb.stmts|) && cgs.sbInfo != []
    modifies cgs, cgs.events
    ensures cgs.Valid() && cgs.sbInfo == old(cgs.sbInfo)
    ensures Erase(cgs.sbOut) == sb.stmts
    ensures forall env :: Reach(env, cgs.sbOut) == RefBlock(cgs.s, env, sb)
  {
    assert sb.stmts[..|sb.stmts|] == sb.stmts;
    ghost var r := RefAll(cgs.s, sb.stmts);
    ghost var out := cgs.sbOut;
    ghost var ins := EndBranch(cgs, sb, r);
    ghost var out2 := cgs.sbOut;
    DoneInserts(cgs.s, sb.stmts, out, ins);
    ins := cgs.Flush(Ref(r.acts + Ending(cgs.s, sb), r.open && Ending(cgs.s, sb) == [], r.info));
    DoneInserts(cgs.s, sb.stmts, out2, ins);
    Finished(cgs.s, sb, cgs.sbOut);
  }

  lemma Finished(s: Sim, sb: Block, out: seq<OutStmt>)
    requires forall env :: Follows(s, env, sb.stmts, out)
    requires Acts(out) == RefAll(s, sb.stmts).acts + Ending(s, sb)
    ensures forall env :: Reach(env, out) == RefBlock(s, env, sb)
  {
    forall env ensures Reach(env, out) == RefBlock(s, env, sb) {
      assert Follows(s, env, sb.stmts, out);
    }
  }

  method Transform(cgs: CgState, sb: Block)
    requires cgs.Valid() && cgs.Queue() == [] && cgs.sbInfo == [] && cgs.sbOut == []
    requires BlockOk(cgs.s, sb) && cgs.nInstrs == Marks(sb.stmts)
    modifies cgs, cgs.events
    ensures cgs.Valid() && cgs.sbInfo == RefAll(cgs.s, sb.stmts).info && |cgs.sbInfo| == cgs.nInstrs
    ensures Erase(cgs.sbOut) == sb.stmts
    ensures forall env :: Reach(env, cgs.sbOut) == RefBlock(cgs.s, env, sb)
  {
    hide CgState.Valid;
    var i := Preamble(cgs, sb.stmts);
    Traverse(cgs, sb.stmts, i);
    assert sb.stmts[..|sb.stmts|] == sb.stmts;
    InfoPerMark(cgs.s, sb.stmts);
    Finish(cgs, sb);
  }

  /**
   Instruments a block, with room for `nEvents` outstanding events.  Whatever that number:
   without the inserted statements the output is the input; a run of the output makes the
   machine do what the events of the input do one at a time on the generic path, up to the
   exit that is taken.
  */
  method Instrument(s: Sim, nEvents: nat, sb: Block) returns (out: seq<OutStmt>, info: seq<InstrInfo>)
    requires s.Ok() && nEvents > 0 && BlockOk(s, sb)
    ensures Erase(out) == sb.stmts
    ensures info == RefAll(s, sb.stmts).info && |info| == Marks(sb.stmts)
    ensures OutOk(s, info, out)
    ensures forall env :: Reach(env, out) == RefBlock(s, env, sb)
  {
    var n := CountMarks(sb.stmts);
    var cgs := new CgState(s, nEvents, n);
    Transform(cgs, sb);
    out, info := cgs.sbOut, cgs.sbInfo;
  }

  /** What the property of `Instrument` means for the machine: any output of it has the effect of the
      reference actions, so outputs made with different queue sizes have the same effect. */
  lemma InstrumentedRun(s: Sim, sb: Block, info: seq<InstrInfo>, out: seq<OutStmt>, env: Env, m: Machine)
    requires s.Ok() && m.Ok() && OutOk(s, info, out)
    requires Reach(env, out) == RefBlock(s, env, sb)
    ensures ActionsIn(RefBlock(s, env, sb).0, |info|)
    ensures RunOut(s, info, env, m, out)
         == (RunActions(s, info, env, m, RefBlock(s, env, sb).0), RefBlock(s, env, sb).1)
  {
    RunOutIsReach(s, info, env, m, out);
  }
}
