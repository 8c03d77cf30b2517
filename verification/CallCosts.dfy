/**
 How the inclusive cost of calls is found (`callstack.c`, `dump.c`): a call remembers the cost
 at its entry, and the difference to that is added to its jCC when the call returns.  A dump in
 between adds what has been spent so far to every open call, moves the entry costs on, and
 writes and clears the jCCs.  One event is modelled; the cost functions treat all alike.
*/
module CallCosts {
  import opened Common
  import opened Events

  /** An entry of the call stack; a skipped call has no jCC. */
  datatype Frame = Frame(jcc: Option<nat>, enter: ULong)

  /** `cost`: what the thread has spent; `lastDump`: what it was at the last dump; `sums`: the costs of the jCCs;
      `written`: what dumps have reported. */
  datatype Thread = Thread(cost: ULong, lastDump: ULong, stack: seq<Frame>, sums: map<nat, ULong>, written: map<nat, nat>)

  datatype Op =
    | Spend(cost: ULong)                  // the counter goes on to this value
    | Push(jcc: Option<nat>)              // a call
    | PushUnderflow(jcc: Option<nat>, inHandler: bool)  // a call that is only noticed at its return
    | Pop                                 // a return
    | AddActive                           // `cs_addCount`: a dump begins
    | Write(jccs: set<nat>)               // the dump writes these jCCs and clears them
    | EndDump                             // the dump remembers the cost

  function At<T>(m: map<nat, T>, j: nat, zero: T): T { if j in m then m[j] else zero }

  /** `add_diff_cost_lz` for one entry of the stack. */
  function AddDiff(t: Thread, k: nat): Thread
    requires k < |t.stack|
  {
    var f := t.stack[k];
    if f.jcc.None? then t
    else
      var j := f.jcc.value;
      t.(sums := t.sums[j := PlusDiff(At(t.sums, j, 0), f.enter, t.cost)], stack := t.stack[k := f.(enter := t.cost)])
  }

  /** The loop of `cs_addCount`, for the first `k` entries. */
  function AddDiffs(t: Thread, k: nat): (r: Thread)
    requires k <= |t.stack|
    ensures |r.stack| == |t.stack|
  {
    if k == 0 then t else AddDiff(AddDiffs(t, k - 1), k - 1)
  }

  predicate Can(t: Thread, op: Op) { op.Pop? ==> t.stack != [] }

  function Step(t: Thread, op: Op): Thread
    requires Can(t, op)
  {
    match op
    case Spend(cost) => t.(cost := cost)
    case Push(jcc) => t.(stack := t.stack + [Frame(jcc, t.cost)])
    case PushUnderflow(jcc, inHandler) => t.(stack := t.stack + [Frame(jcc, if inHandler then 0 else t.lastDump)])
    case Pop =>
      var r := AddDiff(t, |t.stack| - 1);
      r.(stack := r.stack[..|r.stack| - 1])
    case AddActive => AddDiffs(t, |t.stack|)
    case Write(jccs) => Written(t, jccs)
    case EndDump => t.(lastDump := t.cost)
  }

  function Written(t: Thread, jccs: set<nat>): Thread {
    t.(sums := map j | j in t.sums :: if j in jccs then 0 else t.sums[j],
       written := map j | j in t.sums.Keys + t.written.Keys ::
         At(t.written, j, 0) + (if j in jccs then At(t.sums, j, 0) else 0))
  }

  // ---------------------------------------------------------------- without dumps

  /** A call: its jCC, and what the thread had spent when it began. */
  datatype Call = Call(jcc: Option<nat>, first: ULong)

  /** The calls that are open, and for each jCC what its finished calls have cost from entry to exit.  A call that is
      only noticed at its return is taken to have lasted since the last dump, or since its handler began. */
  datatype Ideal = Ideal(cost: ULong, lastDump: ULong, calls: seq<Call>, owed: map<nat, int>)

  function IdealStep(s: Ideal, op: Op): Ideal
    requires op.Pop? ==> s.calls != []
  {
    match op
    case Spend(cost) => s.(cost := cost)
    case Push(jcc) => s.(calls := s.calls + [Call(jcc, s.cost)])
    case PushUnderflow(jcc, inHandler) => s.(calls := s.calls + [Call(jcc, if inHandler then 0 else s.lastDump)])
    case Pop =>
      var c := s.calls[|s.calls| - 1];
      var owed := if c.jcc.None? then s.owed
                  else s.owed[c.jcc.value := At(s.owed, c.jcc.value, 0) + s.cost - c.first];
      s.(calls := s.calls[..|s.calls| - 1], owed := owed)
    case AddActive => s
    case Write(_) => s
    case EndDump => s.(lastDump := s.cost)
  }

  // ---------------------------------------------------------------- what every step keeps

  /** The part of the cost of open calls that dumps have taken already. */
  function Taken(stack: seq<Frame>, calls: seq<Call>, j: nat): int
    requires |stack| == |calls|
  {
    if stack == [] then 0
    else
      var n := |stack| - 1;
      Taken(stack[..n], calls[..n], j) + (if stack[n].jcc == Some(j) then stack[n].enter - calls[n].first else 0)
  }

  /** What has been attributed to a jCC, in dumps and since the last one. */
  function Total(t: Thread, j: nat): int { At(t.written, j, 0) + At(t.sums, j, 0) }

  ghost predicate Same(t: Thread, s: Ideal) {
    && t.cost == s.cost && t.lastDump == s.lastDump && |t.stack| == |s.calls|
    && (forall k :: 0 <= k < |t.stack| ==> t.stack[k].jcc == s.calls[k].jcc)
  }

  ghost predicate Balanced(t: Thread, s: Ideal, j: nat)
    requires |t.stack| == |s.calls|
  {
    (Total(t, j) - At(s.owed, j, 0) - Taken(t.stack, s.calls, j)) % ULONG == 0
  }

  lemma {:induction false} TakenUpdate(stack: seq<Frame>, calls: seq<Call>, j: nat, k: nat, enter: ULong)
    requires |stack| == |calls| && k < |stack|
    ensures Taken(stack[k := stack[k].(enter := enter)], calls, j)
         == Taken(stack, calls, j) + (if stack[k].jcc == Some(j) then enter - stack[k].enter else 0)
  {
    var n := |stack| - 1;
    var stack' := stack[k := stack[k].(enter := enter)];
    if k < n {
      TakenUpdate(stack[..n], calls[..n], j, k, enter);
      assert stack'[..n] == stack[..n][k := stack[k].(enter := enter)];
    } else {
      assert stack'[..n] == stack[..n];
    }
  }

  lemma AddDiffKeeps(t: Thread, s: Ideal, k: nat, j: nat)
    requires Same(t, s) && Balanced(t, s, j) && k < |t.stack|
    ensures Same(AddDiff(t, k), s) && Balanced(AddDiff(t, k), s, j)
    ensures AddDiff(t, k).stack[k].jcc == t.stack[k].jcc
    ensures t.stack[k].jcc.Some? ==> AddDiff(t, k).stack[k].enter == t.cost
  {
    hide Taken, PlusDiff, Balanced;
    TakenUpdate(t.stack, s.calls, j, k, t.cost);
    AddDiffBalances(t, s, k, j);
  }

  lemma AddDiffBalances(t: Thread, s: Ideal, k: nat, j: nat)
    requires Same(t, s) && Balanced(t, s, j) && k < |t.stack|
    ensures Balanced(AddDiff(t, k), s, j)
  {
    hide Taken, PlusDiff;
    TakenUpdate(t.stack, s.calls, j, k, t.cost);
    SumGrows(t, k, j);
  }

  /** The sum of the arc grows by what its entry has cost, in 64 bits. */
  lemma SumGrows(t: Thread, k: nat, j: nat)
    requires k < |t.stack|
    ensures var r, f := AddDiff(t, k), t.stack[k];
      && (f.jcc != Some(j) ==> Total(r, j) == Total(t, j))
      && (f.jcc == Some(j) ==> (Total(r, j) + f.enter - Total(t, j) - t.cost) % ULONG == 0)
  {
    hide PlusDiff;
  }

  lemma {:induction false} AddDiffsKeep(t: Thread, s: Ideal, k: nat, j: nat)
    requires Same(t, s) && Balanced(t, s, j) && k <= |t.stack|
    ensures Same(AddDiffs(t, k), s) && Balanced(AddDiffs(t, k), s, j)
  {
    hide AddDiff, Balanced;
    if k > 0 {
      AddDiffsKeep(t, s, k - 1, j);
      AddDiffKeeps(AddDiffs(t, k - 1), s, k - 1, j);
    }
  }

  /** A call whose cost has just been added leaves nothing behind. */
  lemma LastLeaves(t: Thread, s: Ideal, j: nat)
    requires Same(t, s) && Balanced(t, s, j) && t.stack != []
    requires var f := t.stack[|t.stack| - 1]; f.jcc.Some? ==> f.enter == t.cost
    ensures var r := t.(stack := t.stack[..|t.stack| - 1]);
      Same(r, IdealStep(s, Pop)) && Balanced(r, IdealStep(s, Pop), j)
  {
    var r, n := t.(stack := t.stack[..|t.stack| - 1]), |t.stack| - 1;
    assert Total(r, j) == Total(t, j);
    hide Total;
    assert Taken(t.stack, s.calls, j) == Taken(r.stack, s.calls[..n], j)
      + (if t.stack[n].jcc == Some(j) then t.stack[n].enter - s.calls[n].first else 0);
  }

  lemma PopKeeps(t: Thread, s: Ideal, j: nat)
    requires Same(t, s) && Balanced(t, s, j) && t.stack != []
    ensures Same(Step(t, Pop), IdealStep(s, Pop)) && Balanced(Step(t, Pop), IdealStep(s, Pop), j)
  {
    var n := |t.stack| - 1;
    hide AddDiff, Balanced, IdealStep;
    AddDiffKeeps(t, s, n, j);
    LastLeaves(AddDiff(t, n), s, j);
  }

  lemma PushKeeps(t: Thread, s: Ideal, jcc: Option<nat>, first: ULong, j: nat)
    requires Same(t, s) && Balanced(t, s, j)
    ensures var t', s' := t.(stack := t.stack + [Frame(jcc, first)]), s.(calls := s.calls + [Call(jcc, first)]);
      Same(t', s') && Balanced(t', s', j)
  {
    assert (t.stack + [Frame(jcc, first)])[..|t.stack|] == t.stack;
    assert (s.calls + [Call(jcc, first)])[..|t.stack|] == s.calls;
  }

  lemma WriteKeeps(t: Thread, s: Ideal, jccs: set<nat>, j: nat)
    requires Same(t, s) && Balanced(t, s, j)
    ensures Same(Written(t, jccs), s) && Balanced(Written(t, jccs), s, j)
  {
    hide Taken;
    assert Total(Written(t, jccs), j) == Total(t, j);
  }

  lemma StepKeeps(t: Thread, s: Ideal, op: Op, j: nat)
    requires Same(t, s) && Balanced(t, s, j) && Can(t, op)
    ensures Same(Step(t, op), IdealStep(s, op)) && Balanced(Step(t, op), IdealStep(s, op), j)
  {
    hide Taken, AddDiff, AddDiffs, Written;
    match op {
      case Spend(_) =>
      case Push(jcc) => PushKeeps(t, s, jcc, t.cost, j);
      case PushUnderflow(jcc, inHandler) => PushKeeps(t, s, jcc, if inHandler then 0 else t.lastDump, j);
      case Pop => PopKeeps(t, s, j);
      case AddActive => AddDiffsKeep(t, s, |t.stack|, j);
      case Write(jccs) => WriteKeeps(t, s, jccs, j);
      case EndDump =>
    }
  }

  // ---------------------------------------------------------------- runs

  datatype Run = Run(t: Thread, s: Ideal, ok: bool)

  function RunOf(ops: seq<Op>): Run {
    if ops == [] then Run(Thread(0, 0, [], map[], map[]), Ideal(0, 0, [], map[]), true)
    else
      var r := RunOf(ops[..|ops| - 1]);
      var op := ops[|ops| - 1];
      if r.ok && Can(r.t, op) && (op.Pop? ==> r.s.calls != []) then Run(Step(r.t, op), IdealStep(r.s, op), true)
      else r.(ok := false)
  }

  lemma {:induction false} RunKeeps(ops: seq<Op>, j: nat)
    requires RunOf(ops).ok
    ensures Same(RunOf(ops).t, RunOf(ops).s) && Balanced(RunOf(ops).t, RunOf(ops).s, j)
  {
    if ops != [] {
      RunKeeps(ops[..|ops| - 1], j);
      var r := RunOf(ops[..|ops| - 1]);
      StepKeeps(r.t, r.s, ops[|ops| - 1], j);
    }
  }

  lemma {:induction false} NothingTaken(stack: seq<Frame>, calls: seq<Call>, j: nat)
    requires |stack| == |calls| && forall k :: 0 <= k < |stack| ==> stack[k].jcc != Some(j)
    ensures Taken(stack, calls, j) == 0
  {
    if stack != [] {
      NothingTaken(stack[..|stack| - 1], calls[..|stack| - 1], j);
    }
  }

  lemma SameMod(a: int, b: int)
    requires (a - b) % ULONG == 0
    ensures a % ULONG == b % ULONG
  {
  }

  /** Over every run: when no call of a jCC is open, what dumps have reported for it and what it holds now is, in
      64 bits, the sum over its calls of the cost at exit less the cost at entry, however many dumps there were,
      wherever they came, and however the calls were nested. */
  lemma DumpsDoNotMatter(ops: seq<Op>, j: nat)
    requires RunOf(ops).ok && forall k :: 0 <= k < |RunOf(ops).t.stack| ==> RunOf(ops).t.stack[k].jcc != Some(j)
    ensures Total(RunOf(ops).t, j) % ULONG == At(RunOf(ops).s.owed, j, 0) % ULONG
  {
    RunKeeps(ops, j);
    var r := RunOf(ops);
    hide RunOf, Taken, At;
    NothingTaken(r.t.stack, r.s.calls, j);
    SameMod(Total(r.t, j), At(r.s.owed, j, 0));
  }

  /** What the open calls of a jCC have cost so far. */
  function Spent(calls: seq<Call>, cost: ULong, j: nat): int {
    if calls == [] then 0
    else
      var n := |calls| - 1;
      Spent(calls[..n], cost, j) + (if calls[n].jcc == Some(j) then cost - calls[n].first else 0)
  }

  ghost predicate Current(stack: seq<Frame>, k: nat, cost: ULong) {
    forall i :: 0 <= i < k <= |stack| && stack[i].jcc.Some? ==> stack[i].enter == cost
  }

  lemma {:induction false} AddDiffsCurrent(t: Thread, k: nat)
    requires k <= |t.stack|
    ensures AddDiffs(t, k).cost == t.cost && Current(AddDiffs(t, k).stack, k, t.cost)
  {
    if k > 0 {
      AddDiffsCurrent(t, k - 1);
    }
  }

  lemma {:induction false} AllTaken(stack: seq<Frame>, calls: seq<Call>, cost: ULong, j: nat)
    requires |stack| == |calls| && Current(stack, |stack|, cost)
    requires forall k :: 0 <= k < |stack| ==> stack[k].jcc == calls[k].jcc
    ensures Taken(stack, calls, j) == Spent(calls, cost, j)
  {
    if stack != [] {
      AllTaken(stack[..|stack| - 1], calls[..|stack| - 1], cost, j);
    }
  }

  lemma BalancedMod(t: Thread, s: Ideal, j: nat)
    requires |t.stack| == |s.calls| && Balanced(t, s, j)
    ensures Total(t, j) % ULONG == (At(s.owed, j, 0) + Taken(t.stack, s.calls, j)) % ULONG
  {
    hide Total, At, Taken;
    SameMod(Total(t, j), At(s.owed, j, 0) + Taken(t.stack, s.calls, j));
  }

  lemma SeesOpenCalls(t: Thread, s: Ideal, j: nat)
    requires Same(t, s) && Balanced(t, s, j)
    ensures Total(Step(t, AddActive), j) % ULONG == (At(s.owed, j, 0) + Spent(s.calls, s.cost, j)) % ULONG
  {
    hide AddDiffs, Total, At, Taken, Spent, Balanced;
    AddDiffsKeep(t, s, |t.stack|, j);
    var t' := Step(t, AddActive);
    AddDiffsCurrent(t, |t.stack|);
    AllTaken(t'.stack, s.calls, s.cost, j);
    BalancedMod(t', s, j);
  }

  /** What a dump reports includes what the calls that are still open have cost until then. */
  lemma DumpSeesOpenCalls(ops: seq<Op>, j: nat)
    requires RunOf(ops).ok
    ensures var r := RunOf(ops);
      Total(Step(r.t, AddActive), j) % ULONG == (At(r.s.owed, j, 0) + Spent(r.s.calls, r.s.cost, j)) % ULONG
  {
    hide *;
    RunKeeps(ops, j);
    var r := RunOf(ops);
    SeesOpenCalls(r.t, r.s, j);
  }

  /** A call that is made up for a return, and returned from at once, has cost what was spent since the last dump; in a
      handler, all that has been spent in it. */
  lemma UnderflowCharges(t: Thread, j: nat, inHandler: bool)
    ensures Can(Step(t, PushUnderflow(Some(j), inHandler)), Pop)
    ensures var r, since := Step(Step(t, PushUnderflow(Some(j), inHandler)), Pop), if inHandler then t.cost as int else t.cost - t.lastDump;
      && r.stack == t.stack && (At(r.sums, j, 0) - At(t.sums, j, 0) - since) % ULONG == 0
      && forall k :: k != j ==> At(r.sums, k, 0) == At(t.sums, k, 0)
  {
    var u := Step(t, PushUnderflow(Some(j), inHandler));
    var f := u.stack[|u.stack| - 1];
    assert u.stack[..|u.stack| - 1] == t.stack;
    assert u.stack[|u.stack| - 1 := f.(enter := t.cost)][..|u.stack| - 1] == t.stack;
    hide PlusDiff;
    assert At(Step(u, Pop).sums, j, 0) == PlusDiff(At(t.sums, j, 0), f.enter, t.cost);
  }
}
