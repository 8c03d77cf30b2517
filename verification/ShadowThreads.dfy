/**
 Thread switches (`threads.c`, `switch_thread`), with costs kept apart per thread: what a
 thread has on its stacks changes only while it runs.
*/
module ShadowThreads {
  import opened Common
  import opened ShadowModel
  import opened ShadowProof

  /** The current thread and the data of those that have run before. */
  datatype World = World(tid: nat, cur: State, saved: map<nat, State>)

  /** Saves the current thread and loads another one, which is new if it has not run before. */
  function Switch(c: Conf, w: World, tid: nat): World
    requires w.cur.states != []
  {
    if tid == w.tid then w
    else
      var saved := w.saved[w.tid := Save(w.cur)];
      var t := if tid in saved then saved[tid] else Init(c);
      World(tid, if t.states != [] then Restore(t) else t, saved)
  }

  datatype Event = To(tid: nat) | Does(op: Op)

  ghost predicate Legal(c: Conf, w: World, es: seq<Event>)
    decreases |es|
  {
    w.cur.states != [] && w.cur.fns != []
    && (es != [] ==> (es[0].Does? ==> Enabled(w.cur, es[0].op)) && Legal(c, Happens(c, w, es[0]), es[1..]))
  }

  function Happens(c: Conf, w: World, e: Event): World
    requires w.cur.states != [] && w.cur.fns != [] && (e.Does? ==> Enabled(w.cur, e.op))
  {
    match e
    case To(tid) => Switch(c, w, tid)
    case Does(op) => w.(cur := Step(c, w.cur, op))
  }

  ghost function After(c: Conf, w: World, es: seq<Event>): World
    requires Legal(c, w, es)
    decreases |es|
  {
    if es == [] then w else After(c, Happens(c, w, es[0]), es[1..])
  }

  /** Thread `tid` does nothing itself. */
  ghost predicate Idle(c: Conf, w: World, es: seq<Event>, tid: nat)
    requires Legal(c, w, es)
    decreases |es|
  {
    es != [] ==> (es[0].Does? ==> w.tid != tid) && Idle(c, Happens(c, w, es[0]), es[1..], tid)
  }

  /** What thread `tid` will find when it runs next, or would find if it ran again. */
  function Found(c: Conf, w: World, tid: nat): State
    requires w.cur.states != []
  {
    if tid == w.tid then Restore(Save(w.cur)) else Switch(c, w, tid).cur
  }

  /** Saving and restoring gives the state back, with a copy of the current state on the stack of
      execution states. */
  lemma SaveRestore(s: State)
    requires Inv(s, false)
    ensures Restore(Save(s)) == s.(states := Save(s).states) && Save(s).states == Front(s.states) + [s.cur]
  {
  }

  /** However often and by whatever others it is interrupted, a thread that did nothing itself continues
      where it was. */
  lemma {:induction false} OthersLeaveAlone(c: Conf, w: World, es: seq<Event>, tid: nat)
    requires Legal(c, w, es) && Idle(c, w, es, tid)
    ensures After(c, w, es).cur.states != [] && Found(c, After(c, w, es), tid) == Found(c, w, tid)
    decreases |es|
  {
    if es != [] {
      var w' := Happens(c, w, es[0]);
      if w'.tid == tid != w.tid {
        var t := if tid in w.saved then w.saved[tid] else Init(c);
        LoadedStays(t);
      }
      OthersLeaveAlone(c, w', es[1..], tid);
    }
  }

  lemma LoadedStays(t: State)
    ensures t.states != [] ==> Restore(Save(Restore(t))) == Restore(t)
  {
    if t.states != [] {
      assert Save(Restore(t)).states == t.states;
    }
  }
}
