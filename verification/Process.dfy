/**
 One thread of the program: its defer stack and its resources, in a fixed
 environment, and the opening and closing code of the `edf_func` macros.
 */
module Process {
  import opened Effects
  import opened Wrappers
  import opened DeferTrees
  import opened World
  import M = DeferMachine
  import DeferStack
  import DeferScopes
  import DeferRefinement
  import DeferTheorems

  // ---- run_defers on handlers that each perform one effect ----

  predicate AllSimple(l: seq<Entry>) {
    forall i | 0 <= i < |l| :: Simple(l[i])
  }

  lemma {:induction false} SimpleIsPlain(l: seq<Entry>)
    requires AllSimple(l)
    ensures DeferTheorems.AllPlain(l) && DeferRefinement.AllCallsClean(l)
  {
    forall e | e in l
      ensures DeferScopes.NonRegistering(e.h) && DeferTheorems.PlainHandlers(e.h) && DeferScopes.CallsClean(e.h)
    {
      var i :| 0 <= i < |l| && l[i] == e;
      assert Simple(l[i]);
    }
  }

  lemma {:induction false} SimpleBody(e: Entry, depth: int)
    requires Simple(e)
    ensures DeferScopes.BodyTrace(e.h, ArgOf(e), depth) == [Did(e.h.op, ArgOf(e))]
    ensures DeferScopes.CallsFit(e.h, depth)
    ensures forall k :: DeferScopes.Own(k, e.h) == []
  {
    assert e.h == Prog.Emit(e.h.op, Nil);
  }

  lemma {:induction false} SimpleRun(k: Kind, l: seq<Entry>, depth: int, w: World, code: int)
    requires AllSimple(l)
    ensures Replay(w, DeferScopes.RunTrace(k, l, depth)) == Unwound(w, l)
    ensures ErrAfter(code, DeferScopes.RunTrace(k, l, depth)) == code
    ensures DeferScopes.RunCallsFit(k, l, depth)
    decreases |l|
  {
    if l != [] {
      var e, front := l[|l| - 1], l[..|l| - 1];
      var step := [Ran(e), Did(e.h.op, ArgOf(e))];
      SimpleBody(e, depth);
      SimpleRun(k, front, depth, Apply(w, e.h.op, ArgOf(e)), code);
      assert [Ran(e)] + [Did(e.h.op, ArgOf(e))] + [] == step;
      assert DeferScopes.RunTrace(k, l, depth) == step + DeferScopes.RunTrace(k, front, depth);
      ReplayConcat(w, step, DeferScopes.RunTrace(k, front, depth));
      ErrAfterConcat(code, step, DeferScopes.RunTrace(k, front, depth));
      StepEffect(w, e, code);
    }
  }

  lemma {:induction false} StepEffect(w: World, e: Entry, code: int)
    requires Simple(e)
    ensures var step := [Ran(e), Did(e.h.op, ArgOf(e))];
      Replay(w, step) == Apply(w, e.h.op, ArgOf(e)) && ErrAfter(code, step) == code
  {
    var step := [Ran(e), Did(e.h.op, ArgOf(e))];
    assert step[..1] == [Ran(e)];
    assert [Ran(e)][..0] == [];
    assert Replay(w, [Ran(e)]) == w && ErrAfter(code, [Ran(e)]) == code;
    assert Replay(w, step) == OnEvent(Replay(w, step[..1]), step[1]);
    assert ErrAfter(code, step) == ErrAfter(code, step[..1]);
  }

  /** The state when `l` has been drained: the rest of the frame stays. */
  ghost function Drained(k: Kind, st: M.State, l: seq<Entry>, o: seq<Entry>, used: nat): M.State
    requires 0 <= st.curr < |st.frames|
  {
    M.State(st.frames[st.curr := DeferRefinement.Make(k, [], o, used)], st.curr, st.err,
            st.trace + DeferScopes.RunTrace(k, l, st.curr))
  }

  lemma {:induction false} SimpleDrain(k: Kind, st: M.State, l: seq<Entry>, o: seq<Entry>, used: nat)
    requires M.Wf(st) && 0 <= st.curr && DeferRefinement.EmptyAbove(st)
    requires st.Top() == DeferRefinement.Make(k, l, o, used) && AllSimple(l)
    ensures M.Drain(k, st) == M.Done(Drained(k, st, l, o, used))
  {
    SimpleIsPlain(l);
    DeferRefinement.DrainMeets(k, st, l, o, used);
    DeferTheorems.PlainRun(k, l, st.curr);
    DeferTheorems.PlainRoom(k, l);
    SimpleRun(k, l, st.curr, World(map[], 0, {}, false), st.err);
    SimpleDrainOutcome(k, st, l, o, used, M.Drain(k, st));
  }

  lemma {:induction false} SimpleDrainOutcome(
    k: Kind, st: M.State, l: seq<Entry>, o: seq<Entry>, used: nat, x: M.Outcome)
    requires M.Wf(st) && 0 <= st.curr && st.Top() == DeferRefinement.Make(k, l, o, used)
    requires DeferScopes.Side(k, l) == [] && DeferScopes.RunBytes(k, l) == 0
    requires DeferScopes.Room(k, l, 0) <==> |l| <= Cap(k)
    requires DeferScopes.RunCallsFit(k, l, st.curr)
    requires ErrAfter(st.err, DeferScopes.RunTrace(k, l, st.curr)) == st.err
    requires x == DeferRefinement.DrainOutcome(k, st, l, o, used)
    ensures x == M.Done(Drained(k, st, l, o, used))
  {
    hide DeferScopes.RunTrace, DeferScopes.Room, DeferScopes.Side, DeferScopes.RunBytes, DeferScopes.RunCallsFit, ErrAfter;
    assert o + [] == o;
  }

  /** run_defers then empties the frame, keeps the error code, and performs the
      statics' effects and then the dynamics', the last registered first. */
  lemma {:induction false} SimpleRunDefers(st: M.State, w: World)
    requires M.Wf(st) && 0 <= st.curr && DeferRefinement.EmptyAbove(st)
    requires AllSimple(st.Top().stat) && AllSimple(st.Top().dyn)
    ensures
      var x := M.RunDefers(st);
      && x.Done?
      && x.st.frames == st.frames[st.curr := M.EMPTY] && x.st.curr == st.curr && x.st.err == st.err
      && |st.trace| <= |x.st.trace| && x.st.trace[..|st.trace|] == st.trace
      && Replay(w, x.st.trace[|st.trace|..]) == Unwound(Unwound(w, st.Top().stat), st.Top().dyn)
  {
    var f := st.Top();
    var s, d := DeferScopes.RunTrace(S, f.stat, st.curr), DeferScopes.RunTrace(D, f.dyn, st.curr);
    SimpleRunDefersState(st);
    Suffix(st.trace, s + d);
    SimpleRun(S, f.stat, st.curr, w, 0);
    SimpleRun(D, f.dyn, st.curr, Unwound(w, f.stat), 0);
    ReplayConcat(w, s, d);
  }

  lemma Suffix<T>(a: seq<T>, b: seq<T>)
    ensures (a + b)[..|a|] == a && (a + b)[|a|..] == b
  {
  }

  lemma {:induction false} SimpleRunDefersState(st: M.State)
    requires M.Wf(st) && 0 <= st.curr && DeferRefinement.EmptyAbove(st)
    requires AllSimple(st.Top().stat) && AllSimple(st.Top().dyn)
    ensures
      var f := st.Top();
      M.RunDefers(st) == M.Done(M.State(
        st.frames[st.curr := M.EMPTY], st.curr, st.err,
        st.trace + (DeferScopes.RunTrace(S, f.stat, st.curr) + DeferScopes.RunTrace(D, f.dyn, st.curr))))
  {
    hide M.Exec, M.Drain, M.TotalWeight, DeferScopes.RunTrace, Simple;
    var f := st.Top();
    SimpleDrain(S, st, f.stat, f.dyn, f.used);
    var st1 := Drained(S, st, f.stat, f.dyn, f.used);
    var st2 := M.ResetPool(st1);
    assert st2.frames == st.frames[st.curr := M.Frame([], f.dyn, 0)];
    SimpleDrain(D, st2, f.dyn, [], 0);
    var st3 := Drained(D, st2, f.dyn, [], 0);
    assert st3.frames == st.frames[st.curr := M.EMPTY];
    DeferRefinement.Assoc2(st.trace, DeferScopes.RunTrace(S, f.stat, st.curr), DeferScopes.RunTrace(D, f.dyn, st.curr));
  }

  /** What opendir finds at a path. */
  datatype Opened = Listing(names: seq<string>) | Refused(errno: int)

  /** Leaving a frame as empty as it was found. */
  lemma FrameBack(vs: seq<M.Frame>, i: nat, f: M.Frame)
    requires i < |vs| && vs[i] == M.EMPTY
    ensures vs[i := f][i := M.EMPTY] == vs && vs[i := M.EMPTY] == vs
  {
  }

  class Process {
    const stack: DeferStack.Stack
    var world: World
    // The environment.
    const wordexp: string -> Option<string>     // the first word of an expansion that succeeds
    const cwd: string
    var entries: seq<string>                    // the entries of the one directory there is
    const openErrno: string -> int              // 0 for a path that opens it, else what errno is set to
    const fileAt: string -> Option<string>      // the entry of the directory a path names
    const loadable: string -> Option<Module>    // what loading the file at a path gives
    const stuck: set<string>                    // entries that cannot be removed
    const exhausted: int -> bool                // whether emalloc fails when its block would be at an address

    ghost predicate Valid()
      reads this, stack, stack.Repr
      ensures Valid() ==> -1 <= stack.curr < STACK_SIZE == |stack.views| && this !in stack.Repr
    {
      && this !in stack.Repr && stack !in stack.Repr
      && stack.Valid()
      && DeferRefinement.EmptyAbove(stack.Abs())
    }

    constructor (wordexp: string -> Option<string>, cwd: string, entries: seq<string>,
                 openErrno: string -> int, fileAt: string -> Option<string>, loadable: string -> Option<Module>,
                 stuck: set<string>, exhausted: int -> bool)
      ensures Valid() && stack.curr == -1 && stack.err == 0 && world == World(map[], 1, {}, false)
      ensures this.wordexp == wordexp && this.cwd == cwd && this.entries == entries
      ensures this.openErrno == openErrno && this.fileAt == fileAt && this.loadable == loadable && this.stuck == stuck
      ensures this.exhausted == exhausted
      ensures fresh(stack) && fresh(stack.Repr)
    {
      stack := new DeferStack.Stack();
      world := World(map[], 1, {}, false);
      this.wordexp, this.cwd, this.entries := wordexp, cwd, entries;
      this.openErrno, this.fileAt, this.loadable, this.stuck := openErrno, fileAt, loadable, stuck;
      this.exhausted := exhausted;
    }

    ghost function Top(): M.Frame
      requires Valid() && 0 <= stack.curr
      reads this, stack, stack.Repr
    {
      stack.views[stack.curr]
    }

    /** An effect of the running code. */
    method Do(op: Op, arg: Arg)
      requires Valid()
      modifies this`world, stack`trace
      ensures Valid() && world == Apply(old(world), op, arg)
    {
      stack.Emit(op, arg);
      world := Apply(world, op, arg);
    }

    method SetError(code: int)
      requires Valid()
      modifies stack`err, stack`trace
      ensures Valid() && stack.err == code
    {
      stack.SetError(code);
    }

    /** defer of a handler that performs `op`. */
    method Defer(op: Op, p: int) returns (ok: bool)
      requires Valid() && 0 <= stack.curr
      modifies stack, stack.Repr
      ensures ok ==> Valid() && stack.curr == old(stack.curr) && stack.err == old(stack.err)
      ensures ok == (|old(Top()).dyn| < MAX_DYN_DEFERS)
      ensures ok ==> stack.views == old(stack.views)[stack.curr := M.Add(Dynamic(Emit(op, Nil), p), old(Top()))]
    {
      ok := stack.Defer(Emit(op, Nil), p);
    }

    /** static_defer of a handler that performs `op`. */
    method StaticDefer(op: Op, arg: seq<Byte>) returns (ok: bool)
      requires Valid() && 0 <= stack.curr
      modifies stack, stack.Repr
      ensures ok ==> Valid() && stack.curr == old(stack.curr) && stack.err == old(stack.err)
      ensures ok == M.CanAdd(Static(Emit(op, Nil), arg), old(Top()))
      ensures ok ==> stack.views == old(stack.views)[stack.curr := M.Add(Static(Emit(op, Nil), arg), old(Top()))]
    {
      ok := stack.StaticDefer(Emit(op, Nil), arg);
    }

    /** The opening of a wrapper: errm_clear, defer_push.  False where it aborts. */
    method Begin() returns (ok: bool)
      requires Valid()
      modifies stack
      ensures Valid() && ok == (old(stack.curr) < STACK_SIZE - 1) && stack.views == old(stack.views)
      ensures ok ==> stack.curr == old(stack.curr) + 1 && stack.err == 0 && stack.views[stack.curr] == M.EMPTY
    {
      stack.SetError(0);
      ok := stack.Push();
    }

    /** The closing of a wrapper: run_defers, defer_pop. */
    method End() returns (ok: bool)
      requires Valid() && 0 <= stack.curr && AllSimple(Top().stat) && AllSimple(Top().dyn)
      modifies this`world, stack, stack.Repr
      ensures ok && Valid() && stack.curr == old(stack.curr) - 1 && stack.err == old(stack.err)
      ensures stack.views == old(stack.views)[old(stack.curr) := M.EMPTY]
      ensures world == Unwound(Unwound(old(world), old(Top()).stat), old(Top()).dyn)
    {
      hide M.RunDefers, Unwound, Replay, AllSimple;
      var n := |stack.trace|;
      SimpleRunDefers(stack.Abs(), world);
      ok := stack.RunDefers();
      world := Replay(world, stack.trace[n..]);
      ok := stack.Pop();
    }
  }
}
