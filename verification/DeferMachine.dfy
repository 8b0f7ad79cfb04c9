/**
 The defer stack of src/errm as a function on values: twelve frames, each with
 its two tables and its pool use, and the index of the current frame.  The class
 in DeferStack.dfy is proved against these functions.
 */
module DeferMachine {
  import opened DeferTrees

  datatype Frame = Frame(stat: seq<Entry>, dyn: seq<Entry>, used: nat) {
    function Pending(k: Kind): seq<Entry> {
      if k == S then stat else dyn
    }

    function WithPending(k: Kind, l: seq<Entry>): Frame {
      if k == S then this.(stat := l) else this.(dyn := l)
    }
  }

  const EMPTY := Frame([], [], 0)

  datatype State = State(frames: seq<Frame>, curr: int, err: int, trace: seq<Event>) {
    function Top(): Frame
      requires 0 <= curr < |frames|
    {
      frames[curr]
    }

    function WithTop(f: Frame): State
      requires 0 <= curr < |frames|
    {
      this.(frames := frames[curr := f])
    }

    function Log(e: Event): State {
      this.(trace := trace + [e])
    }

    function SetError(code: int): State {
      this.(err := code, trace := trace + [ErrSet(code)])
    }
  }

  /** `abort()` ends the process: no state follows it. */
  datatype Outcome = Abort | Done(st: State)

  predicate FrameOk(f: Frame) {
    && |f.stat| <= MAX_STATIC_DEFERS
    && |f.dyn| <= MAX_DYN_DEFERS
    && f.used <= POOL_SIZE
  }

  predicate Wf(st: State) {
    && |st.frames| == STACK_SIZE
    && -1 <= st.curr < STACK_SIZE
    && forall i | 0 <= i < STACK_SIZE :: FrameOk(st.frames[i])
  }

  /** Total size of the handler trees waiting in any frame. */
  function TotalWeight(fs: seq<Frame>): nat {
    if fs == [] then 0
    else TotalWeight(fs[..|fs| - 1]) + Weight(fs[|fs| - 1].stat) + Weight(fs[|fs| - 1].dyn)
  }

  lemma {:induction false} TotalWeightUpdate(fs: seq<Frame>, i: nat, f: Frame)
    requires i < |fs|
    ensures TotalWeight(fs[i := f]) ==
            TotalWeight(fs) - Weight(fs[i].stat) - Weight(fs[i].dyn) + Weight(f.stat) + Weight(f.dyn)
    decreases |fs|
  {
    var n := |fs| - 1;
    if i == n {
      assert fs[i := f][..n] == fs[..n];
    } else {
      assert fs[i := f][..n] == fs[..n][i := f];
      TotalWeightUpdate(fs[..n], i, f);
    }
  }

  /** The frame once `e` is in its table; a static's bytes also take pool space. */
  function Add(e: Entry, f: Frame): Frame {
    match e
    case Static(_, bytes) => Frame(f.stat + [e], f.dyn, f.used + |bytes|)
    case Dynamic(_, _) => Frame(f.stat, f.dyn + [e], f.used)
  }

  predicate CanAdd(e: Entry, f: Frame) {
    match e
    case Static(_, bytes) => |f.stat| < MAX_STATIC_DEFERS && f.used + |bytes| <= POOL_SIZE
    case Dynamic(_, _) => |f.dyn| < MAX_DYN_DEFERS
  }

  lemma {:induction false} AddWeight(e: Entry, st: State)
    requires 0 <= st.curr < |st.frames|
    ensures TotalWeight(st.WithTop(Add(e, st.Top())).frames) == TotalWeight(st.frames) + 1 + Size(e.h)
  {
    var f := st.Top();
    WeightConcat(f.stat, [e]);
    WeightConcat(f.dyn, [e]);
    assert Weight([e]) == 1 + Size(e.h);
    TotalWeightUpdate(st.frames, st.curr, Add(e, f));
  }

  /** defer and static_defer: refuse when the table or the pool is full. */
  function Register(e: Entry, st: State): (r: Outcome)
    requires Wf(st) && 0 <= st.curr
    ensures r.Done? ==>
      && Wf(r.st) && r.st.curr == st.curr
      && TotalWeight(r.st.frames) == TotalWeight(st.frames) + 1 + Size(e.h)
  {
    if CanAdd(e, st.Top()) then
      AddWeight(e, st);
      Done(st.WithTop(Add(e, st.Top())).Log(Registered(e)))
    else Abort
  }

  /** Run `p` in the current frame. */
  function Exec(p: Prog, arg: Arg, st: State): (r: Outcome)
    requires Wf(st) && 0 <= st.curr
    ensures r.Done? ==>
      && Wf(r.st) && r.st.curr == st.curr
      && TotalWeight(r.st.frames) <= TotalWeight(st.frames) + Size(p)
    decreases TotalWeight(st.frames) + Size(p), 0
  {
    match p
    case Nil => Done(st)
    case Emit(op, next) => Exec(next, arg, st.Log(Did(op, arg)))
    case SetErr(code, next) => Exec(next, arg, st.SetError(code))
    case Defer(h, v, next) =>
      (match Register(Dynamic(h, v), st)
       case Abort => Abort
       case Done(s) => Exec(next, arg, s))
    case StaticDefer(h, bytes, next) =>
      (match Register(Static(h, bytes), st)
       case Abort => Abort
       case Done(s) => Exec(next, arg, s))
    case Call(body, next) =>
      (match Wrapped(body, arg, st)
       case Abort => Abort
       case Done(s) => Exec(next, arg, s))
  }

  /** What a wrapper does before the body: errm_clear and defer_push. */
  function Push(st: State): State
    requires Wf(st) && st.curr < STACK_SIZE - 1
  {
    var s := st.SetError(0).(curr := st.curr + 1);
    s.Log(Enter(s.curr, |s.Top().stat|, |s.Top().dyn|, s.Top().used))
  }

  /** What it does last: defer_pop. */
  function Leaving(st: State): State
    requires Wf(st) && 0 <= st.curr
  {
    var f := st.Top();
    st.Log(Leave(st.curr, |f.stat|, |f.dyn|, f.used)).(curr := st.curr - 1)
  }

  /** An `edf_func` wrapper around `body`: clear the error, push, run the body,
      run the defers, pop. */
  function Wrapped(body: Prog, arg: Arg, st: State): (r: Outcome)
    requires Wf(st)
    ensures r.Done? ==>
      && Wf(r.st) && r.st.curr == st.curr
      && TotalWeight(r.st.frames) <= TotalWeight(st.frames) + Size(body)
    decreases TotalWeight(st.frames) + Size(body), 3
  {
    if st.curr >= STACK_SIZE - 1 then Abort
    else
      match Exec(body, arg, Push(st))
      case Abort => Abort
      case Done(s) =>
        match RunDefers(s)
        case Abort => Abort
        case Done(r) => Done(Leaving(r))
  }

  /** run_defers: drain the static table, reset the pool, drain the dynamic table. */
  function RunDefers(st: State): (r: Outcome)
    requires Wf(st) && 0 <= st.curr
    ensures r.Done? ==>
      && Wf(r.st) && r.st.curr == st.curr
      && TotalWeight(r.st.frames) <= TotalWeight(st.frames)
    decreases TotalWeight(st.frames), 2
  {
    match Drain(S, st)
    case Abort => Abort
    case Done(s) =>
      TotalWeightUpdate(s.frames, s.curr, s.Top().(used := 0));
      Drain(D, ResetPool(s))
  }

  function ResetPool(st: State): State
    requires 0 <= st.curr < |st.frames|
  {
    st.WithTop(st.Top().(used := 0))
  }

  /** The last entry leaves the table and starts to run. */
  function Pop(k: Kind, st: State): State
    requires 0 <= st.curr < |st.frames| && st.Top().Pending(k) != []
  {
    var l := st.Top().Pending(k);
    st.WithTop(st.Top().WithPending(k, l[..|l| - 1])).Log(Ran(l[|l| - 1]))
  }

  lemma {:induction false} PopWeight(k: Kind, st: State)
    requires 0 <= st.curr < |st.frames| && st.Top().Pending(k) != []
    ensures var l := st.Top().Pending(k);
            TotalWeight(Pop(k, st).frames) == TotalWeight(st.frames) - 1 - Size(l[|l| - 1].h)
  {
    var l := st.Top().Pending(k);
    TotalWeightUpdate(st.frames, st.curr, st.Top().WithPending(k, l[..|l| - 1]));
  }

  /** One loop of run_defers: pop the last entry, run it, until the table is
      empty.  Handlers may add entries; the total size still falls at each pop. */
  function Drain(k: Kind, st: State): (r: Outcome)
    requires Wf(st) && 0 <= st.curr
    ensures r.Done? ==>
      && Wf(r.st) && r.st.curr == st.curr
      && TotalWeight(r.st.frames) <= TotalWeight(st.frames)
    decreases TotalWeight(st.frames), 1
  {
    var l := st.Top().Pending(k);
    if l == [] then Done(st)
    else
      var e := l[|l| - 1];
      PopWeight(k, st);
      match Exec(e.h, ArgOf(e), Pop(k, st))
      case Abort => Abort
      case Done(s) => Drain(k, s)
  }
}
