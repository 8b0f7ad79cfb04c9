/**
 The machine refines the scope semantics: same observations, same error code,
 the frames as the trees say, and an abort exactly when a capacity is exceeded.
 */
module DeferRefinement {
  import opened DeferTrees
  import opened DeferMachine
  import opened DeferScopes

  // ---- How the scope functions split over concatenation: the tables are stacks ----

  lemma Assoc<T>(o: seq<T>, a: seq<T>, b: seq<T>, c: seq<T>)
    ensures o + (a + b + c) == o + a + (b + c)
  {
  }

  lemma {:induction false} Prefix(a: seq<Entry>, b: seq<Entry>)
    requires b != []
    ensures (a + b)[..|a + b| - 1] == a + b[..|b| - 1]
    ensures (a + b)[|a + b| - 1] == b[|b| - 1]
  {
  }

  lemma {:induction false} RunTraceConcat(k: Kind, a: seq<Entry>, b: seq<Entry>, depth: int)
    ensures RunTrace(k, a + b, depth) == RunTrace(k, b, depth) + RunTrace(k, a, depth)
    decreases |b|
  {
    if b == [] {
      assert a + b == a;
    } else {
      Prefix(a, b);
      RunTraceConcat(k, a, b[..|b| - 1], depth);
    }
  }

  lemma {:induction false} SideConcat(k: Kind, a: seq<Entry>, b: seq<Entry>)
    ensures Side(k, a + b) == Side(k, b) + Side(k, a)
    decreases |b|
  {
    if b == [] {
      assert a + b == a;
    } else {
      Prefix(a, b);
      SideConcat(k, a, b[..|b| - 1]);
    }
  }

  lemma {:induction false} RunBytesConcat(k: Kind, a: seq<Entry>, b: seq<Entry>)
    ensures RunBytes(k, a + b) == RunBytes(k, a) + RunBytes(k, b)
    decreases |b|
  {
    if b == [] {
      assert a + b == a;
    } else {
      Prefix(a, b);
      RunBytesConcat(k, a, b[..|b| - 1]);
    }
  }

  lemma {:induction false} ByteCountConcat(a: seq<Entry>, b: seq<Entry>)
    ensures ByteCount(a + b) == ByteCount(a) + ByteCount(b)
    decreases |b|
  {
    if b == [] {
      assert a + b == a;
    } else {
      Prefix(a, b);
      ByteCountConcat(a, b[..|b| - 1]);
    }
  }

  lemma {:induction false} RunCallsFitConcat(k: Kind, a: seq<Entry>, b: seq<Entry>, depth: int)
    ensures RunCallsFit(k, a + b, depth) <==> RunCallsFit(k, a, depth) && RunCallsFit(k, b, depth)
    decreases |b|
  {
    if b == [] {
      assert a + b == a;
    } else {
      Prefix(a, b);
      RunCallsFitConcat(k, a, b[..|b| - 1], depth);
    }
  }

  lemma {:induction false} RoomConcat(k: Kind, a: seq<Entry>, b: seq<Entry>, base: nat)
    ensures Room(k, a + b, base) <==> Room(k, a, base) && Room(k, b, base + |a|)
    decreases |b|
  {
    if b == [] {
      assert a + b == a;
    } else {
      Prefix(a, b);
      RoomConcat(k, a, b[..|b| - 1], base);
    }
  }

  lemma RoomBound(k: Kind, l: seq<Entry>, base: nat)
    requires Room(k, l, base) && base <= Cap(k)
    ensures base + |l| <= Cap(k)
  {
  }

  lemma Snoc<T>(a: seq<T>, b: seq<T>)
    requires b != []
    ensures b[..|b| - 1] + [b[|b| - 1]] == b
    ensures a + b[..|b| - 1] + [b[|b| - 1]] == a + b
  {
  }

  // ---- The simulation ----

  /** Frames above the current one are empty. */
  ghost predicate EmptyAbove(st: State) {
    forall i | 0 <= i < |st.frames| && st.curr < i :: st.frames[i] == EMPTY
  }

  ghost predicate AllCallsClean(l: seq<Entry>) {
    forall e | e in l :: CallsClean(e.h)
  }

  /** `st` after observing `t` with `f` as the current frame. */
  ghost function After(st: State, f: Frame, t: seq<Event>): State
    requires 0 <= st.curr < |st.frames|
  {
    State(st.frames[st.curr := f], st.curr, ErrAfter(st.err, t), st.trace + t)
  }

  ghost predicate BodyFits(p: Prog, f: Frame, depth: int) {
    && |f.stat| + |Own(S, p)| <= MAX_STATIC_DEFERS
    && |f.dyn| + |Own(D, p)| <= MAX_DYN_DEFERS
    && f.used + ByteCount(Own(S, p)) <= POOL_SIZE
    && CallsFit(p, depth)
  }

  ghost function BodyFrame(p: Prog, f: Frame): Frame {
    Frame(f.stat + Own(S, p), f.dyn + Own(D, p), f.used + ByteCount(Own(S, p)))
  }

  /** The frame with `l` pending in table `k`, `o` in the other one. */
  ghost function Make(k: Kind, l: seq<Entry>, o: seq<Entry>, used: nat): Frame {
    if k == S then Frame(l, o, used) else Frame(o, l, used)
  }

  ghost predicate DrainFits(k: Kind, l: seq<Entry>, o: seq<Entry>, used: nat, depth: int) {
    && Room(k, l, 0)
    && |o + Side(k, l)| <= Cap(Other(k))
    && used + RunBytes(k, l) <= POOL_SIZE
    && RunCallsFit(k, l, depth)
  }

  ghost function DrainFrame(k: Kind, l: seq<Entry>, o: seq<Entry>, used: nat): Frame {
    Make(k, [], o + Side(k, l), used + RunBytes(k, l))
  }

  /** What a finished scope leaves in its frame. */
  ghost function Leftover(b: Prog): Frame {
    Frame(Leak(b), [], RunBytes(D, ScopeDyns(b)))
  }

  lemma {:induction false} AfterTwice(st: State, f: Frame, t: seq<Event>, g: Frame, u: seq<Event>)
    requires 0 <= st.curr < |st.frames|
    ensures After(After(st, f, t), g, u) == After(st, g, t + u)
  {
    ErrAfterConcat(st.err, t, u);
    assert st.trace + t + u == st.trace + (t + u);
  }

  lemma {:induction false} OwnCallsClean(k: Kind, p: Prog)
    requires CallsClean(p)
    ensures AllCallsClean(Own(k, p))
  {
    match p
    case Nil =>
    case Emit(_, next) => OwnCallsClean(k, next);
    case SetErr(_, next) => OwnCallsClean(k, next);
    case Defer(_, _, next) => OwnCallsClean(k, next);
    case StaticDefer(_, _, next) => OwnCallsClean(k, next);
    case Call(_, next) => OwnCallsClean(k, next);
  }

  lemma {:induction false} SideCallsClean(k: Kind, l: seq<Entry>)
    requires AllCallsClean(l)
    ensures AllCallsClean(Side(k, l))
    decreases Weight(l)
  {
    if l != [] {
      var h := l[|l| - 1].h;
      OwnWeight(k, h);
      OwnCallsClean(k, h);
      OwnCallsClean(Other(k), h);
      SideCallsClean(k, Own(k, h));
      SideCallsClean(k, l[..|l| - 1]);
    }
  }

  /** Nothing dynamic registers a static: then nothing leaks. */
  lemma {:induction false} CleanOwns(p: Prog, inDyn: bool)
    requires Clean(p, inDyn)
    ensures CallsClean(p)
    ensures inDyn ==> Own(S, p) == []
    ensures forall e | e in Own(S, p) :: Clean(e.h, false)
    ensures forall e | e in Own(D, p) :: Clean(e.h, true)
  {
    match p
    case Nil =>
    case Emit(_, next) => CleanOwns(next, inDyn);
    case SetErr(_, next) => CleanOwns(next, inDyn);
    case Defer(h, _, next) => CleanOwns(h, true); CleanOwns(next, inDyn);
    case StaticDefer(h, _, next) => CleanOwns(h, false); CleanOwns(next, inDyn);
    case Call(_, next) => CleanOwns(next, inDyn);
  }

  lemma {:induction false} BodyStep(p: Prog, e: Entry, next: Prog, f: Frame)
    requires p == (if e.Static? then StaticDefer(e.h, e.bytes, next) else Defer(e.h, e.p, next))
    ensures BodyFrame(p, f) == BodyFrame(next, Add(e, f))
    ensures ByteCount(Own(S, p)) == ByteCount(Own(S, next)) + (if e.Static? then |e.bytes| else 0)
  {
    if e.Static? {
      ByteCountConcat([e], Own(S, next));
      assert ByteCount([e]) == |e.bytes|;
      assert f.stat + [e] + Own(S, next) == f.stat + ([e] + Own(S, next));
    } else {
      assert f.dyn + [e] + Own(D, next) == f.dyn + ([e] + Own(D, next));
    }
  }

  lemma {:induction false} LogIsAfter(st: State, e: Event)
    requires 0 <= st.curr < |st.frames| && !e.ErrSet?
    ensures st.Log(e) == After(st, st.Top(), [e])
  {
    assert ErrAfter(st.err, [e]) == ErrAfter(st.err, [e][..0]);
  }

  // ---- What each machine function comes to ----

  ghost function BodyOutcome(p: Prog, arg: Arg, st: State, f: Frame): Outcome
    requires 0 <= st.curr < |st.frames|
  {
    if BodyFits(p, f, st.curr)
    then Done(After(st, BodyFrame(p, f), BodyTrace(p, arg, st.curr)))
    else Abort
  }

  ghost function DrainOutcome(k: Kind, st: State, l: seq<Entry>, o: seq<Entry>, used: nat): Outcome
    requires 0 <= st.curr < |st.frames|
  {
    if DrainFits(k, l, o, used, st.curr)
    then Done(After(st, DrainFrame(k, l, o, used), RunTrace(k, l, st.curr)))
    else Abort
  }

  ghost function ScopeOutcome(b: Prog, arg: Arg, st: State): Outcome
    requires Wf(st)
  {
    if ScopeFits(b, st.curr + 1) then Done(ScopeState(b, arg, st)) else Abort
  }

  /** The state after the call: only the frame it ran in may differ. */
  ghost function ScopeState(b: Prog, arg: Arg, st: State): State
    requires -1 <= st.curr < |st.frames| - 1
  {
    var t := ScopeTrace(b, arg, st.curr + 1);
    State(st.frames[st.curr + 1 := Leftover(b)], st.curr, ErrAfter(st.err, t), st.trace + t)
  }

  /** A first step that observes `t` and makes the frame `g`, then the rest. */
  lemma {:induction false} Chain(p: Prog, next: Prog, arg: Arg, st: State, f: Frame, g: Frame, t: seq<Event>)
    requires 0 <= st.curr < |st.frames|
    requires BodyFits(p, f, st.curr) <==> BodyFits(next, g, st.curr)
    requires BodyFrame(p, f) == BodyFrame(next, g)
    requires BodyTrace(p, arg, st.curr) == t + BodyTrace(next, arg, st.curr)
    ensures BodyOutcome(p, arg, st, f) == BodyOutcome(next, arg, After(st, g, t), g)
  {
    AfterTwice(st, g, t, BodyFrame(next, g), BodyTrace(next, arg, st.curr));
  }

  /** Running code in the current frame: it goes through exactly when the tables,
      the pool and its wrapped calls fit, and then registers what the tree says. */
  lemma {:induction false} ExecMeets(p: Prog, arg: Arg, st: State, f: Frame)
    requires Wf(st) && 0 <= st.curr && CallsClean(p) && EmptyAbove(st) && st.Top() == f
    ensures Exec(p, arg, st) == BodyOutcome(p, arg, st, f)
    decreases TotalWeight(st.frames) + Size(p), 0
  {
    match p
    case Nil => NilMeets(arg, st, f);
    case Emit(op, next) =>
      var e := Did(op, arg);
      LogIsAfter(st, e);
      Chain(p, next, arg, st, f, f, [e]);
      ExecMeets(next, arg, st.Log(e), f);
    case SetErr(code, next) =>
      SetErrorIsAfter(st, code);
      Chain(p, next, arg, st, f, f, [ErrSet(code)]);
      ExecMeets(next, arg, st.SetError(code), f);
    case Defer(h, v, next) => RegisterMeets(p, Dynamic(h, v), next, arg, st, f);
    case StaticDefer(h, bytes, next) => RegisterMeets(p, Static(h, bytes), next, arg, st, f);
    case Call(_, _) => ExecCallMeets(p, arg, st, f);
  }

  lemma {:induction false} NilMeets(arg: Arg, st: State, f: Frame)
    requires Wf(st) && 0 <= st.curr && st.Top() == f
    ensures Done(st) == BodyOutcome(Nil, arg, st, f)
  {
    assert st.frames[st.curr := f] == st.frames;
    assert BodyFrame(Nil, f) == f;
  }

  lemma {:induction false} SetErrorIsAfter(st: State, code: int)
    requires 0 <= st.curr < |st.frames|
    ensures st.SetError(code) == After(st, st.Top(), [ErrSet(code)])
  {
  }

  lemma {:induction false} RegisterMeets(p: Prog, e: Entry, next: Prog, arg: Arg, st: State, f: Frame)
    requires Wf(st) && 0 <= st.curr && CallsClean(p) && EmptyAbove(st) && st.Top() == f
    requires p == (if e.Static? then StaticDefer(e.h, e.bytes, next) else Defer(e.h, e.p, next))
    ensures Exec(p, arg, st) == BodyOutcome(p, arg, st, f)
    decreases TotalWeight(st.frames) + Size(p), 0, 0
  {
    var g := Add(e, f);
    BodyStep(p, e, next, f);
    match Register(e, st)
    case Abort =>
    case Done(s) =>
      LogIsAfter(st.WithTop(g), Registered(e));
      assert s == After(st, g, [Registered(e)]);
      Chain(p, next, arg, st, f, g, [Registered(e)]);
      ExecMeets(next, arg, s, g);
  }

  lemma {:induction false} ExecCallMeets(p: Prog, arg: Arg, st: State, f: Frame)
    requires Wf(st) && 0 <= st.curr && CallsClean(p) && EmptyAbove(st) && st.Top() == f && p.Call?
    ensures Exec(p, arg, st) == BodyOutcome(p, arg, st, f)
    decreases TotalWeight(st.frames) + Size(p), 0, 1
  {
    CleanOwns(p.body, false);
    WrappedMeets(p.body, arg, st);
    if ScopeFits(p.body, st.curr + 1) {
      ExecCallReturns(p, arg, st, f);
    } else {
      ExecCallAborts(p, arg, st, f);
    }
  }

  lemma {:induction false} ExecCallAborts(p: Prog, arg: Arg, st: State, f: Frame)
    requires Wf(st) && 0 <= st.curr && p.Call? && Wrapped(p.body, arg, st) == Abort
    requires !ScopeFits(p.body, st.curr + 1)
    ensures Exec(p, arg, st) == Abort == BodyOutcome(p, arg, st, f)
  {
    CallFits(p, st.curr);
  }

  lemma {:induction false} ExecCallReturns(p: Prog, arg: Arg, st: State, f: Frame)
    requires Wf(st) && 0 <= st.curr && CallsClean(p) && EmptyAbove(st) && st.Top() == f && p.Call?
    requires ScopeFits(p.body, st.curr + 1)
    requires Wrapped(p.body, arg, st) == ScopeOutcome(p.body, arg, st)
    ensures Exec(p, arg, st) == BodyOutcome(p, arg, st, f)
    decreases TotalWeight(st.frames) + Size(p), 0, 0
  {
    var s := After(st, f, ScopeTrace(p.body, arg, st.curr + 1));
    CallReturns(p, arg, st, f, Wrapped(p.body, arg, st));
    assert Exec(p, arg, st) == Exec(p.next, arg, s);
    ExecMeets(p.next, arg, s, f);
  }

  /** The state after a clean call that fits, and what is left to do there. */
  lemma {:induction false} CallReturns(p: Prog, arg: Arg, st: State, f: Frame, x: Outcome)
    requires Wf(st) && 0 <= st.curr && st.Top() == f && EmptyAbove(st)
    requires p.Call? && Clean(p.body, false) && ScopeFits(p.body, st.curr + 1)
    requires x == ScopeOutcome(p.body, arg, st)
    ensures
      var s := After(st, f, ScopeTrace(p.body, arg, st.curr + 1));
      && x == Done(s) && Wf(s) && s.Top() == f && EmptyAbove(s) && s.frames == st.frames
      && BodyOutcome(p, arg, st, f) == BodyOutcome(p.next, arg, s, f)
  {
    CleanReturns(p.body, arg, st);
    CallChain(p, arg, st, f);
    assert st.frames[st.curr := f] == st.frames;
  }

  lemma {:induction false} CallChain(p: Prog, arg: Arg, st: State, f: Frame)
    requires 0 <= st.curr < |st.frames| && p.Call? && ScopeFits(p.body, st.curr + 1)
    ensures BodyOutcome(p, arg, st, f)
         == BodyOutcome(p.next, arg, After(st, f, ScopeTrace(p.body, arg, st.curr + 1)), f)
  {
    CallFits(p, st.curr);
    Chain(p, p.next, arg, st, f, f, ScopeTrace(p.body, arg, st.curr + 1));
  }

  lemma {:induction false} CallFits(p: Prog, depth: int)
    requires p.Call?
    ensures CallsFit(p, depth) <==> ScopeFits(p.body, depth + 1) && CallsFit(p.next, depth)
  {
  }

  /** A clean call that fits puts every frame back. */
  lemma {:induction false} CleanReturns(b: Prog, arg: Arg, st: State)
    requires Wf(st) && 0 <= st.curr && Clean(b, false) && EmptyAbove(st)
    requires ScopeFits(b, st.curr + 1)
    ensures ScopeOutcome(b, arg, st) == Done(After(st, st.Top(), ScopeTrace(b, arg, st.curr + 1)))
    ensures EmptyAbove(ScopeOutcome(b, arg, st).st)
  {
    CleanLeaksNothing(b);
    PutBack(st.frames, st.curr + 1);
    PutBack(st.frames, st.curr);
  }

  lemma PutBack<T>(s: seq<T>, i: nat)
    requires i < |s|
    ensures s[i := s[i]] == s
  {
  }

  // ---- One pop of a drain: the last entry `e`, then the table without it ----

  lemma {:induction false} RunLast(k: Kind, l: seq<Entry>, e: Entry, depth: int)
    ensures Side(k, l + [e]) == Own(Other(k), e.h) + Side(k, Own(k, e.h)) + Side(k, l)
    ensures RunBytes(k, l + [e]) == ByteCount(Own(S, e.h)) + RunBytes(k, Own(k, e.h)) + RunBytes(k, l)
    ensures RunCallsFit(k, l + [e], depth) <==>
      CallsFit(e.h, depth) && RunCallsFit(k, Own(k, e.h), depth) && RunCallsFit(k, l, depth)
    ensures RunTrace(k, l + [e], depth) ==
      [Ran(e)] + BodyTrace(e.h, ArgOf(e), depth) + RunTrace(k, Own(k, e.h), depth) + RunTrace(k, l, depth)
  {
    Prefix(l, [e]);
    assert l + [e][..0] == l;
  }

  lemma {:induction false} BodyOfMake(k: Kind, h: Prog, l: seq<Entry>, o: seq<Entry>, used: nat)
    ensures BodyFrame(h, Make(k, l, o, used))
         == Make(k, l + Own(k, h), o + Own(Other(k), h), used + ByteCount(Own(S, h)))
  {
  }

  lemma {:induction false} PopSide(k: Kind, l: seq<Entry>, e: Entry, o: seq<Entry>)
    ensures o + Side(k, l + [e]) == o + Own(Other(k), e.h) + Side(k, l + Own(k, e.h))
  {
    RunLast(k, l, e, 0);
    SideConcat(k, l, Own(k, e.h));
    Assoc(o, Own(Other(k), e.h), Side(k, Own(k, e.h)), Side(k, l));
  }

  lemma {:induction false} PopBytes(k: Kind, l: seq<Entry>, e: Entry)
    ensures RunBytes(k, l + [e]) == ByteCount(Own(S, e.h)) + RunBytes(k, l + Own(k, e.h))
  {
    RunLast(k, l, e, 0);
    RunBytesConcat(k, l, Own(k, e.h));
  }

  lemma {:induction false} PopRoom(k: Kind, l: seq<Entry>, e: Entry)
    requires |l| < Cap(k)
    ensures Room(k, l + [e], 0) <==> Room(k, l + Own(k, e.h), 0)
    ensures Room(k, l + [e], 0) ==> |l + Own(k, e.h)| <= Cap(k)
  {
    Prefix(l, [e]);
    assert l + [e][..0] == l;
    RoomConcat(k, l, Own(k, e.h), 0);
    if Room(k, l + Own(k, e.h), 0) {
      RoomBound(k, l + Own(k, e.h), 0);
    }
  }

  lemma {:induction false} PopCalls(k: Kind, l: seq<Entry>, e: Entry, depth: int)
    ensures RunCallsFit(k, l + [e], depth) <==> CallsFit(e.h, depth) && RunCallsFit(k, l + Own(k, e.h), depth)
  {
    RunLast(k, l, e, depth);
    RunCallsFitConcat(k, l, Own(k, e.h), depth);
  }

  lemma {:induction false} PopFrame(k: Kind, l: seq<Entry>, e: Entry, o: seq<Entry>, used: nat)
    ensures DrainFrame(k, l + [e], o, used)
         == DrainFrame(k, l + Own(k, e.h), o + Own(Other(k), e.h), used + ByteCount(Own(S, e.h)))
  {
    PopSide(k, l, e, o);
    PopBytes(k, l, e);
  }

  lemma {:induction false} PopFits(k: Kind, l: seq<Entry>, e: Entry, o: seq<Entry>, used: nat, depth: int)
    requires |l| < Cap(k) && |o| <= Cap(Other(k)) && used <= POOL_SIZE
    ensures DrainFits(k, l + [e], o, used, depth) <==>
      && BodyFits(e.h, Make(k, l, o, used), depth)
      && DrainFits(k, l + Own(k, e.h), o + Own(Other(k), e.h), used + ByteCount(Own(S, e.h)), depth)
  {
    PopSide(k, l, e, o);
    PopBytes(k, l, e);
    PopRoom(k, l, e);
    PopCalls(k, l, e, depth);
    BodyFitsMake(k, e.h, l, o, used, depth);
  }

  lemma {:induction false} BodyFitsMake(k: Kind, h: Prog, l: seq<Entry>, o: seq<Entry>, used: nat, depth: int)
    ensures BodyFits(h, Make(k, l, o, used), depth) <==>
      && |l + Own(k, h)| <= Cap(k)
      && |o + Own(Other(k), h)| <= Cap(Other(k))
      && used + ByteCount(Own(S, h)) <= POOL_SIZE
      && CallsFit(h, depth)
  {
  }

  lemma {:induction false} PopTrace(k: Kind, l: seq<Entry>, e: Entry, depth: int)
    ensures RunTrace(k, l + [e], depth)
         == [Ran(e)] + BodyTrace(e.h, ArgOf(e), depth) + RunTrace(k, l + Own(k, e.h), depth)
  {
    RunLast(k, l, e, depth);
    RunTraceConcat(k, l, Own(k, e.h), depth);
  }

  /** One loop of run_defers: it drains the table depth first, whatever the
      handlers register, and aborts exactly when they overfill something. */
  lemma {:induction false} DrainMeets(k: Kind, st: State, l: seq<Entry>, o: seq<Entry>, used: nat)
    requires Wf(st) && 0 <= st.curr && AllCallsClean(l) && EmptyAbove(st)
    requires st.Top() == Make(k, l, o, used)
    ensures Drain(k, st) == DrainOutcome(k, st, l, o, used)
    decreases TotalWeight(st.frames), 1
  {
    if l == [] {
      NothingToDrain(k, st, o, used);
    } else {
      Snoc([], l);
      DrainPopMeets(k, st, l[..|l| - 1], l[|l| - 1], o, used);
    }
  }

  lemma {:induction false} NothingToDrain(k: Kind, st: State, o: seq<Entry>, used: nat)
    requires Wf(st) && 0 <= st.curr && st.Top() == Make(k, [], o, used)
    ensures Done(st) == DrainOutcome(k, st, [], o, used)
  {
    assert o + [] == o;
    assert st.frames[st.curr := st.Top()] == st.frames;
    assert |o| <= Cap(Other(k));
  }

  lemma {:induction false} DrainPopMeets(k: Kind, st: State, l: seq<Entry>, e: Entry, o: seq<Entry>, used: nat)
    requires Wf(st) && 0 <= st.curr && AllCallsClean(l + [e]) && EmptyAbove(st)
    requires st.Top() == Make(k, l + [e], o, used)
    ensures Drain(k, st) == DrainOutcome(k, st, l + [e], o, used)
    decreases TotalWeight(st.frames), 1, 1
  {
    AllCleanPop(k, l, e);
    DrainStepMeets(k, st, l, e, o, used);
    if BodyFits(e.h, Make(k, l, o, used), st.curr) {
      AfterPopFacts(k, st, l, e, o, used);
      DrainPopGoesOn(k, st, l, e, o, used, AfterPop(k, st, l, e, o, used),
                     l + Own(k, e.h), o + Own(Other(k), e.h), used + ByteCount(Own(S, e.h)));
    } else {
      DrainPopAborts(k, st, l, e, o, used);
    }
  }

  /** The rest of the drain, from the state `s` the handler left. */
  lemma {:induction false} DrainPopGoesOn(
    k: Kind, st: State, l: seq<Entry>, e: Entry, o: seq<Entry>, used: nat,
    s: State, l': seq<Entry>, o': seq<Entry>, used': nat)
    requires Wf(st) && 0 <= st.curr && Wf(s) && 0 <= s.curr
    requires |l| < Cap(k) && |o| <= Cap(Other(k)) && used <= POOL_SIZE
    requires BodyFits(e.h, Make(k, l, o, used), st.curr)
    requires s == AfterPop(k, st, l, e, o, used)
    requires l' == l + Own(k, e.h) && o' == o + Own(Other(k), e.h) && used' == used + ByteCount(Own(S, e.h))
    requires AllCallsClean(l') && EmptyAbove(s) && s.Top() == Make(k, l', o', used')
    requires TotalWeight(s.frames) < TotalWeight(st.frames) && Drain(k, st) == Drain(k, s)
    ensures Drain(k, st) == DrainOutcome(k, st, l + [e], o, used)
    decreases TotalWeight(st.frames), 1, 0
  {
    hide Exec, Drain, RunTrace, BodyTrace, Own, Side, AfterPop, DrainOutcome;
    DrainMeets(k, s, l', o', used');
    DrainPopChain(k, st, l, e, o, used, Drain(k, s));
  }

  lemma {:induction false} AllCleanPop(k: Kind, l: seq<Entry>, e: Entry)
    requires AllCallsClean(l + [e])
    ensures CallsClean(e.h) && AllCallsClean(l + Own(k, e.h))
  {
    assert e in l + [e];
    OwnCallsClean(k, e.h);
  }

  lemma {:induction false} AfterPopFacts(k: Kind, st: State, l: seq<Entry>, e: Entry, o: seq<Entry>, used: nat)
    requires 0 <= st.curr < |st.frames| && EmptyAbove(st)
    ensures
      var s := AfterPop(k, st, l, e, o, used);
      && s.curr == st.curr && |s.frames| == |st.frames| && EmptyAbove(s)
      && s.Top() == Make(k, l + Own(k, e.h), o + Own(Other(k), e.h), used + ByteCount(Own(S, e.h)))
  {
  }

  lemma {:induction false} DrainPopAborts(k: Kind, st: State, l: seq<Entry>, e: Entry, o: seq<Entry>, used: nat)
    requires 0 <= st.curr < |st.frames|
    requires |l| < Cap(k) && |o| <= Cap(Other(k)) && used <= POOL_SIZE
    requires !BodyFits(e.h, Make(k, l, o, used), st.curr)
    ensures DrainOutcome(k, st, l + [e], o, used) == Abort
  {
    PopFits(k, l, e, o, used, st.curr);
  }

  /** The state once the popped handler has run. */
  ghost function AfterPop(k: Kind, st: State, l: seq<Entry>, e: Entry, o: seq<Entry>, used: nat): State
    requires 0 <= st.curr < |st.frames|
  {
    var l', o', used' := l + Own(k, e.h), o + Own(Other(k), e.h), used + ByteCount(Own(S, e.h));
    After(After(st, Make(k, l, o, used), [Ran(e)]), Make(k, l', o', used'), BodyTrace(e.h, ArgOf(e), st.curr))
  }

  lemma {:induction false} DrainStepMeets(k: Kind, st: State, l: seq<Entry>, e: Entry, o: seq<Entry>, used: nat)
    requires Wf(st) && 0 <= st.curr && CallsClean(e.h) && EmptyAbove(st)
    requires st.Top() == Make(k, l + [e], o, used)
    ensures |l| < Cap(k) && |o| <= Cap(Other(k)) && used <= POOL_SIZE
    ensures !BodyFits(e.h, Make(k, l, o, used), st.curr) ==> Drain(k, st) == Abort
    ensures BodyFits(e.h, Make(k, l, o, used), st.curr) ==>
      var s := AfterPop(k, st, l, e, o, used);
      Wf(s) && TotalWeight(s.frames) < TotalWeight(st.frames) && Drain(k, st) == Drain(k, s)
    decreases TotalWeight(st.frames), 1, 0
  {
    DrainStep(k, st, l, e, o, used);
    BodyOfMake(k, e.h, l, o, used);
    var s0 := After(st, Make(k, l, o, used), [Ran(e)]);
    ExecMeets(e.h, ArgOf(e), s0, Make(k, l, o, used));
    if BodyFits(e.h, Make(k, l, o, used), st.curr) {
      PopOutcome(k, st, l, e, o, used, Exec(e.h, ArgOf(e), s0));
    }
  }

  lemma {:induction false} PopOutcome(
    k: Kind, st: State, l: seq<Entry>, e: Entry, o: seq<Entry>, used: nat, x: Outcome)
    requires 0 <= st.curr < |st.frames| && BodyFits(e.h, Make(k, l, o, used), st.curr)
    requires x == BodyOutcome(e.h, ArgOf(e), After(st, Make(k, l, o, used), [Ran(e)]), Make(k, l, o, used))
    ensures x == Done(AfterPop(k, st, l, e, o, used))
  {
    BodyOfMake(k, e.h, l, o, used);
  }

  lemma {:induction false} DrainPopChain(
    k: Kind, st: State, l: seq<Entry>, e: Entry, o: seq<Entry>, used: nat, x: Outcome)
    requires 0 <= st.curr < |st.frames|
    requires |l| < Cap(k) && |o| <= Cap(Other(k)) && used <= POOL_SIZE
    requires BodyFits(e.h, Make(k, l, o, used), st.curr)
    requires x == DrainOutcome(k, AfterPop(k, st, l, e, o, used),
                               l + Own(k, e.h), o + Own(Other(k), e.h), used + ByteCount(Own(S, e.h)))
    ensures x == DrainOutcome(k, st, l + [e], o, used)
  {
    hide RunTrace, BodyTrace, Own, Side, Room, RunBytes, RunCallsFit, CallsFit, ByteCount;
    var l', o', used' := l + Own(k, e.h), o + Own(Other(k), e.h), used + ByteCount(Own(S, e.h));
    PopFits(k, l, e, o, used, st.curr);
    PopFrame(k, l, e, o, used);
    PopTrace(k, l, e, st.curr);
    DrainChain(k, st, l + [e], o, used, Make(k, l, o, used), [Ran(e)], l', o', used',
               BodyTrace(e.h, ArgOf(e), st.curr));
  }

  /** What one turn of the loop does. */
  lemma {:induction false} DrainStep(k: Kind, st: State, l: seq<Entry>, e: Entry, o: seq<Entry>, used: nat)
    requires Wf(st) && 0 <= st.curr && st.Top() == Make(k, l + [e], o, used)
    ensures
      var s0 := After(st, Make(k, l, o, used), [Ran(e)]);
      && Wf(s0) && |l| < Cap(k) && |o| <= Cap(Other(k)) && used <= POOL_SIZE
      && TotalWeight(s0.frames) == TotalWeight(st.frames) - 1 - Size(e.h)
      && Drain(k, st) == match Exec(e.h, ArgOf(e), s0) case Abort => Abort case Done(s) => Drain(k, s)
  {
    PopIsAfter(k, st, l, e, o, used);
    PopWeight(k, st);
  }

  lemma {:induction false} PopIsAfter(k: Kind, st: State, l: seq<Entry>, e: Entry, o: seq<Entry>, used: nat)
    requires 0 <= st.curr < |st.frames| && st.Top() == Make(k, l + [e], o, used)
    ensures Pop(k, st) == After(st, Make(k, l, o, used), [Ran(e)])
    ensures st.Top().Pending(k) != [] && st.Top().Pending(k)[|st.Top().Pending(k)| - 1] == e
  {
    assert (l + [e])[..|l|] == l;
    LogIsAfter(st.WithTop(st.Top().WithPending(k, l)), Ran(e));
  }

  /** A drain told from a later state: `t` then `u` observed since. */
  lemma {:induction false} DrainChain(
    k: Kind, st: State, l: seq<Entry>, o: seq<Entry>, used: nat, p: Frame, t: seq<Event>,
    l': seq<Entry>, o': seq<Entry>, used': nat, u: seq<Event>)
    requires 0 <= st.curr < |st.frames|
    requires DrainFits(k, l, o, used, st.curr) <==> DrainFits(k, l', o', used', st.curr)
    requires DrainFrame(k, l, o, used) == DrainFrame(k, l', o', used')
    requires RunTrace(k, l, st.curr) == t + u + RunTrace(k, l', st.curr)
    ensures DrainOutcome(k, st, l, o, used)
         == DrainOutcome(k, After(After(st, p, t), Make(k, l', o', used'), u), l', o', used')
  {
    var g := Make(k, l', o', used');
    AfterTwice(st, p, t, g, u);
    AfterTwice(st, g, t + u, DrainFrame(k, l', o', used'), RunTrace(k, l', st.curr));
  }

  // ---- The wrapper: push, body, both drains, pop ----

  /** The frame the call runs in, nothing observed yet. */
  ghost function Base(st: State): State {
    st.(curr := st.curr + 1)
  }

  lemma {:induction false} PushIsAfter(st: State)
    requires Wf(st) && st.curr < STACK_SIZE - 1 && EmptyAbove(st)
    ensures Push(st) == After(Base(st), EMPTY, [ErrSet(0), Enter(st.curr + 1, 0, 0, 0)])
    ensures EmptyAbove(Push(st))
  {
    var e := Enter(st.curr + 1, 0, 0, 0);
    assert st.frames[st.curr + 1 := EMPTY] == st.frames;
    ErrAfterConcat(st.err, [ErrSet(0)], [e]);
    assert [ErrSet(0)] + [e] == [ErrSet(0), e];
    assert st.trace + [ErrSet(0)] + [e] == st.trace + [ErrSet(0), e];
    assert [e][..0] == [];
    assert ErrAfter(0, [e]) == 0;
  }

  lemma {:induction false} LeavingIsAfter(st: State, f: Frame, t: seq<Event>)
    requires Wf(st) && st.curr < STACK_SIZE - 1 && Wf(After(Base(st), f, t))
    ensures
      var u := t + [Leave(st.curr + 1, |f.stat|, |f.dyn|, f.used)];
      Leaving(After(Base(st), f, t)) == State(st.frames[st.curr + 1 := f], st.curr, ErrAfter(st.err, u), st.trace + u)
  {
    var e := Leave(st.curr + 1, |f.stat|, |f.dyn|, f.used);
    ErrAfterConcat(st.err, t, [e]);
    assert [e][..0] == [];
    assert st.trace + t + [e] == st.trace + (t + [e]);
  }

  /** run_defers on a frame holding what the body registered. */
  ghost predicate DefersFit(b: Prog, depth: int) {
    && DrainFits(S, Own(S, b), Own(D, b), ByteCount(Own(S, b)), depth)
    && DrainFits(D, ScopeDyns(b), [], 0, depth)
  }

  ghost function DefersTrace(b: Prog, depth: int): seq<Event> {
    RunTrace(S, Own(S, b), depth) + RunTrace(D, ScopeDyns(b), depth)
  }

  ghost function DefersOutcome(b: Prog, st: State): Outcome
    requires 0 <= st.curr < |st.frames|
  {
    if DefersFit(b, st.curr) then Done(After(st, Leftover(b), DefersTrace(b, st.curr))) else Abort
  }

  lemma {:induction false} RunDefersMeets(b: Prog, st: State)
    requires Wf(st) && 0 <= st.curr && CallsClean(b) && EmptyAbove(st)
    requires st.Top() == BodyFrame(b, EMPTY)
    ensures RunDefers(st) == DefersOutcome(b, st)
    decreases TotalWeight(st.frames), 3
  {
    StaticsMeet(b, st);
    if DrainFits(S, Own(S, b), Own(D, b), ByteCount(Own(S, b)), st.curr) {
      DynamicsMeet(b, st, RunTrace(S, Own(S, b), st.curr));
    }
  }

  /** The first drain and the reset of the pool. */
  lemma {:induction false} StaticsMeet(b: Prog, st: State)
    requires Wf(st) && 0 <= st.curr && CallsClean(b) && EmptyAbove(st)
    requires st.Top() == BodyFrame(b, EMPTY)
    ensures !DrainFits(S, Own(S, b), Own(D, b), ByteCount(Own(S, b)), st.curr) ==> RunDefers(st) == Abort
    ensures DrainFits(S, Own(S, b), Own(D, b), ByteCount(Own(S, b)), st.curr) ==>
      var s := After(st, Frame([], ScopeDyns(b), 0), RunTrace(S, Own(S, b), st.curr));
      Wf(s) && TotalWeight(s.frames) <= TotalWeight(st.frames) && RunDefers(st) == Drain(D, s)
    decreases TotalWeight(st.frames), 2
  {
    var l, o, used := Own(S, b), Own(D, b), ByteCount(Own(S, b));
    OwnCallsClean(S, b);
    BodyOfEmpty(b);
    DrainMeets(S, st, l, o, used);
    if DrainFits(S, l, o, used, st.curr) {
      var t := RunTrace(S, l, st.curr);
      var f := DrainedStatics(b);
      StaticsOutcome(b, st, Drain(S, st));
      ResetIsAfter(st, f, t);
      RunDefersStep(st, After(st, f, t), After(st, Frame([], ScopeDyns(b), 0), t));
    }
  }

  lemma {:induction false} RunDefersStep(st: State, s0: State, s1: State)
    requires Wf(st) && 0 <= st.curr && Drain(S, st) == Done(s0) && ResetPool(s0) == s1
    ensures Wf(s1) && TotalWeight(s1.frames) <= TotalWeight(st.frames) && RunDefers(st) == Drain(D, s1)
  {
    TotalWeightUpdate(s0.frames, s0.curr, s0.Top().(used := 0));
  }

  /** The frame between the two drains, the pool not yet reset. */
  ghost function DrainedStatics(b: Prog): Frame {
    Frame([], ScopeDyns(b), ByteCount(Own(S, b)) + RunBytes(S, Own(S, b)))
  }

  lemma {:induction false} StaticsOutcome(b: Prog, st: State, x: Outcome)
    requires 0 <= st.curr < |st.frames|
    requires DrainFits(S, Own(S, b), Own(D, b), ByteCount(Own(S, b)), st.curr)
    requires x == DrainOutcome(S, st, Own(S, b), Own(D, b), ByteCount(Own(S, b)))
    ensures x == Done(After(st, DrainedStatics(b), RunTrace(S, Own(S, b), st.curr)))
  {
  }

  lemma {:induction false} BodyOfEmpty(b: Prog)
    ensures BodyFrame(b, EMPTY) == Frame(Own(S, b), Own(D, b), ByteCount(Own(S, b)))
  {
    assert [] + Own(S, b) == Own(S, b) && [] + Own(D, b) == Own(D, b);
  }

  lemma {:induction false} ResetIsAfter(st: State, f: Frame, t: seq<Event>)
    requires 0 <= st.curr < |st.frames|
    ensures ResetPool(After(st, f, t)) == After(st, f.(used := 0), t)
  {
  }

  /** The second drain, `t` observed in the first one. */
  lemma {:induction false} DynamicsMeet(b: Prog, st: State, t: seq<Event>)
    requires Wf(st) && 0 <= st.curr && CallsClean(b) && EmptyAbove(st)
    requires |ScopeDyns(b)| <= MAX_DYN_DEFERS
    ensures
      var f := Frame([], ScopeDyns(b), 0);
      Drain(D, After(st, f, t)) ==
        if DrainFits(D, ScopeDyns(b), [], 0, st.curr)
        then Done(After(st, Leftover(b), t + RunTrace(D, ScopeDyns(b), st.curr))) else Abort
    decreases TotalWeight(After(st, Frame([], ScopeDyns(b), 0), t).frames), 2
  {
    var f := Frame([], ScopeDyns(b), 0);
    OwnCallsClean(S, b);
    OwnCallsClean(D, b);
    SideCallsClean(S, Own(S, b));
    DrainMeets(D, After(st, f, t), ScopeDyns(b), [], 0);
    assert DrainFrame(D, ScopeDyns(b), [], 0) == Leftover(b);
    AfterTwice(st, f, t, Leftover(b), RunTrace(D, ScopeDyns(b), st.curr));
  }

  lemma {:induction false} ScopeFitsSplit(b: Prog, depth: int)
    ensures ScopeFits(b, depth) <==> depth < STACK_SIZE && BodyFits(b, EMPTY, depth) && DefersFit(b, depth)
  {
    if Room(S, Own(S, b), 0) {
      RoomBound(S, Own(S, b), 0);
    }
    if Room(D, ScopeDyns(b), 0) {
      RoomBound(D, ScopeDyns(b), 0);
    }
  }

  lemma {:induction false} WrappedMeets(b: Prog, arg: Arg, st: State)
    requires Wf(st) && CallsClean(b) && EmptyAbove(st)
    ensures Wrapped(b, arg, st) == ScopeOutcome(b, arg, st)
    decreases TotalWeight(st.frames) + Size(b), 5
  {
    hide Exec, Drain, RunDefers, TotalWeight, BodyTrace, ScopeTrace, RunTrace, BodyFrame, Leaving, ErrAfter, ScopeFits, DefersFit, ScopeState, CallsFit, CallsClean;
    var d := st.curr + 1;
    ScopeFitsSplit(b, d);
    if d < STACK_SIZE {
      PushIsAfter(st);
      ExecMeets(b, arg, Push(st), EMPTY);
      if BodyFits(b, EMPTY, d) {
        WrappedBodyMeets(b, arg, st);
      }
    }
  }

  lemma {:induction false} WrappedBodyMeets(b: Prog, arg: Arg, st: State)
    requires Wf(st) && CallsClean(b) && EmptyAbove(st) && st.curr < STACK_SIZE - 1
    requires BodyFits(b, EMPTY, st.curr + 1)
    requires Exec(b, arg, Push(st)) == Done(After(Push(st), BodyFrame(b, EMPTY), BodyTrace(b, arg, st.curr + 1)))
    ensures Wrapped(b, arg, st) == ScopeOutcome(b, arg, st)
    decreases TotalWeight(st.frames) + Size(b), 4
  {
    var d := st.curr + 1;
    var s := After(Push(st), BodyFrame(b, EMPTY), BodyTrace(b, arg, d));
    PushIsAfter(st);
    ScopeFitsSplit(b, d);
    RunDefersMeets(b, s);
    WrappedOutcome(b, arg, st, RunDefers(s));
  }

  lemma {:induction false} WrappedOutcome(b: Prog, arg: Arg, st: State, x: Outcome)
    requires Wf(st) && EmptyAbove(st) && st.curr < STACK_SIZE - 1 && BodyFits(b, EMPTY, st.curr + 1)
    requires x == DefersOutcome(b, After(Push(st), BodyFrame(b, EMPTY), BodyTrace(b, arg, st.curr + 1)))
    requires x.Done? ==> Wf(x.st) && 0 <= x.st.curr
    ensures (match x case Abort => Abort case Done(r) => Done(Leaving(r))) == ScopeOutcome(b, arg, st)
  {
    PushIsAfter(st);
    ScopeFitsSplit(b, st.curr + 1);
    if DefersFit(b, st.curr + 1) {
      LeftoverOk(b, st.curr + 1);
      WrappedChain(b, arg, st);
    }
  }

  lemma {:induction false} LeftoverOk(b: Prog, depth: int)
    requires DefersFit(b, depth)
    ensures FrameOk(Leftover(b))
  {
    assert |Leak(b)| <= Cap(S);
  }

  lemma {:induction false} WrappedChain(b: Prog, arg: Arg, st: State)
    requires Wf(st) && st.curr < STACK_SIZE - 1
    requires FrameOk(Leftover(b))
    ensures
      var d := st.curr + 1;
      var s := After(After(Base(st), EMPTY, [ErrSet(0), Enter(d, 0, 0, 0)]), BodyFrame(b, EMPTY), BodyTrace(b, arg, d));
      Leaving(After(s, Leftover(b), DefersTrace(b, d))) == ScopeState(b, arg, st)
  {
    var d := st.curr + 1;
    var t, u, v := [ErrSet(0), Enter(d, 0, 0, 0)], BodyTrace(b, arg, d), DefersTrace(b, d);
    AfterTwice(Base(st), EMPTY, t, BodyFrame(b, EMPTY), u);
    AfterTwice(Base(st), BodyFrame(b, EMPTY), t + u, Leftover(b), v);
    LeavingIsAfter(st, Leftover(b), t + u + v);
    Assoc2(t + u, RunTrace(S, Own(S, b), d), RunTrace(D, ScopeDyns(b), d));
  }

  lemma Assoc2<T>(a: seq<T>, b: seq<T>, c: seq<T>)
    ensures a + (b + c) == a + b + c
  {
  }

  // ---- What is left in the frame ----

  /** Handlers of a table that add no static: draining it leaks nothing. */
  lemma {:induction false} CleanDynsLeakNothing(l: seq<Entry>)
    requires forall e | e in l :: Clean(e.h, true)
    ensures Side(D, l) == [] && RunBytes(D, l) == 0
    decreases Weight(l)
  {
    if l != [] {
      var h := l[|l| - 1].h;
      CleanOwns(h, true);
      OwnWeight(D, h);
      CleanDynsLeakNothing(Own(D, h));
      CleanDynsLeakNothing(l[..|l| - 1]);
    }
  }

  lemma {:induction false} CleanSide(l: seq<Entry>)
    requires forall e | e in l :: Clean(e.h, false)
    ensures forall e | e in Side(S, l) :: Clean(e.h, true)
    decreases Weight(l)
  {
    if l != [] {
      var h := l[|l| - 1].h;
      CleanOwns(h, false);
      OwnWeight(S, h);
      CleanSide(Own(S, h));
      CleanSide(l[..|l| - 1]);
    }
  }

  lemma {:induction false} CleanLeaksNothing(b: Prog)
    requires Clean(b, false)
    ensures Leftover(b) == EMPTY
  {
    CleanOwns(b, false);
    CleanSide(Own(S, b));
    CleanDynsLeakNothing(ScopeDyns(b));
  }
}
