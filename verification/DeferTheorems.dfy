/**
 What the defer stack promises its callers, for every call tree.
 */
module DeferTheorems {
  import opened Effects
  import opened DeferTrees
  import opened DeferMachine
  import opened DeferScopes
  import opened DeferRefinement

  /** Every wrapped call, whatever its handlers register on their frame: it
      aborts exactly when a capacity is exceeded, and otherwise observes what the
      scope semantics says, restores `curr`, and changes no frame but its own. */
  lemma {:induction false} CallRefinesScope(b: Prog, arg: Arg, st: State)
    requires Wf(st) && EmptyAbove(st) && CallsClean(b)
    ensures Wrapped(b, arg, st).Done? <==> ScopeFits(b, st.curr + 1)
    ensures Wrapped(b, arg, st).Done? ==>
      var r, t := Wrapped(b, arg, st).st, ScopeTrace(b, arg, st.curr + 1);
      && r.curr == st.curr
      && r.trace == st.trace + t
      && r.err == ErrAfter(st.err, t)
      && r.frames == st.frames[st.curr + 1 := Leftover(b)]
  {
    WrappedMeets(b, arg, st);
    ScopeFacts(b, arg, st, Wrapped(b, arg, st));
  }

  lemma {:induction false} ScopeFacts(b: Prog, arg: Arg, st: State, x: Outcome)
    requires Wf(st) && x == ScopeOutcome(b, arg, st)
    ensures x.Done? <==> ScopeFits(b, st.curr + 1)
    ensures x.Done? ==>
      var t := ScopeTrace(b, arg, st.curr + 1);
      && x.st.curr == st.curr
      && x.st.trace == st.trace + t
      && x.st.err == ErrAfter(st.err, t)
      && x.st.frames == st.frames[st.curr + 1 := Leftover(b)]
  {
  }

  /** A call whose dynamic handlers register no static puts every frame back:
      above `curr` all stay empty, though push and pop never reset one. */
  lemma {:induction false} CleanCallRestoresFrames(b: Prog, arg: Arg, st: State)
    requires Wf(st) && EmptyAbove(st) && Clean(b, false)
    ensures Wrapped(b, arg, st).Done? ==>
      Wrapped(b, arg, st).st.frames == st.frames && EmptyAbove(Wrapped(b, arg, st).st)
  {
    CleanOwns(b, false);
    WrappedMeets(b, arg, st);
    CleanLeaksNothing(b);
  }

  // ---- When a frame is left empty ----

  lemma {:induction false} CleanFromOwns(p: Prog, inDyn: bool)
    requires CallsClean(p)
    requires inDyn ==> Own(S, p) == []
    requires forall e | e in Own(S, p) :: Clean(e.h, false)
    requires forall e | e in Own(D, p) :: Clean(e.h, true)
    ensures Clean(p, inDyn)
  {
    match p
    case Nil =>
    case Emit(_, next) => CleanFromOwns(next, inDyn);
    case SetErr(_, next) => CleanFromOwns(next, inDyn);
    case Defer(h, v, next) =>
      assert Own(D, p)[0] == Dynamic(h, v);
      forall e | e in Own(D, next) ensures Clean(e.h, true) { assert e in Own(D, p); }
      CleanFromOwns(next, inDyn);
    case StaticDefer(h, bytes, next) =>
      assert Own(S, p)[0] == Static(h, bytes);
      forall e | e in Own(S, next) ensures Clean(e.h, false) { assert e in Own(S, p); }
      CleanFromOwns(next, inDyn);
    case Call(_, next) => CleanFromOwns(next, inDyn);
  }

  lemma {:induction false} LeakFreeDyns(l: seq<Entry>)
    requires AllCallsClean(l) && Side(D, l) == []
    ensures forall e | e in l :: Clean(e.h, true)
    decreases Weight(l)
  {
    if l != [] {
      var h := l[|l| - 1].h;
      OwnCallsClean(D, h);
      OwnWeight(D, h);
      LeakFreeDyns(Own(D, h));
      CleanFromOwns(h, true);
      LeakFreeDyns(l[..|l| - 1]);
    }
  }

  lemma {:induction false} LeakFreeStatics(l: seq<Entry>)
    requires AllCallsClean(l) && forall e | e in Side(S, l) :: Clean(e.h, true)
    ensures forall e | e in l :: Clean(e.h, false)
    decreases Weight(l)
  {
    if l != [] {
      var h := l[|l| - 1].h;
      OwnCallsClean(S, h);
      OwnWeight(S, h);
      assert Side(S, l) == Own(D, h) + Side(S, Own(S, h)) + Side(S, l[..|l| - 1]);
      LeakFreeStatics(Own(S, h));
      CleanFromOwns(h, false);
      LeakFreeStatics(l[..|l| - 1]);
    }
  }

  /** The frame is left empty if and only if no dynamic handler of the scope
      calls static_defer on it. */
  lemma {:induction false} FrameLeftEmptyIff(b: Prog, arg: Arg, st: State)
    requires Wf(st) && EmptyAbove(st) && CallsClean(b) && Wrapped(b, arg, st).Done?
    ensures Wrapped(b, arg, st).st.frames[st.curr + 1] == EMPTY <==> Clean(b, false)
  {
    WrappedMeets(b, arg, st);
    if Leftover(b) == EMPTY {
      OwnCallsClean(D, b);
      OwnCallsClean(S, b);
      SideCallsClean(S, Own(S, b));
      LeakFreeDyns(ScopeDyns(b));
      LeakFreeStatics(Own(S, b));
      CleanFromOwns(b, false);
    }
    if Clean(b, false) {
      CleanLeaksNothing(b);
    }
  }

  const STALE := Static(Emit(User(7), Nil), [1])
  const LEAKY := Defer(StaticDefer(STALE.h, STALE.bytes, Nil), 0, Nil)

  lemma {:induction false} LeakyLeaves()
    ensures ScopeFits(LEAKY, 0) && Leftover(LEAKY) == Frame([STALE], [], 1)
    ensures CallsClean(LEAKY) && !Clean(LEAKY, false)
  {
    var d := Dynamic(StaticDefer(STALE.h, STALE.bytes, Nil), 0);
    assert Own(S, LEAKY) == [] && Own(D, LEAKY) == [d] && ScopeDyns(LEAKY) == [d];
    assert Own(S, d.h) == [STALE] && Own(D, d.h) == [];
    assert [d][..0] == [];
    assert [STALE][..0] == [];
    assert ByteCount([STALE]) == 1;
    assert Side(D, [d]) == [STALE];
    assert RunBytes(D, [d]) == 1;
    assert Room(D, [d], 0);
  }

  lemma {:induction false} StaleRuns(st: State)
    requires Wf(st) && st.curr == -1 && st.frames[0] == Frame([STALE], [], 1)
    ensures Wrapped(Nil, NoArg, st).Done?
    ensures Wrapped(Nil, NoArg, st).st.trace ==
      st.trace + [ErrSet(0), Enter(0, 1, 0, 1), Ran(STALE), Did(User(7), Bytes([1])), Leave(0, 0, 0, 0)]
  {
    var s := Push(st);
    assert s.trace == st.trace + [ErrSet(0), Enter(0, 1, 0, 1)];
    assert Exec(Nil, NoArg, s) == Done(s);
    var p := Pop(S, s);
    assert p.Top() == Frame([], [], 1);
    var q := p.Log(Did(User(7), Bytes([1])));
    assert Exec(STALE.h, ArgOf(STALE), p) == Exec(Nil, ArgOf(STALE), q) == Done(q);
    assert Drain(S, q) == Done(q);
    assert Drain(S, s) == Done(q);
    assert RunDefers(s) == Done(ResetPool(q));
  }

  /** A leak: the next call at the same depth finds the stale handler in its
      fresh frame and runs it, with the bytes of the earlier call. */
  lemma {:induction false} LeakedHandlerRunsInNextCall(st: State)
    requires Wf(st) && EmptyAbove(st) && st.curr == -1
    ensures CallsClean(LEAKY) && !Clean(LEAKY, false)
    ensures
      var r := Wrapped(LEAKY, NoArg, st);
      && r.Done?
      && Wrapped(Nil, NoArg, r.st).Done?
      && Wrapped(Nil, NoArg, r.st).st.trace ==
         r.st.trace + [ErrSet(0), Enter(0, 1, 0, 1), Ran(STALE), Did(User(7), Bytes([1])), Leave(0, 0, 0, 0)]
  {
    LeakyLeaves();
    WrappedMeets(LEAKY, NoArg, st);
    LeakyState(LEAKY, Frame([STALE], [], 1), st, Wrapped(LEAKY, NoArg, st));
    StaleRuns(Wrapped(LEAKY, NoArg, st).st);
  }

  lemma {:induction false} LeakyState(b: Prog, f: Frame, st: State, x: Outcome)
    requires Wf(st) && st.curr == -1 && x == ScopeOutcome(b, NoArg, st)
    requires ScopeFits(b, 0) && Leftover(b) == f
    ensures x.Done? && x.st.curr == -1 && x.st.frames[0] == f
  {
  }

  // ---- What every run observes ----

  ghost predicate PushesFindEmpty(t: seq<Event>, depth: int) {
    && (forall e | e in t && e.Enter? :: e.staticLen == e.dynLen == e.used == 0 && depth <= e.depth)
    && (forall e | e in t && e.Leave? :: e.staticLen == e.dynLen == e.used == 0 && depth <= e.depth)
  }

  lemma {:induction false} BodyPushesFindEmpty(p: Prog, inDyn: bool, arg: Arg, depth: int)
    requires Clean(p, inDyn)
    ensures PushesFindEmpty(BodyTrace(p, arg, depth), depth + 1)
    decreases Size(p), 0
  {
    match p
    case Nil =>
    case Emit(_, next) => BodyPushesFindEmpty(next, inDyn, arg, depth);
    case SetErr(_, next) => BodyPushesFindEmpty(next, inDyn, arg, depth);
    case Defer(_, _, next) => BodyPushesFindEmpty(next, inDyn, arg, depth);
    case StaticDefer(_, _, next) => BodyPushesFindEmpty(next, inDyn, arg, depth);
    case Call(body, next) =>
      EveryPushFindsAnEmptyFrame(body, arg, depth + 1);
      BodyPushesFindEmpty(next, inDyn, arg, depth);
  }

  lemma {:induction false} RunPushesFindEmpty(k: Kind, l: seq<Entry>, depth: int)
    requires forall e | e in l :: Clean(e.h, k == D)
    ensures PushesFindEmpty(RunTrace(k, l, depth), depth + 1)
    decreases Weight(l), 0
  {
    if l != [] {
      var e := l[|l| - 1];
      assert e in l;
      CleanOwns(e.h, k == D);
      OwnWeight(k, e.h);
      BodyPushesFindEmpty(e.h, k == D, ArgOf(e), depth);
      RunPushesFindEmpty(k, Own(k, e.h), depth);
      RunPushesFindEmpty(k, l[..|l| - 1], depth);
    }
  }

  /** In every clean call each push, at any nesting, in the body or in a handler,
      exposes an empty frame, and each pop leaves one. */
  lemma {:induction false} EveryPushFindsAnEmptyFrame(b: Prog, arg: Arg, depth: int)
    requires Clean(b, false)
    ensures PushesFindEmpty(ScopeTrace(b, arg, depth), depth)
    decreases Size(b), 1
  {
    hide BodyTrace, RunTrace, Own, Side, RunBytes, Clean;
    CleanOwns(b, false);
    CleanSide(Own(S, b));
    ScopeWeights(b);
    CleanLeaksNothing(b);
    BodyPushesFindEmpty(b, false, arg, depth);
    RunPushesFindEmpty(S, Own(S, b), depth);
    RunPushesFindEmpty(D, ScopeDyns(b), depth);
  }

  // ---- Every registered handler runs exactly once ----

  /** Registrations of `x` observed in `t`, minus its runs. */
  function Balance(t: seq<Event>, x: Entry): int {
    if t == [] then 0
    else Balance(t[..|t| - 1], x) + BalanceOf(t[|t| - 1], x)
  }

  function BalanceOf(e: Event, x: Entry): int {
    match e
    case Registered(r) => if r == x then 1 else 0
    case Ran(r) => if r == x then -1 else 0
    case _ => 0
  }

  /** Occurrences of `x` in a table. */
  function Occurs(l: seq<Entry>, x: Entry): nat {
    if l == [] then 0 else Occurs(l[..|l| - 1], x) + (if l[|l| - 1] == x then 1 else 0)
  }

  lemma {:induction false} BalanceConcat(t: seq<Event>, u: seq<Event>, x: Entry)
    ensures Balance(t + u, x) == Balance(t, x) + Balance(u, x)
    decreases |u|
  {
    if u == [] {
      assert t + u == t;
    } else {
      assert (t + u)[..|t + u| - 1] == t + u[..|u| - 1];
      BalanceConcat(t, u[..|u| - 1], x);
    }
  }

  lemma {:induction false} BalanceOne(e: Event, u: seq<Event>, x: Entry)
    ensures Balance([e] + u, x) == Balance(u, x) + BalanceOf(e, x)
  {
    BalanceConcat([e], u, x);
    assert [e][..0] == [];
  }

  lemma {:induction false} OccursConcat(a: seq<Entry>, b: seq<Entry>, x: Entry)
    ensures Occurs(a + b, x) == Occurs(a, x) + Occurs(b, x)
    decreases |b|
  {
    if b == [] {
      assert a + b == a;
    } else {
      assert (a + b)[..|a + b| - 1] == a + b[..|b| - 1];
      OccursConcat(a, b[..|b| - 1], x);
    }
  }

  lemma {:induction false} OccursOne(e: Entry, b: seq<Entry>, x: Entry)
    ensures Occurs([e] + b, x) == Occurs(b, x) + (if e == x then 1 else 0)
  {
    OccursConcat([e], b, x);
    assert [e][..0] == [];
  }

  ghost predicate BodyBalanced(p: Prog, arg: Arg, depth: int, x: Entry) {
    Balance(BodyTrace(p, arg, depth), x) == Occurs(Own(S, p), x) + Occurs(Own(D, p), x)
  }

  lemma {:induction false} BodyBalance(p: Prog, arg: Arg, depth: int, x: Entry)
    requires CallsClean(p)
    ensures BodyBalanced(p, arg, depth, x)
    decreases Size(p), 0
  {
    match p
    case Nil =>
    case Emit(op, next) =>
      BodyBalance(next, arg, depth, x);
      BalanceOne(Did(op, arg), BodyTrace(next, arg, depth), x);
    case SetErr(code, next) =>
      BodyBalance(next, arg, depth, x);
      BalanceOne(ErrSet(code), BodyTrace(next, arg, depth), x);
    case Defer(h, v, next) =>
      BodyBalance(next, arg, depth, x);
      BalanceOne(Registered(Dynamic(h, v)), BodyTrace(next, arg, depth), x);
      OccursOne(Dynamic(h, v), Own(D, next), x);
    case StaticDefer(h, bytes, next) =>
      BodyBalance(next, arg, depth, x);
      BalanceOne(Registered(Static(h, bytes)), BodyTrace(next, arg, depth), x);
      OccursOne(Static(h, bytes), Own(S, next), x);
    case Call(body, next) =>
      CleanOwns(body, false);
      CleanLeaksNothing(body);
      RunsWhatItRegisters(body, arg, depth + 1, x);
      BodyBalance(next, arg, depth, x);
      BalanceConcat(ScopeTrace(body, arg, depth + 1), BodyTrace(next, arg, depth), x);
  }

  /** Draining `l` runs all of it, and all it adds to the table itself. */
  ghost predicate RunBalanced(k: Kind, l: seq<Entry>, depth: int, x: Entry) {
    Balance(RunTrace(k, l, depth), x) == Occurs(Side(k, l), x) - Occurs(l, x)
  }

  lemma {:induction false} RunBalance(k: Kind, l: seq<Entry>, depth: int, x: Entry)
    requires AllCallsClean(l)
    ensures RunBalanced(k, l, depth, x)
    decreases Weight(l), 0
  {
    if l != [] {
      var e := l[|l| - 1];
      assert e in l;
      OwnCallsClean(k, e.h);
      OwnWeight(k, e.h);
      BodyBalance(e.h, ArgOf(e), depth, x);
      RunBalance(k, Own(k, e.h), depth, x);
      RunBalance(k, l[..|l| - 1], depth, x);
      RunBalanceLast(k, l[..|l| - 1], e, depth, x);
      Snoc([], l);
    }
  }

  lemma {:induction false} RunBalanceLast(k: Kind, l: seq<Entry>, e: Entry, depth: int, x: Entry)
    requires BodyBalanced(e.h, ArgOf(e), depth, x)
    requires RunBalanced(k, Own(k, e.h), depth, x) && RunBalanced(k, l, depth, x)
    ensures RunBalanced(k, l + [e], depth, x)
  {
    var t, u, v := BodyTrace(e.h, ArgOf(e), depth), RunTrace(k, Own(k, e.h), depth), RunTrace(k, l, depth);
    RunLast(k, l, e, depth);
    BalanceConcat([Ran(e)] + t + u, v, x);
    BalanceConcat([Ran(e)] + t, u, x);
    BalanceOne(Ran(e), t, x);
    OccursConcat(Own(Other(k), e.h) + Side(k, Own(k, e.h)), Side(k, l), x);
    OccursConcat(Own(Other(k), e.h), Side(k, Own(k, e.h)), x);
    OccursConcat(l, [e], x);
    OccursOne(e, [], x);
    assert [e] + [] == [e];
  }

  /** Every handler registered during a call, in the body, in handlers or in the
      calls inside, runs exactly as often as it is registered before the caller
      resumes; only the leaked statics do not run. */
  lemma {:induction false} RunsWhatItRegisters(b: Prog, arg: Arg, depth: int, x: Entry)
    requires CallsClean(b)
    ensures Balance(ScopeTrace(b, arg, depth), x) == Occurs(Leak(b), x)
    decreases Size(b), 1
  {
    ScopeWeights(b);
    OwnCallsClean(S, b);
    OwnCallsClean(D, b);
    SideCallsClean(S, Own(S, b));
    BodyBalance(b, arg, depth, x);
    RunBalance(S, Own(S, b), depth, x);
    RunBalance(D, ScopeDyns(b), depth, x);
    OccursConcat(Own(D, b), Side(S, Own(S, b)), x);
    ScopeBalance(b, arg, depth, x);
  }

  lemma {:induction false} ScopeBalance(b: Prog, arg: Arg, depth: int, x: Entry)
    ensures Balance(ScopeTrace(b, arg, depth), x) ==
      Balance(BodyTrace(b, arg, depth), x) + Balance(RunTrace(S, Own(S, b), depth), x)
      + Balance(RunTrace(D, ScopeDyns(b), depth), x)
  {
    var t0, t1 := [ErrSet(0), Enter(depth, 0, 0, 0)], BodyTrace(b, arg, depth);
    var t2, t3 := RunTrace(S, Own(S, b), depth), RunTrace(D, ScopeDyns(b), depth);
    var last := Leave(depth, |Leak(b)|, 0, RunBytes(D, ScopeDyns(b)));
    BalanceConcat(t0 + t1 + t2 + t3, [last], x);
    BalanceConcat(t0 + t1 + t2, t3, x);
    BalanceConcat(t0 + t1, t2, x);
    BalanceConcat(t0, t1, x);
    BalanceOne(t0[0], [t0[1]], x);
    BalanceOne(t0[1], [], x);
    BalanceOne(last, [], x);
    assert [t0[0]] + [t0[1]] == t0 && [t0[1]] + [] == [t0[1]] && [last] + [] == [last];
  }

  // ---- The error code ----

  ghost predicate TouchesError(t: seq<Event>) {
    exists e | e in t :: e.ErrSet?
  }

  lemma {:induction false} UntouchedError(code: int, t: seq<Event>)
    requires !TouchesError(t)
    ensures ErrAfter(code, t) == code
  {
    if t != [] {
      assert t[|t| - 1] in t;
      UntouchedError(code, t[..|t| - 1]);
    }
  }

  lemma {:induction false} TouchedError(code: int, code': int, t: seq<Event>)
    requires TouchesError(t)
    ensures ErrAfter(code, t) == ErrAfter(code', t)
  {
    var n := |t| - 1;
    if !t[n].ErrSet? {
      var e :| e in t && e.ErrSet?;
      assert e in t[..n];
      TouchedError(code, code', t[..n]);
    }
  }

  /** After a call the caller sees the code its body left, unless a handler run
      set one (a wrapped call in a handler sets it too: it clears it); then it
      sees what the handlers left, whatever the body said. */
  lemma {:induction false} CallerSeesTheBodysError(b: Prog, arg: Arg, depth: int, before: int)
    ensures
      var body, defers := BodyTrace(b, arg, depth), DefersTrace(b, depth);
      ErrAfter(before, ScopeTrace(b, arg, depth)) ==
        if TouchesError(defers) then ErrAfter(0, defers) else ErrAfter(0, body)
  {
    var t0, t1 := [ErrSet(0), Enter(depth, 0, 0, 0)], BodyTrace(b, arg, depth);
    var t2 := DefersTrace(b, depth);
    var t3 := [Leave(depth, |Leak(b)|, 0, RunBytes(D, ScopeDyns(b)))];
    Assoc2(t0 + t1, RunTrace(S, Own(S, b), depth), RunTrace(D, ScopeDyns(b), depth));
    ErrAfterConcat(before, t0 + t1 + t2, t3);
    ErrAfterConcat(before, t0 + t1, t2);
    ErrAfterConcat(before, t0, t1);
    UntouchedError(ErrAfter(before, t0 + t1 + t2), t3);
    assert t0[..1] == [ErrSet(0)];
    assert ErrAfter(before, t0) == 0;
    if TouchesError(t2) {
      TouchedError(ErrAfter(0, t1), 0, t2);
    } else {
      UntouchedError(ErrAfter(0, t1), t2);
    }
  }

  // ---- Handlers that register nothing: the plain reading ----

  /** No handler anywhere in the tree registers on the frame it runs in. */
  predicate PlainHandlers(p: Prog) {
    match p
    case Nil => true
    case Emit(_, next) => PlainHandlers(next)
    case SetErr(_, next) => PlainHandlers(next)
    case Defer(h, _, next) => NonRegistering(h) && PlainHandlers(h) && PlainHandlers(next)
    case StaticDefer(h, _, next) => NonRegistering(h) && PlainHandlers(h) && PlainHandlers(next)
    case Call(body, next) => PlainHandlers(body) && PlainHandlers(next)
  }

  ghost predicate AllPlain(l: seq<Entry>) {
    forall e | e in l :: NonRegistering(e.h) && PlainHandlers(e.h)
  }

  /** The handlers of `l` one after the other, the last registered first. */
  function Reversed(l: seq<Entry>, depth: int): seq<Event> {
    if l == [] then []
    else Reversed(l[1..], depth) + ([Ran(l[0])] + BodyTrace(l[0].h, ArgOf(l[0]), depth))
  }

  lemma {:induction false} NonRegisteringOwns(k: Kind, p: Prog)
    requires NonRegistering(p)
    ensures Own(k, p) == []
  {
    match p
    case Nil =>
    case Emit(_, next) => NonRegisteringOwns(k, next);
    case SetErr(_, next) => NonRegisteringOwns(k, next);
    case Call(_, next) => NonRegisteringOwns(k, next);
  }

  lemma {:induction false} PlainOwns(k: Kind, p: Prog)
    requires PlainHandlers(p)
    ensures AllPlain(Own(k, p))
  {
    match p
    case Nil =>
    case Emit(_, next) => PlainOwns(k, next);
    case SetErr(_, next) => PlainOwns(k, next);
    case Defer(_, _, next) => PlainOwns(k, next);
    case StaticDefer(_, _, next) => PlainOwns(k, next);
    case Call(_, next) => PlainOwns(k, next);
  }

  lemma {:induction false} PlainRun(k: Kind, l: seq<Entry>, depth: int)
    requires AllPlain(l)
    ensures RunTrace(k, l, depth) == Reversed(l, depth)
    ensures Side(k, l) == [] && RunBytes(k, l) == 0
    decreases |l|
  {
    if l != [] {
      var e := l[0];
      assert l == [e] + l[1..];
      PlainRun(k, l[1..], depth);
      RunTraceConcat(k, [e], l[1..], depth);
      SideConcat(k, [e], l[1..]);
      RunBytesConcat(k, [e], l[1..]);
      PlainOne(k, e, depth);
    }
  }

  lemma {:induction false} PlainOne(k: Kind, e: Entry, depth: int)
    requires NonRegistering(e.h)
    ensures RunTrace(k, [e], depth) == [Ran(e)] + BodyTrace(e.h, ArgOf(e), depth)
    ensures Side(k, [e]) == [] && RunBytes(k, [e]) == 0
  {
    NonRegisteringOwns(S, e.h);
    NonRegisteringOwns(D, e.h);
    RunLast(k, [], e, depth);
    assert [] + [e] == [e];
  }

  lemma {:induction false} PlainRoom(k: Kind, l: seq<Entry>)
    requires AllPlain(l)
    ensures Room(k, l, 0) <==> |l| <= Cap(k)
  {
    if l != [] {
      NonRegisteringOwns(k, l[|l| - 1].h);
      PlainRoom(k, l[..|l| - 1]);
    }
  }

  /** Without registering handlers: the body, then its static handlers in reverse
      order of registration, then its dynamic handlers in reverse. */
  lemma {:induction false} PlainScopeOrder(b: Prog, arg: Arg, depth: int)
    requires PlainHandlers(b)
    ensures ScopeTrace(b, arg, depth) ==
      [ErrSet(0), Enter(depth, 0, 0, 0)] + BodyTrace(b, arg, depth)
      + Reversed(Own(S, b), depth) + Reversed(Own(D, b), depth) + [Leave(depth, 0, 0, 0)]
  {
    PlainOwns(S, b);
    PlainOwns(D, b);
    PlainRun(S, Own(S, b), depth);
    PlainRun(D, Own(D, b), depth);
    assert Own(D, b) + [] == Own(D, b);
  }

  /** The bodies of all wrapped calls in the tree of `p`, handlers included, each
      with the depth it runs at when `p` runs at `depth`. */
  function CallsIn(p: Prog, depth: int): seq<(Prog, int)> {
    match p
    case Nil => []
    case Emit(_, next) => CallsIn(next, depth)
    case SetErr(_, next) => CallsIn(next, depth)
    case Defer(h, _, next) => CallsIn(h, depth) + CallsIn(next, depth)
    case StaticDefer(h, _, next) => CallsIn(h, depth) + CallsIn(next, depth)
    case Call(body, next) => [(body, depth + 1)] + CallsIn(body, depth + 1) + CallsIn(next, depth)
  }

  /** One call keeps to the twelve frames, its frame to six statics, twelve
      dynamics and 48 bytes. */
  ghost predicate WithinLimits(c: (Prog, int)) {
    && c.1 < 12
    && |Own(S, c.0)| <= 6
    && |Own(D, c.0)| <= 12
    && ByteCount(Own(S, c.0)) <= 48
  }

  ghost predicate AllWithin(cs: seq<(Prog, int)>) {
    forall c | c in cs :: WithinLimits(c)
  }

  /** Calls of `p` itself and of its handlers. */
  ghost predicate TreeFits(p: Prog, depth: int) {
    CallsFit(p, depth) && RunCallsFit(S, Own(S, p), depth) && RunCallsFit(D, Own(D, p), depth)
  }

  lemma {:induction false} TreeFitsIff(p: Prog, depth: int)
    requires PlainHandlers(p)
    ensures TreeFits(p, depth) <==> AllWithin(CallsIn(p, depth))
  {
    match p
    case Nil =>
    case Emit(_, next) => TreeFitsIff(next, depth);
    case SetErr(_, next) => TreeFitsIff(next, depth);
    case Defer(h, v, next) =>
      TreeFitsIff(h, depth);
      TreeFitsIff(next, depth);
      HandlerFits(D, Dynamic(h, v), Own(D, next), depth);
    case StaticDefer(h, bytes, next) =>
      TreeFitsIff(h, depth);
      TreeFitsIff(next, depth);
      HandlerFits(S, Static(h, bytes), Own(S, next), depth);
    case Call(body, next) =>
      TreeFitsIff(body, depth + 1);
      TreeFitsIff(next, depth);
      PlainScopeFits(body, depth + 1);
      var cs := [(body, depth + 1)] + CallsIn(body, depth + 1) + CallsIn(next, depth);
      assert AllWithin(cs) <==>
        WithinLimits((body, depth + 1)) && AllWithin(CallsIn(body, depth + 1)) && AllWithin(CallsIn(next, depth)) by {
        assert cs[0] == (body, depth + 1);
        forall c | c in CallsIn(body, depth + 1) ensures c in cs {}
        forall c | c in CallsIn(next, depth) ensures c in cs {}
      }
  }

  lemma {:induction false} HandlerFits(k: Kind, e: Entry, l: seq<Entry>, depth: int)
    requires NonRegistering(e.h)
    ensures RunCallsFit(k, [e] + l, depth) <==> TreeFits(e.h, depth) && RunCallsFit(k, l, depth)
  {
    NonRegisteringOwns(S, e.h);
    NonRegisteringOwns(D, e.h);
    RunCallsFitConcat(k, [e], l, depth);
    RunLast(k, [], e, depth);
    assert [] + [e] == [e];
  }

  lemma {:induction false} PlainScopeFits(b: Prog, depth: int)
    requires PlainHandlers(b)
    ensures ScopeFits(b, depth) <==> WithinLimits((b, depth)) && TreeFits(b, depth)
  {
    PlainOwns(S, b);
    PlainOwns(D, b);
    PlainRun(S, Own(S, b), depth);
    PlainRun(D, Own(D, b), depth);
    PlainRoom(S, Own(S, b));
    PlainRoom(D, Own(D, b));
    assert Own(D, b) + [] == Own(D, b);
  }

  lemma {:induction false} PlainIsClean(p: Prog, inDyn: bool)
    requires PlainHandlers(p) && (inDyn ==> NonRegistering(p))
    ensures Clean(p, inDyn)
  {
    match p
    case Nil =>
    case Emit(_, next) => PlainIsClean(next, inDyn);
    case SetErr(_, next) => PlainIsClean(next, inDyn);
    case Defer(h, _, next) => PlainIsClean(h, true); PlainIsClean(next, inDyn);
    case StaticDefer(h, _, next) => PlainIsClean(h, false); PlainIsClean(next, inDyn);
    case Call(body, next) => PlainIsClean(body, false); PlainIsClean(next, inDyn);
  }

  /** The machine aborts if and only if some call in the tree nests below the
      twelfth frame or overfills its tables or its pool. */
  lemma {:induction false} AbortsIff(b: Prog, arg: Arg, st: State)
    requires Wf(st) && EmptyAbove(st) && PlainHandlers(b)
    ensures Wrapped(b, arg, st).Done? <==> AllWithin(CallsIn(Call(b, Nil), st.curr))
  {
    PlainIsClean(b, false);
    CleanOwns(b, false);
    CallRefinesScope(b, arg, st);
    OneCallFitsIff(b, st.curr);
  }

  lemma {:induction false} OneCallFitsIff(b: Prog, depth: int)
    requires PlainHandlers(b)
    ensures ScopeFits(b, depth + 1) <==> AllWithin(CallsIn(Call(b, Nil), depth))
  {
    var c := Call(b, Nil);
    assert Own(S, c) == Own(S, Nil) == [] && Own(D, c) == Own(D, Nil) == [];
    assert CallsFit(c, depth) <==> ScopeFits(b, depth + 1) && CallsFit(Nil, depth);
    assert TreeFits(c, depth) <==> ScopeFits(b, depth + 1);
    TreeFitsIff(c, depth);
  }

  // ---- Many calls ----

  /** Calls made one after the other from the same place. */
  function InSequence(bodies: seq<Prog>, arg: Arg, st: State): (r: Outcome)
    requires Wf(st)
    decreases |bodies|
  {
    if bodies == [] then Done(st)
    else match Wrapped(bodies[0], arg, st)
      case Abort => Abort
      case Done(s) => InSequence(bodies[1..], arg, s)
  }

  function ScopeTraces(bodies: seq<Prog>, arg: Arg, depth: int): seq<Event> {
    if bodies == [] then [] else ScopeTrace(bodies[0], arg, depth) + ScopeTraces(bodies[1..], arg, depth)
  }

  /** No call of a run of clean calls can tell what ran before it: the run goes
      through exactly when each call fits by itself, it observes the calls' own
      traces one after the other, and every frame is as at the start. */
  lemma {:induction false} CleanCallsDoNotInterfere(bodies: seq<Prog>, arg: Arg, st: State)
    requires Wf(st) && EmptyAbove(st) && forall b | b in bodies :: Clean(b, false)
    ensures InSequence(bodies, arg, st).Done? <==> AllFit(bodies, st.curr + 1)
    ensures InSequence(bodies, arg, st).Done? ==>
      var r := InSequence(bodies, arg, st).st;
      && r.frames == st.frames && r.curr == st.curr
      && r.trace == st.trace + ScopeTraces(bodies, arg, st.curr + 1)
      && r.err == ErrAfter(st.err, ScopeTraces(bodies, arg, st.curr + 1))
    decreases |bodies|
  {
    hide Wrapped, ScopeTrace, ScopeFits, Clean, ErrAfter;
    if bodies == [] {
      NoCalls(st, arg);
    } else {
      var b := bodies[0];
      AllFitSplit(bodies, st.curr + 1);
      assert b in bodies;
      CleanOwns(b, false);
      CallRefinesScope(b, arg, st);
      CleanCallRestoresFrames(b, arg, st);
      if Wrapped(b, arg, st).Done? {
        var s := Wrapped(b, arg, st).st;
        CleanCallsDoNotInterfere(bodies[1..], arg, s);
        ErrAfterConcat(st.err, ScopeTrace(b, arg, st.curr + 1), ScopeTraces(bodies[1..], arg, st.curr + 1));
        Assoc2(st.trace, ScopeTrace(b, arg, st.curr + 1), ScopeTraces(bodies[1..], arg, st.curr + 1));
      }
    }
  }

  ghost predicate AllFit(bodies: seq<Prog>, depth: int) {
    forall b | b in bodies :: ScopeFits(b, depth)
  }

  lemma AllFitSplit(bodies: seq<Prog>, depth: int)
    requires bodies != []
    ensures AllFit(bodies, depth) <==> ScopeFits(bodies[0], depth) && AllFit(bodies[1..], depth)
  {
    hide ScopeFits;
    assert forall c | c in bodies :: c == bodies[0] || c in bodies[1..];
  }

  lemma NoCalls(st: State, arg: Arg)
    ensures st.trace + ScopeTraces([], arg, st.curr + 1) == st.trace
    ensures ErrAfter(st.err, ScopeTraces([], arg, st.curr + 1)) == st.err
  {
  }
}
