/**
 The meaning of a wrapped call without a stack: what a scope does, by recursion
 on the trees.  No frame, table, length or index appears here.
 */
module DeferScopes {
  import opened DeferTrees

  /** What `p` itself registers on the running frame, of one kind, in order. */
  function Own(k: Kind, p: Prog): seq<Entry> {
    match p
    case Nil => []
    case Emit(_, next) => Own(k, next)
    case SetErr(_, next) => Own(k, next)
    case Defer(h, v, next) => if k == D then [Dynamic(h, v)] + Own(k, next) else Own(k, next)
    case StaticDefer(h, bytes, next) => if k == S then [Static(h, bytes)] + Own(k, next) else Own(k, next)
    case Call(_, next) => Own(k, next)
  }

  /** Statics and dynamics are different nodes of the tree. */
  lemma {:induction false} OwnWeights(p: Prog)
    ensures Weight(Own(S, p)) + Weight(Own(D, p)) <= Size(p)
  {
    match p
    case Nil =>
    case Emit(_, next) => OwnWeights(next);
    case SetErr(_, next) => OwnWeights(next);
    case Defer(h, v, next) =>
      OwnWeights(next);
      WeightConcat([Dynamic(h, v)], Own(D, next));
      assert Weight([Dynamic(h, v)]) == 1 + Size(h);
    case StaticDefer(h, bytes, next) =>
      OwnWeights(next);
      WeightConcat([Static(h, bytes)], Own(S, next));
      assert Weight([Static(h, bytes)]) == 1 + Size(h);
    case Call(_, next) => OwnWeights(next);
  }

  lemma OwnWeight(k: Kind, p: Prog)
    ensures Weight(Own(k, p)) <= Size(p)
  {
    OwnWeights(p);
  }

  /** What running the handlers of `l` registers in the other table, in order. */
  function Side(k: Kind, l: seq<Entry>): seq<Entry>
    decreases Weight(l)
  {
    if l == [] then []
    else
      var h := l[|l| - 1].h;
      OwnWeight(k, h);
      Own(Other(k), h) + Side(k, Own(k, h)) + Side(k, l[..|l| - 1])
  }

  lemma {:induction false} SideWeight(k: Kind, l: seq<Entry>)
    ensures Weight(Side(k, l)) <= Weight(l)
    decreases Weight(l)
  {
    if l != [] {
      var h := l[|l| - 1].h;
      OwnWeights(h);
      SideWeight(k, Own(k, h));
      SideWeight(k, l[..|l| - 1]);
      WeightConcat(Own(Other(k), h) + Side(k, Own(k, h)), Side(k, l[..|l| - 1]));
      WeightConcat(Own(Other(k), h), Side(k, Own(k, h)));
    }
  }

  /** The dynamic handlers of a scope: its own, then those its static handlers register. */
  function ScopeDyns(b: Prog): seq<Entry> {
    Own(D, b) + Side(S, Own(S, b))
  }

  lemma {:induction false} ScopeWeights(b: Prog)
    ensures Weight(Own(S, b)) <= Size(b)
    ensures Weight(ScopeDyns(b)) <= Size(b)
  {
    OwnWeights(b);
    SideWeight(S, Own(S, b));
    WeightConcat(Own(D, b), Side(S, Own(S, b)));
  }

  /** Statics that dynamic handlers register: nothing ever runs them in this scope. */
  function Leak(b: Prog): seq<Entry> {
    Side(D, ScopeDyns(b))
  }

  /** Bytes copied into the pool for `l`. */
  function ByteCount(l: seq<Entry>): nat {
    if l == [] then 0
    else ByteCount(l[..|l| - 1]) + (if l[|l| - 1].Static? then |l[|l| - 1].bytes| else 0)
  }

  /** Bytes copied into the pool while the handlers of `l` run. */
  function RunBytes(k: Kind, l: seq<Entry>): nat
    decreases Weight(l)
  {
    if l == [] then 0
    else
      var h := l[|l| - 1].h;
      OwnWeight(k, h);
      ByteCount(Own(S, h)) + RunBytes(k, Own(k, h)) + RunBytes(k, l[..|l| - 1])
  }

  /** The observations of a body: its effects, its registrations, and the whole
      of each wrapped call where the call stands. */
  function BodyTrace(p: Prog, arg: Arg, depth: int): seq<Event>
    decreases Size(p), 0
  {
    match p
    case Nil => []
    case Emit(op, next) => [Did(op, arg)] + BodyTrace(next, arg, depth)
    case SetErr(code, next) => [ErrSet(code)] + BodyTrace(next, arg, depth)
    case Defer(h, v, next) => [Registered(Dynamic(h, v))] + BodyTrace(next, arg, depth)
    case StaticDefer(h, bytes, next) => [Registered(Static(h, bytes))] + BodyTrace(next, arg, depth)
    case Call(body, next) => ScopeTrace(body, arg, depth + 1) + BodyTrace(next, arg, depth)
  }

  /** The last handler of `l` with its own argument, then whatever it registered
      in the same table, then the handlers before it. */
  function RunTrace(k: Kind, l: seq<Entry>, depth: int): seq<Event>
    decreases Weight(l), 0
  {
    if l == [] then []
    else
      var e := l[|l| - 1];
      OwnWeight(k, e.h);
      [Ran(e)] + BodyTrace(e.h, ArgOf(e), depth) + RunTrace(k, Own(k, e.h), depth) + RunTrace(k, l[..|l| - 1], depth)
  }

  /** A wrapped call: error cleared, an empty frame, the body, the static handlers
      in reverse, the dynamic handlers in reverse. */
  function ScopeTrace(b: Prog, arg: Arg, depth: int): seq<Event>
    decreases Size(b), 1
  {
    ScopeWeights(b);
    [ErrSet(0), Enter(depth, 0, 0, 0)]
    + BodyTrace(b, arg, depth)
    + RunTrace(S, Own(S, b), depth)
    + RunTrace(D, ScopeDyns(b), depth)
    + [Leave(depth, |Leak(b)|, 0, RunBytes(D, ScopeDyns(b)))]
  }

  /** The table holds `l` on top of `base` other entries, and never more than it
      can while the handlers of `l` run and add to it. */
  predicate Room(k: Kind, l: seq<Entry>, base: nat)
    decreases Weight(l)
  {
    l == [] ||
    var n := |l| - 1;
    OwnWeight(k, l[n].h);
    base + n < Cap(k) && Room(k, l[..n], base) && Room(k, Own(k, l[n].h), base + n)
  }

  /** Every wrapped call made by `p` itself fits, `p` running at `depth`. */
  predicate CallsFit(p: Prog, depth: int)
    decreases Size(p), 0
  {
    match p
    case Nil => true
    case Emit(_, next) => CallsFit(next, depth)
    case SetErr(_, next) => CallsFit(next, depth)
    case Defer(_, _, next) => CallsFit(next, depth)
    case StaticDefer(_, _, next) => CallsFit(next, depth)
    case Call(body, next) => ScopeFits(body, depth + 1) && CallsFit(next, depth)
  }

  /** Every wrapped call made while the handlers of `l` run fits. */
  predicate RunCallsFit(k: Kind, l: seq<Entry>, depth: int)
    decreases Weight(l), 0
  {
    l == [] ||
    var h := l[|l| - 1].h;
    OwnWeight(k, h);
    CallsFit(h, depth) && RunCallsFit(k, Own(k, h), depth) && RunCallsFit(k, l[..|l| - 1], depth)
  }

  /** The call stays within the frames, the tables and the pool. */
  predicate ScopeFits(b: Prog, depth: int)
    decreases Size(b), 1
  {
    ScopeWeights(b);
    && depth < STACK_SIZE
    && Room(S, Own(S, b), 0)
    && Room(D, ScopeDyns(b), 0)
    && |Leak(b)| <= MAX_STATIC_DEFERS
    && ByteCount(Own(S, b)) + RunBytes(S, Own(S, b)) <= POOL_SIZE
    && RunBytes(D, ScopeDyns(b)) <= POOL_SIZE
    && CallsFit(b, depth)
    && RunCallsFit(S, Own(S, b), depth)
    && RunCallsFit(D, ScopeDyns(b), depth)
  }

  /** No dynamic handler of the scope calls static_defer on its own frame, and
      neither does one of any call made inside.  `inDyn`: `p` runs as part of a
      dynamic handler of the frame. */
  predicate Clean(p: Prog, inDyn: bool) {
    match p
    case Nil => true
    case Emit(_, next) => Clean(next, inDyn)
    case SetErr(_, next) => Clean(next, inDyn)
    case Defer(h, _, next) => Clean(h, true) && Clean(next, inDyn)
    case StaticDefer(h, _, next) => !inDyn && Clean(h, false) && Clean(next, inDyn)
    case Call(body, next) => Clean(body, false) && Clean(next, inDyn)
  }

  /** The same of the calls made inside only; nothing is asked of the frame itself. */
  predicate CallsClean(p: Prog) {
    match p
    case Nil => true
    case Emit(_, next) => CallsClean(next)
    case SetErr(_, next) => CallsClean(next)
    case Defer(h, _, next) => CallsClean(h) && CallsClean(next)
    case StaticDefer(h, _, next) => CallsClean(h) && CallsClean(next)
    case Call(body, next) => Clean(body, false) && CallsClean(next)
  }

  /** Handlers that register nothing on their frame. */
  predicate NonRegistering(p: Prog) {
    match p
    case Nil => true
    case Emit(_, next) => NonRegistering(next)
    case SetErr(_, next) => NonRegistering(next)
    case Defer(_, _, _) => false
    case StaticDefer(_, _, _) => false
    case Call(_, next) => NonRegistering(next)
  }
}
