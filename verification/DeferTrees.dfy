/**
 Call trees run by the defer stack of src/errm.

 A `Prog` is one finite execution of C code that uses the defer interface: the
 body of an `edf_func` wrapper, or a deferred handler.  Handlers are themselves
 programs, so a handler may register further handlers on the running frame and
 may make wrapped calls.
 */
module DeferTrees {
  import opened Effects

  const STACK_SIZE := 12
  const MAX_DYN_DEFERS := 12
  const MAX_STATIC_DEFERS := 6
  const POOL_SIZE := 48

  /** What the code being run was handed: a static handler gets a pointer to the
      bytes copied into the pool, a dynamic one gets the caller's pointer. */
  datatype Arg = NoArg | Bytes(bytes: seq<Byte>) | Ptr(p: int)

  datatype Prog =
    | Nil
    | Emit(op: Op, next: Prog)                                // a visible effect, performed on the argument
    | SetErr(code: int, next: Prog)                           // errm_error(code)
    | Defer(h: Prog, p: int, next: Prog)                      // defer(h, p)
    | StaticDefer(h: Prog, bytes: seq<Byte>, next: Prog)      // static_defer(h, |bytes|, &bytes)
    | Call(body: Prog, next: Prog)                            // a call of an edf_func wrapper

  /** The two tables of a frame. */
  datatype Kind = S | D

  function Other(k: Kind): Kind {
    if k == S then D else S
  }

  function Cap(k: Kind): nat {
    if k == S then MAX_STATIC_DEFERS else MAX_DYN_DEFERS
  }

  /** A registered handler with its argument. */
  datatype Entry = Static(h: Prog, bytes: seq<Byte>) | Dynamic(h: Prog, p: int)

  function ArgOf(e: Entry): Arg {
    match e
    case Static(_, bytes) => Bytes(bytes)
    case Dynamic(_, p) => Ptr(p)
  }

  /** The observations of a run.  `Enter` and `Leave` record what a push finds in
      its frame and what a pop leaves there: both table lengths and the pool use. */
  datatype Event =
    | Did(op: Op, arg: Arg)
    | ErrSet(code: int)
    | Registered(e: Entry)
    | Ran(e: Entry)
    | Enter(depth: int, staticLen: nat, dynLen: nat, used: nat)
    | Leave(depth: int, staticLen: nat, dynLen: nat, used: nat)

  /** The error code after the observations `t`, starting from `code`. */
  function ErrAfter(code: int, t: seq<Event>): int {
    if t == [] then code
    else match t[|t| - 1]
      case ErrSet(c) => c
      case _ => ErrAfter(code, t[..|t| - 1])
  }

  lemma {:induction false} ErrAfterConcat(code: int, t: seq<Event>, u: seq<Event>)
    ensures ErrAfter(code, t + u) == ErrAfter(ErrAfter(code, t), u)
    decreases |u|
  {
    if u == [] {
      assert t + u == t;
    } else {
      assert (t + u)[..|t + u| - 1] == t + u[..|u| - 1];
      ErrAfterConcat(code, t, u[..|u| - 1]);
    }
  }

  /** Number of nodes; a registration counts one more than the entry it makes. */
  function Size(p: Prog): nat {
    match p
    case Nil => 0
    case Emit(_, next) => 1 + Size(next)
    case SetErr(_, next) => 1 + Size(next)
    case Defer(h, _, next) => 2 + Size(h) + Size(next)
    case StaticDefer(h, _, next) => 2 + Size(h) + Size(next)
    case Call(body, next) => 1 + Size(body) + Size(next)
  }

  /** Total size of the handler trees waiting in a table. */
  function Weight(l: seq<Entry>): nat {
    if l == [] then 0 else Weight(l[..|l| - 1]) + 1 + Size(l[|l| - 1].h)
  }

  lemma {:induction false} WeightConcat(a: seq<Entry>, b: seq<Entry>)
    ensures Weight(a + b) == Weight(a) + Weight(b)
    decreases |b|
  {
    if b == [] {
      assert a + b == a;
    } else {
      assert (a + b)[..|a + b| - 1] == a + b[..|b| - 1];
      WeightConcat(a, b[..|b| - 1]);
    }
  }
}
