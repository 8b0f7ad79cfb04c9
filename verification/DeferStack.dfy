/**
 src/errm as it is in memory: twelve frames of fixed tables over a byte pool,
 the index of the current frame, and the error code.  Every method is proved
 against the machine on values.
 */
module DeferStack {
  import opened Effects
  import opened DeferTrees
  import M = DeferMachine

  /** A handler for static_defer knows the size of the argument type it is written for. */
  datatype StaticHandle = StaticHandle(h: Prog, size: nat)

  /** A pointer handed to running code; one into a pool is frame and offset. */
  datatype ArgPtr = NoPtr | PoolPtr(frame: nat, off: nat, size: nat) | RawPtr(p: int)

  /** memcpy of `src` to `dst + at`. */
  method CopyInto(dst: array<Byte>, at: nat, src: seq<Byte>)
    requires at + |src| <= dst.Length
    modifies dst
    ensures forall j | 0 <= j < dst.Length && !(at <= j < at + |src|) :: dst[j] == old(dst[j])
    ensures dst[at..at + |src|] == src
  {
    forall i | 0 <= i < |src| {
      dst[at + i] := src[i];
    }
  }

  /** One `struct defer_data_t`. */
  class Frame {
    const staticDefers: array<StaticHandle>
    const staticArgs: array<nat>
    const dynDefers: array<Prog>
    const dynArgs: array<int>
    const pool: array<Byte>
    var staticLen: nat
    var dynLen: nat
    var used: nat
    ghost var view: M.Frame

    ghost function Footprint(): set<object> {
      {this, staticDefers, staticArgs, dynDefers, dynArgs, pool}
    }

    /** The tables say what `view` says; every pending static's bytes are in the
        pool, in ranges that follow one another within the used part. */
    ghost predicate Valid()
      reads this, staticDefers, staticArgs, dynDefers, dynArgs, pool
    {
      && staticDefers.Length == staticArgs.Length == MAX_STATIC_DEFERS
      && dynDefers.Length == dynArgs.Length == MAX_DYN_DEFERS
      && pool.Length == POOL_SIZE
      && staticArgs as object != dynArgs as object && staticArgs as object != pool as object
      && dynArgs as object != pool as object
      && staticLen == |view.stat| <= MAX_STATIC_DEFERS
      && dynLen == |view.dyn| <= MAX_DYN_DEFERS
      && used == view.used <= POOL_SIZE
      && (forall i | 0 <= i < staticLen :: StaticHeld(i))
      && (forall i, j | 0 <= i < j < staticLen :: staticArgs[i] + staticDefers[i].size <= staticArgs[j])
      && (forall i | 0 <= i < dynLen :: view.dyn[i] == Dynamic(dynDefers[i], dynArgs[i]))
    }

    ghost predicate StaticHeld(i: nat)
      requires i < |view.stat| && i < staticDefers.Length && i < staticArgs.Length
      requires used <= pool.Length
      reads this, staticDefers, staticArgs, pool
    {
      && staticArgs[i] + staticDefers[i].size <= used
      && view.stat[i] == Static(staticDefers[i].h, pool[staticArgs[i]..staticArgs[i] + staticDefers[i].size])
    }

    /** What a change elsewhere in the frame, or a pop, leaves held. */
    twostate lemma KeepStatics()
      requires old(Valid())
      requires unchanged(staticDefers) && unchanged(staticArgs) && unchanged(pool)
      requires used == old(used) && |view.stat| <= |old(view.stat)|
      requires view.stat == old(view.stat)[..|view.stat|]
      ensures forall i: nat | i < |view.stat| :: StaticHeld(i)
    {
      forall i: nat | i < |view.stat| ensures StaticHeld(i) {
        assert old(StaticHeld(i));
      }
    }

    constructor ()
      ensures Valid() && view == M.EMPTY && fresh(Footprint())
    {
      staticDefers := new StaticHandle[MAX_STATIC_DEFERS](_ => StaticHandle(Nil, 0));
      staticArgs := new nat[MAX_STATIC_DEFERS](_ => 0);
      dynDefers := new Prog[MAX_DYN_DEFERS](_ => Nil);
      dynArgs := new int[MAX_DYN_DEFERS](_ => 0);
      pool := new Byte[POOL_SIZE](_ => 0);
      staticLen, dynLen, used := 0, 0, 0;
      view := M.EMPTY;
    }

    /** One more static at the end of the table, its bytes at the end of the pool. */
    twostate lemma StaticAdded()
      requires old(Valid()) && old(staticLen) < MAX_STATIC_DEFERS && staticLen == old(staticLen) + 1
      requires old(used) <= used <= POOL_SIZE && forall j | 0 <= j < old(used) :: pool[j] == old(pool[j])
      requires forall i | 0 <= i < old(staticLen) ::
        staticArgs[i] == old(staticArgs[i]) && staticDefers[i] == old(staticDefers[i])
      requires
        var last := staticDefers[old(staticLen)];
        && staticArgs[old(staticLen)] == old(used) && used == old(used) + last.size
        && view == M.Add(Static(last.h, pool[old(used)..used]), old(view))
      requires unchanged(this`dynLen) && unchanged(dynDefers) && unchanged(dynArgs)
      ensures Valid()
    {
      forall i: nat | i < old(staticLen)
        ensures staticArgs[i] + staticDefers[i].size <= old(used) && StaticHeld(i)
      {
        assert old(StaticHeld(i));
        assert pool[staticArgs[i]..staticArgs[i] + staticDefers[i].size]
            == old(pool[staticArgs[i]..staticArgs[i] + staticDefers[i].size]);
      }
    }

    /** static_defer on this frame; `ok` is false where the code aborts. */
    method StaticDefer(h: Prog, arg: seq<Byte>) returns (ok: bool)
      requires Valid()
      modifies this, staticDefers, staticArgs, pool
      ensures Valid()
      ensures ok <==> M.CanAdd(Static(h, arg), old(view))
      ensures view == if ok then M.Add(Static(h, arg), old(view)) else old(view)
      ensures old(used) <= used && forall j | 0 <= j < old(used) :: pool[j] == old(pool[j])
    {
      if staticLen >= MAX_STATIC_DEFERS {
        return false;
      }
      if used + |arg| > POOL_SIZE {
        return false;
      }
      hide StaticHeld;
      var a := used;
      used := used + |arg|;
      CopyInto(pool, a, arg);
      staticArgs[staticLen] := a;
      staticDefers[staticLen] := StaticHandle(h, |arg|);
      staticLen := staticLen + 1;
      view := M.Add(Static(h, arg), view);
      ok := true;
      StaticAdded();
    }

    /** defer on this frame. */
    method Defer(h: Prog, p: int) returns (ok: bool)
      requires Valid()
      modifies this, dynDefers, dynArgs
      ensures Valid()
      ensures ok <==> M.CanAdd(Dynamic(h, p), old(view))
      ensures view == if ok then M.Add(Dynamic(h, p), old(view)) else old(view)
      ensures used == old(used)
    {
      if dynLen >= MAX_DYN_DEFERS {
        return false;
      }
      dynArgs[dynLen] := p;
      dynDefers[dynLen] := h;
      dynLen := dynLen + 1;
      view := M.Add(Dynamic(h, p), view);
      ok := true;
      KeepStatics();
    }

    /** One turn of the first loop of run_defers, up to the call of the handler. */
    method PopStatic() returns (h: Prog, off: nat, size: nat)
      requires Valid() && staticLen != 0
      modifies this
      ensures Valid() && used == old(used)
      ensures
        var l := old(view).stat;
        && view == old(view).WithPending(S, l[..|l| - 1])
        && off + size <= used
        && l[|l| - 1] == Static(h, pool[off..off + size])
    {
      staticLen := staticLen - 1;
      h := staticDefers[staticLen].h;
      size := staticDefers[staticLen].size;
      off := staticArgs[staticLen];
      assert old(StaticHeld(staticLen - 1));
      view := view.(stat := view.stat[..staticLen]);
      KeepStatics();
    }

    /** One turn of the second loop. */
    method PopDyn() returns (h: Prog, p: int)
      requires Valid() && dynLen != 0
      modifies this
      ensures Valid() && used == old(used)
      ensures
        var l := old(view).dyn;
        && view == old(view).WithPending(D, l[..|l| - 1])
        && l[|l| - 1] == Dynamic(h, p)
    {
      dynLen := dynLen - 1;
      h, p := dynDefers[dynLen], dynArgs[dynLen];
      view := view.(dyn := view.dyn[..dynLen]);
      KeepStatics();
    }

    /** `pool.used = 0`, between the loops. */
    method ResetPool()
      requires Valid() && view.stat == []
      modifies this
      ensures Valid() && view == old(view).(used := 0)
    {
      used := 0;
      view := view.(used := 0);
    }
  }

  /** Up to frame `n`, what was in use of each pool still is, unchanged. */
  ghost predicate Grew(n: int, v: seq<M.Frame>, b: seq<seq<Byte>>, v': seq<M.Frame>, b': seq<seq<Byte>>) {
    && |v| == |b| == |v'| == |b'| == STACK_SIZE
    && forall i | 0 <= i <= n && i < STACK_SIZE :: GrewAt(v[i].used, b[i], v'[i].used, b'[i])
  }

  ghost predicate GrewAt(used: nat, b: seq<Byte>, used': nat, b': seq<Byte>) {
    used <= used' && used <= |b| && used <= |b'| && b[..used] == b'[..used]
  }

  lemma GrewTwice(n: int, v: seq<M.Frame>, b: seq<seq<Byte>>, v': seq<M.Frame>, b': seq<seq<Byte>>,
                  m: int, v'': seq<M.Frame>, b'': seq<seq<Byte>>)
    requires Grew(n, v, b, v', b') && Grew(m, v', b', v'', b'')
    ensures forall k | k <= n && k <= m :: Grew(k, v, b, v'', b'')
  {
    forall i | 0 <= i <= n && i <= m && i < STACK_SIZE ensures GrewAt(v[i].used, b[i], v''[i].used, b''[i]) {
      var u := v[i].used;
      assert GrewAt(u, b[i], v'[i].used, b'[i]);
      assert GrewAt(v'[i].used, b'[i], v''[i].used, b''[i]);
      assert b'[i][..u] == b'[i][..v'[i].used][..u];
      assert b''[i][..u] == b''[i][..v'[i].used][..u];
    }
  }

  /** `a` is a good pointer while frame `top` is current, and `v` is behind it. */
  ghost predicate PointsAt(a: ArgPtr, v: Arg, top: int, views: seq<M.Frame>, bytes: seq<seq<Byte>>) {
    match a
    case NoPtr => v == NoArg
    case RawPtr(p) => v == Ptr(p)
    case PoolPtr(f, off, size) =>
      && f <= top && f < |views| && f < |bytes|
      && off + size <= views[f].used <= |bytes[f]|
      && v == Bytes(bytes[f][off..off + size])
  }

  lemma StillPointsAt(a: ArgPtr, x: Arg, top: int, v: seq<M.Frame>, b: seq<seq<Byte>>,
                      n: int, v': seq<M.Frame>, b': seq<seq<Byte>>)
    requires PointsAt(a, x, top, v, b) && Grew(n, v, b, v', b') && top <= n
    requires forall i | 0 <= i < |v'| && i < |b'| :: v'[i].used <= |b'[i]|
    ensures PointsAt(a, x, top, v', b')
  {
    if a.PoolPtr? {
      var f, lo, hi := a.frame, a.off, a.off + a.size;
      assert GrewAt(v[f].used, b[f], v'[f].used, b'[f]);
      assert b[f][lo..hi] == b[f][..v[f].used][lo..hi];
      assert b'[f][lo..hi] == b'[f][..v[f].used][lo..hi];
    }
  }

  /** One turn of a loop of run_defers. */
  lemma DrainTurn(k: Kind, s: M.State)
    requires M.Wf(s) && 0 <= s.curr && s.Top().Pending(k) != []
    ensures
      var l := s.Top().Pending(k);
      var e := l[|l| - 1];
      && M.Wf(M.Pop(k, s)) && M.Pop(k, s).curr == s.curr
      && M.TotalWeight(M.Pop(k, s).frames) + Size(e.h) < M.TotalWeight(s.frames)
      && var x := M.Exec(e.h, ArgOf(e), M.Pop(k, s));
         && (x.Abort? ==> M.Drain(k, s) == M.Abort)
         && (x.Done? ==>
            && M.TotalWeight(x.st.frames) < M.TotalWeight(s.frames) && x.st.curr == s.curr
            && M.Drain(k, s) == M.Drain(k, x.st))
  {
    hide M.Exec, M.TotalWeight, Size;
    M.PopWeight(k, s);
  }

  lemma DrainEnd(k: Kind, s: M.State)
    requires M.Wf(s) && 0 <= s.curr && s.Top().Pending(k) == []
    ensures M.Drain(k, s) == M.Done(s)
  {
  }

  lemma WrappedRefused(body: Prog, v: Arg, s: M.State)
    requires M.Wf(s) && s.curr >= STACK_SIZE - 1
    ensures M.Wrapped(body, v, s) == M.Abort
  {
  }

  /** The steps of a wrapper that could push. */
  lemma WrappedTurn(body: Prog, v: Arg, s: M.State)
    requires M.Wf(s) && s.curr < STACK_SIZE - 1
    ensures
      var p := M.Push(s);
      && M.Wf(p) && p.curr == s.curr + 1 && p.frames == s.frames
      && var x := M.Exec(body, v, p);
         && (x.Abort? ==> M.Wrapped(body, v, s) == M.Abort)
         && (x.Done? ==>
            && M.Wf(x.st) && x.st.curr == s.curr + 1
            && M.TotalWeight(x.st.frames) <= M.TotalWeight(s.frames) + Size(body)
            && var y := M.RunDefers(x.st);
               && (y.Abort? ==> M.Wrapped(body, v, s) == M.Abort)
               && (y.Done? ==>
                  && M.Wf(y.st) && y.st.curr == s.curr + 1
                  && M.Wrapped(body, v, s) == M.Done(M.Leaving(y.st))))
  {
  }

  /** `struct defer_stack_t` and `struct error_manager` of one thread, with the
      observations made so far. */
  class Stack {
    const frames: seq<Frame>
    var curr: int
    var err: int
    var trace: seq<Event>
    ghost var views: seq<M.Frame>      // the value of each frame
    ghost var bytes: seq<seq<Byte>>    // the content of each pool
    ghost const Repr: set<object>

    ghost predicate Apart() {
      && |frames| == STACK_SIZE
      && this !in Repr
      && (forall i | 0 <= i < STACK_SIZE :: frames[i].Footprint() <= Repr)
      && (forall i, j | 0 <= i < j < STACK_SIZE :: frames[i].Footprint() !! frames[j].Footprint())
    }

    ghost predicate Valid()
      reads this, Repr
      ensures Valid() ==> M.Wf(Abs()) && |frames| == |bytes| == STACK_SIZE
      ensures Valid() ==> forall i | 0 <= i < STACK_SIZE :: views[i].used <= |bytes[i]|
    {
      && Apart()
      && -1 <= curr < STACK_SIZE
      && |views| == |bytes| == STACK_SIZE
      && forall i | 0 <= i < STACK_SIZE ::
        && frames[i].Valid()
        && frames[i].view == views[i]
        && frames[i].pool[..] == bytes[i]
    }

    /** The value of the stack. */
    ghost function Abs(): M.State
      reads this
    {
      M.State(views, curr, err, trace)
    }

    /** Only the current frame's objects changed: the rest of the stack is valid still. */
    twostate lemma TopChanged(i: int)
      requires old(Valid()) && 0 <= curr < STACK_SIZE && curr == old(curr) == i
      requires forall o | o in Repr && o !in frames[i].Footprint() :: unchanged(o)
      requires frames[i].Valid()
      requires views == old(views)[i := frames[i].view] && bytes == old(bytes)[i := frames[i].pool[..]]
      ensures Valid()
      ensures Grew(i - 1, old(views), old(bytes), views, bytes)
      ensures GrewAt(old(views)[i].used, old(bytes)[i], views[i].used, bytes[i])
              ==> Grew(i, old(views), old(bytes), views, bytes)
    {
      forall j | 0 <= j < STACK_SIZE && j != i
        ensures frames[j].Valid() && frames[j].view == views[j] && frames[j].pool[..] == bytes[j]
      {
        assert old(frames[j].Valid());
        assert frames[j].Footprint() !! frames[i].Footprint();
      }
    }

    lemma TopValid()
      requires Valid() && 0 <= curr
      ensures frames[curr].Valid() && frames[curr].view == views[curr] && frames[curr].pool[..] == bytes[curr]
      ensures frames[curr].Footprint() <= Repr && this !in Repr
    {
    }

    constructor ()
      ensures Valid() && fresh(this) && fresh(Repr)
      ensures Abs() == M.State(seq(STACK_SIZE, _ => M.EMPTY), -1, 0, [])
    {
      var fs: seq<Frame> := [];
      ghost var r: set<object> := {};
      ghost var bs: seq<seq<Byte>> := [];
      while |fs| < STACK_SIZE
        invariant |fs| <= STACK_SIZE
        invariant forall i | 0 <= i < |fs| :: fs[i].Valid() && fs[i].view == M.EMPTY
        invariant forall i | 0 <= i < |fs| :: fs[i].Footprint() <= r
        invariant forall i, j | 0 <= i < j < |fs| :: fs[i].Footprint() !! fs[j].Footprint()
        invariant fresh(r)
        invariant |bs| == |fs| && forall i | 0 <= i < |fs| :: bs[i] == fs[i].pool[..]
      {
        var f := new Frame();
        fs := fs + [f];
        r := r + f.Footprint();
        bs := bs + [f.pool[..]];
      }
      frames := fs;
      curr, err, trace := -1, 0, [];
      views := seq(STACK_SIZE, _ => M.EMPTY);
      bytes := bs;
      Repr := r;
    }

    /** errm_error; errm_clear is `SetError(0)`. */
    method SetError(code: int)
      requires Valid()
      modifies this`err, this`trace
      ensures Valid() && Abs() == old(Abs()).SetError(code)
    {
      err := code;
      trace := trace + [ErrSet(code)];
    }

    /** Code that is not about defers, seen as one effect on its argument. */
    method Emit(op: Op, arg: Arg)
      requires Valid()
      modifies this`trace
      ensures Valid() && Abs() == old(Abs()).Log(Did(op, arg))
    {
      trace := trace + [Did(op, arg)];
    }

    /** defer_push. */
    method Push() returns (ok: bool)
      requires Valid()
      modifies this`curr, this`trace
      ensures Valid() && ok == (old(curr) < STACK_SIZE - 1)
      ensures !ok ==> Abs() == old(Abs())
      ensures ok ==>
        var s := old(Abs()).(curr := old(curr) + 1);
        Abs() == s.Log(Enter(s.curr, |s.Top().stat|, |s.Top().dyn|, s.Top().used))
    {
      if curr >= STACK_SIZE - 1 {
        return false;
      }
      curr := curr + 1;
      trace := trace + [Enter(curr, frames[curr].staticLen, frames[curr].dynLen, frames[curr].used)];
      return true;
    }

    /** defer_pop. */
    method Pop() returns (ok: bool)
      requires Valid()
      modifies this`curr, this`trace
      ensures Valid() && ok == (old(curr) > -1)
      ensures !ok ==> Abs() == old(Abs())
      ensures ok ==> M.Wf(old(Abs())) && Abs() == M.Leaving(old(Abs()))
    {
      if curr <= -1 {
        return false;
      }
      trace := trace + [Leave(curr, frames[curr].staticLen, frames[curr].dynLen, frames[curr].used)];
      curr := curr - 1;
      return true;
    }

    /** The global static_defer; false where it aborts. */
    method StaticDefer(h: Prog, arg: seq<Byte>) returns (ok: bool)
      requires Valid() && 0 <= curr
      modifies this, Repr
      ensures Valid()
      ensures M.Register(Static(h, arg), old(Abs())) == if ok then M.Done(Abs()) else M.Abort
      ensures Grew(curr, old(views), old(bytes), views, bytes)
    {
      hide Valid;
      TopValid();
      ok := frames[curr].StaticDefer(h, arg);
      views, bytes := views[curr := frames[curr].view], bytes[curr := frames[curr].pool[..]];
      if ok {
        trace := trace + [Registered(Static(h, arg))];
      }
      TopChanged(curr);
    }

    /** The global defer; false where it aborts. */
    method Defer(h: Prog, p: int) returns (ok: bool)
      requires Valid() && 0 <= curr
      modifies this, Repr
      ensures Valid()
      ensures M.Register(Dynamic(h, p), old(Abs())) == if ok then M.Done(Abs()) else M.Abort
      ensures Grew(curr, old(views), old(bytes), views, bytes)
    {
      hide Valid;
      TopValid();
      ok := frames[curr].Defer(h, p);
      views, bytes := views[curr := frames[curr].view], bytes[curr := frames[curr].pool[..]];
      if ok {
        trace := trace + [Registered(Dynamic(h, p))];
      }
      TopChanged(curr);
    }

    /** What is behind a pointer now. */
    method Read(a: ArgPtr, ghost v: Arg) returns (r: Arg)
      requires Valid() && PointsAt(a, v, curr, views, bytes)
      ensures r == v
    {
      match a
      case NoPtr => r := NoArg;
      case RawPtr(p) => r := Ptr(p);
      case PoolPtr(f, off, size) => r := Bytes(frames[f].pool[off..off + size]);
    }

    /** Run `p` on the pointer `a`, now pointing at `v`. */
    method Exec(p: Prog, a: ArgPtr, ghost v: Arg) returns (ok: bool)
      requires Valid() && 0 <= curr && PointsAt(a, v, curr, views, bytes)
      modifies this, Repr
      ensures ok == M.Exec(p, v, old(Abs())).Done?
      ensures ok ==> Valid() && M.Exec(p, v, old(Abs())) == M.Done(Abs())
      ensures ok ==> Grew(old(curr), old(views), old(bytes), views, bytes)
      decreases M.TotalWeight(views) + Size(p), 0
    {
      hide Valid, Grew, PointsAt;
      ghost var v0, b0 := views, bytes;
      match p
      case Nil =>
        ok := true;
        GrewNot(curr);
      case Emit(op, next) =>
        var arg := Read(a, v);
        Emit(op, arg);
        ok := Exec(next, a, v);
      case SetErr(code, next) =>
        SetError(code);
        ok := Exec(next, a, v);
      case Defer(h, q, next) =>
        ok := Defer(h, q);
        if ok {
          ok := ExecRest(next, a, v, v0, b0);
        }
      case StaticDefer(h, bytes, next) =>
        ok := StaticDefer(h, bytes);
        if ok {
          ok := ExecRest(next, a, v, v0, b0);
        }
      case Call(body, next) =>
        ok := Wrapped(body, a, v);
        if ok {
          ok := ExecRest(next, a, v, v0, b0);
        }
    }

    lemma GrewNot(n: int)
      requires Valid()
      ensures Grew(n, views, bytes, views, bytes)
    {
    }

    /** The rest of a program whose first statement grew the pools from `v0`, `b0`. */
    method ExecRest(p: Prog, a: ArgPtr, ghost v: Arg, ghost v0: seq<M.Frame>, ghost b0: seq<seq<Byte>>)
      returns (ok: bool)
      requires Valid() && 0 <= curr && PointsAt(a, v, curr, v0, b0) && Grew(curr, v0, b0, views, bytes)
      modifies this, Repr
      ensures ok == M.Exec(p, v, old(Abs())).Done?
      ensures ok ==> Valid() && M.Exec(p, v, old(Abs())) == M.Done(Abs())
      ensures ok ==> Grew(old(curr), v0, b0, views, bytes)
      decreases M.TotalWeight(views) + Size(p), 1
    {
      hide Valid, Grew, PointsAt;
      StillPointsAt(a, v, curr, v0, b0, curr, views, bytes);
      ghost var n, v1, b1 := curr, views, bytes;
      ok := Exec(p, a, v);
      if ok {
        GrewTwice(n, v0, b0, v1, b1, n, views, bytes);
      }
    }

    /** The code of the `edf_func` macros. */
    method Wrapped(body: Prog, a: ArgPtr, ghost v: Arg) returns (ok: bool)
      requires Valid() && PointsAt(a, v, curr, views, bytes)
      modifies this, Repr
      ensures ok == M.Wrapped(body, v, old(Abs())).Done?
      ensures ok ==> Valid() && M.Wrapped(body, v, old(Abs())) == M.Done(Abs())
      ensures ok ==> Grew(old(curr), old(views), old(bytes), views, bytes)
      decreases M.TotalWeight(views) + Size(body), 4
    {
      hide Valid, Grew, M.Exec, M.RunDefers, M.TotalWeight, M.Wrapped, M.Leaving, Size;
      ghost var n, v0, b0 := curr, views, bytes;
      SetError(0);
      ok := Push();
      if !ok {
        WrappedRefused(body, v, old(Abs()));
        return;
      }
      WrappedTurn(body, v, old(Abs()));
      assert Abs() == M.Push(old(Abs()));
      ok := Exec(body, a, v);
      if !ok {
        return;
      }
      ghost var v1, b1 := views, bytes;
      ok := RunDefers();
      if !ok {
        return;
      }
      GrewTwice(n + 1, v0, b0, v1, b1, n, views, bytes);
      ok := Pop();
    }

    method RunDefers() returns (ok: bool)
      requires Valid() && 0 <= curr
      modifies this, Repr
      ensures ok == M.RunDefers(old(Abs())).Done?
      ensures ok ==> Valid() && M.RunDefers(old(Abs())) == M.Done(Abs())
      ensures ok ==> Grew(old(curr) - 1, old(views), old(bytes), views, bytes)
      decreases M.TotalWeight(views), 3
    {
      hide Valid, Grew;
      ghost var n, v0, b0 := curr, views, bytes;
      ok := DrainStatics();
      if !ok {
        return;
      }
      ghost var v1, b1 := views, bytes;
      ResetPool();
      GrewTwice(n, v0, b0, v1, b1, n - 1, views, bytes);
      ghost var v2, b2 := views, bytes;
      ok := DrainDyns();
      if ok {
        GrewTwice(n - 1, v0, b0, v2, b2, n, views, bytes);
      }
    }

    /** Between the loops of run_defers. */
    method ResetPool()
      requires Valid() && 0 <= curr && views[curr].stat == []
      modifies this, Repr
      ensures Valid() && Abs() == M.ResetPool(old(Abs())) && M.TotalWeight(views) == old(M.TotalWeight(views))
      ensures Grew(curr - 1, old(views), old(bytes), views, bytes)
    {
      hide Valid;
      TopValid();
      frames[curr].ResetPool();
      views, bytes := views[curr := frames[curr].view], bytes[curr := frames[curr].pool[..]];
      TopChanged(curr);
      M.TotalWeightUpdate(old(views), curr, views[curr]);
    }

    /** The first loop of run_defers. */
    method DrainStatics() returns (ok: bool)
      requires Valid() && 0 <= curr
      modifies this, Repr
      ensures ok == M.Drain(S, old(Abs())).Done?
      ensures ok ==> Valid() && M.Drain(S, old(Abs())) == M.Done(Abs())
      ensures ok ==> views[curr].stat == []
      ensures ok ==> Grew(old(curr), old(views), old(bytes), views, bytes)
      decreases M.TotalWeight(views), 1
    {
      hide Valid, Grew, M.Exec, M.Drain, M.TotalWeight, Size;
      ghost var n, v0, b0 := curr, views, bytes;
      GrewNot(curr);
      ok := true;
      while frames[curr].staticLen != 0
        invariant Valid() && curr == n && ok
        invariant M.Drain(S, Abs()) == M.Drain(S, old(Abs()))
        invariant Grew(n, v0, b0, views, bytes)
        invariant M.TotalWeight(views) <= old(M.TotalWeight(views))
        decreases M.TotalWeight(views)
      {
        TopValid();
        DrainTurn(S, Abs());
        ghost var v1, b1 := views, bytes;
        var h, off, size, x := TakeStatic();
        GrewTwice(n, v0, b0, v1, b1, n, views, bytes);
        v1, b1 := views, bytes;
        ok := Exec(h, PoolPtr(curr, off, size), x);
        if !ok {
          return;
        }
        GrewTwice(n, v0, b0, v1, b1, n, views, bytes);
      }
      TopValid();
      DrainEnd(S, Abs());
    }

    /** Pops the last static of the current frame and notes that it runs. */
    method TakeStatic() returns (h: Prog, off: nat, size: nat, ghost x: Arg)
      requires Valid() && 0 <= curr && views[curr].stat != []
      modifies this, Repr
      ensures Valid() && Abs() == M.Pop(S, old(Abs()))
      ensures Grew(curr, old(views), old(bytes), views, bytes)
      ensures var l := old(views)[curr].stat; l[|l| - 1].h == h && ArgOf(l[|l| - 1]) == x
      ensures PointsAt(PoolPtr(curr, off, size), x, curr, views, bytes)
    {
      hide Valid;
      TopValid();
      h, off, size := frames[curr].PopStatic();
      views, bytes := views[curr := frames[curr].view], bytes[curr := frames[curr].pool[..]];
      x := Bytes(frames[curr].pool[off..off + size]);
      trace := trace + [Ran(Static(h, frames[curr].pool[off..off + size]))];
      TopChanged(curr);
    }

    /** The second loop of run_defers. */
    method DrainDyns() returns (ok: bool)
      requires Valid() && 0 <= curr
      modifies this, Repr
      ensures ok == M.Drain(D, old(Abs())).Done?
      ensures ok ==> Valid() && M.Drain(D, old(Abs())) == M.Done(Abs())
      ensures ok ==> Grew(old(curr), old(views), old(bytes), views, bytes)
      decreases M.TotalWeight(views), 2
    {
      hide Valid, Grew, M.Exec, M.Drain, M.TotalWeight, Size;
      ghost var n, v0, b0 := curr, views, bytes;
      GrewNot(curr);
      ok := true;
      while frames[curr].dynLen != 0
        invariant Valid() && curr == n && ok
        invariant M.Drain(D, Abs()) == M.Drain(D, old(Abs()))
        invariant Grew(n, v0, b0, views, bytes)
        invariant M.TotalWeight(views) <= old(M.TotalWeight(views))
        decreases M.TotalWeight(views)
      {
        TopValid();
        DrainTurn(D, Abs());
        ghost var v1, b1 := views, bytes;
        var h, p := TakeDyn();
        GrewTwice(n, v0, b0, v1, b1, n, views, bytes);
        v1, b1 := views, bytes;
        ok := Exec(h, RawPtr(p), Ptr(p));
        if !ok {
          return;
        }
        GrewTwice(n, v0, b0, v1, b1, n, views, bytes);
      }
      TopValid();
      DrainEnd(D, Abs());
    }

    /** Pops the last dynamic of the current frame and notes that it runs. */
    method TakeDyn() returns (h: Prog, p: int)
      requires Valid() && 0 <= curr && views[curr].dyn != []
      modifies this, Repr
      ensures Valid() && Abs() == M.Pop(D, old(Abs()))
      ensures Grew(curr, old(views), old(bytes), views, bytes)
      ensures var l := old(views)[curr].dyn; l[|l| - 1] == Dynamic(h, p)
    {
      hide Valid;
      TopValid();
      h, p := frames[curr].PopDyn();
      views, bytes := views[curr := frames[curr].view], bytes[curr := frames[curr].pool[..]];
      trace := trace + [Ran(Dynamic(h, p))];
      TopChanged(curr);
    }
  }
}
