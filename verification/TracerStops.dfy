/**
 Two questions about tracer.c over whole runs: at which interleavings of several
 tracees the one shared toggle is right, and what the tracees are resumed with.
 */
module TracerStops {
  import opened Wrappers
  import opened ReadString
  import opened Tracer
  import opened TracerRuns

  // ---- The shared toggle on any interleaving ----

  /** An entry of a call numbered other than -1 is taken for one, and an exit is
      not. */
  ghost predicate Right(w: World, e: Event) {
    match e
    case SysEntry(_, regs, _) =>
      AsLong(regs.origRax) != -1 ==> Toggle(w.t.last, AsLong(regs.origRax)) != -1
    case SysExit(pid, _, _) =>
      pid in w.inside ==> Toggle(w.t.last, NumberAt(w, pid)) == -1
    case _ => true
  }

  /** The number read at the exit of `pid`. */
  ghost function NumberAt(w: World, pid: int): int
    requires pid in w.inside
  {
    AsLong(w.inside[pid].given.origRax)
  }

  /** The tracer is right at every stop of its run. */
  ghost predicate AllRight(cbs: Callbacks, limit: nat, w: World, es: seq<Event>)
    decreases |es|
  {
    es == [] || (Right(w, es[0]) && AllRight(cbs, limit, Step(cbs, limit, w, es[0]), es[1..]))
  }

  ghost predicate AllWellFormed(es: seq<Event>) {
    forall i | 0 <= i < |es| :: WellFormed(es[i])
  }

  /** Being right is doing what the monitor does that is told entry from exit. */
  lemma {:induction false} RightIsMonitor(cbs: Callbacks, limit: nat, w: World, e: Event)
    requires WellFormed(e)
    ensures Right(w, e) <==> Step(cbs, limit, w, e) == RefStep(cbs, limit, w, e)
  {
    hide AtEntry, Vetted;
    StatusDecodes(SYSCALL_STOP, 0);
    if e.SysEntry? {
      EntryIsVetted(cbs, limit, w.t.calls, e.regs, e.mem);
    }
    if e.OtherStop? {
      StatusDecodes(e.sig, e.event);
    }
  }

  /** A system call stop, by the number there. */
  datatype Mark = In(n: int) | Out(n: int)

  /** The system call stops of the *monitor's* run: no toggle has a part in them. */
  ghost function Marks(cbs: Callbacks, limit: nat, w: World, es: seq<Event>): seq<Mark>
    decreases |es|
  {
    if es == [] then [] else MarkOf(w, es[0]) + Marks(cbs, limit, RefStep(cbs, limit, w, es[0]), es[1..])
  }

  ghost function MarkOf(w: World, e: Event): seq<Mark> {
    match e
    case SysEntry(_, regs, _) => [In(AsLong(regs.origRax))]
    case SysExit(pid, _, _) => if pid in w.inside then [Out(NumberAt(w, pid))] else []
    case _ => []
  }

  /** No entry directly follows an entry of its own number, and every exit directly
      follows an entry of its number; stops numbered -1 may come anywhere. */
  predicate Orderly(ms: seq<Mark>) {
    forall i | 0 <= i < |ms| :: Placed(ms, i)
  }

  predicate Placed(ms: seq<Mark>, i: int)
    requires 0 <= i < |ms|
  {
    match ms[i]
    case In(n) => n == -1 || i == 0 || ms[i - 1] != In(n)
    case Out(n) => n == -1 || (i > 0 && ms[i - 1] == In(n))
  }

  /** The same told stop by stop: `prev` is the number of the entry just before. */
  predicate Chained(prev: int, ms: seq<Mark>)
    decreases |ms|
  {
    ms == [] || (Fits(prev, ms[0]) && Chained(Leaves(ms[0]), ms[1..]))
  }

  predicate Fits(prev: int, m: Mark) {
    m.n == -1 || (m.In? <==> m.n != prev)
  }

  function Leaves(m: Mark): int {
    if m.In? then m.n else -1
  }

  lemma {:induction false} ChainedByIndex(prev: int, ms: seq<Mark>)
    ensures Chained(prev, ms) <==>
      ms == [] || (Fits(prev, ms[0]) && forall i | 0 < i < |ms| :: Fits(Leaves(ms[i - 1]), ms[i]))
    decreases |ms|
  {
    if ms != [] {
      var rest := ms[1..];
      ChainedByIndex(Leaves(ms[0]), rest);
      assert forall i | 0 < i < |rest| :: rest[i] == ms[i + 1] && rest[i - 1] == ms[i];
      if Chained(prev, ms) {
        forall i | 0 < i < |ms| ensures Fits(Leaves(ms[i - 1]), ms[i]) {
          if i > 1 {
            assert rest[i - 1] == ms[i] && rest[i - 2] == ms[i - 1];
          }
        }
      }
    }
  }

  lemma {:induction false} ChainedIsOrderly(ms: seq<Mark>)
    ensures Chained(-1, ms) <==> Orderly(ms)
  {
    ChainedByIndex(-1, ms);
    if ms != [] {
      assert Placed(ms, 0) <==> Fits(-1, ms[0]);
      assert forall i | 0 < i < |ms| :: Placed(ms, i) <==> Fits(Leaves(ms[i - 1]), ms[i]);
      if Chained(-1, ms) {
        forall i | 0 <= i < |ms| ensures Placed(ms, i) {
          assert i > 0 ==> Fits(Leaves(ms[i - 1]), ms[i]);
        }
      }
    }
  }

  lemma {:induction false} RightIsChained(cbs: Callbacks, limit: nat, w: World, es: seq<Event>)
    requires AllWellFormed(es)
    ensures AllRight(cbs, limit, w, es) <==> Chained(w.t.last, Marks(cbs, limit, w, es))
    ensures AllRight(cbs, limit, w, es) ==> Run(cbs, limit, w, es) == RefRun(cbs, limit, w, es)
    decreases |es|
  {
    if es != [] {
      hide Step, AtEntry;
      var e := es[0];
      var w' := RefStep(cbs, limit, w, e);
      var ms := Marks(cbs, limit, w', es[1..]);
      RightIsMonitor(cbs, limit, w, e);
      RightIsChained(cbs, limit, w', es[1..]);
      var m := MarkOf(w, e);
      assert m == [] ==> m + ms == ms;
      assert m != [] ==> (m + ms)[1..] == ms;
    }
  }

  /** Over every run of any number of tracees, denied calls and calls that never end
      included: the one shared toggle is right at every stop if and only if, among
      the system call stops, no entry directly follows an entry of the same number
      and every exit directly follows an entry of the number read there (-1, the
      number of a denied call, excepted).  It then does all that the monitor does. */
  lemma {:induction false} SharedToggleIsRightIff(cbs: Callbacks, limit: nat, w: World, es: seq<Event>)
    requires AllWellFormed(es) && w.t.last == -1
    ensures AllRight(cbs, limit, w, es) <==> Orderly(Marks(cbs, limit, w, es))
    ensures AllRight(cbs, limit, w, es) ==> Run(cbs, limit, w, es) == RefRun(cbs, limit, w, es)
  {
    RightIsChained(cbs, limit, w, es);
    ChainedIsOrderly(Marks(cbs, limit, w, es));
  }

  /** So each entry followed by the same tracee's exit is enough. */
  lemma {:induction false} SerialIsRight(cbs: Callbacks, limit: nat, w: World, es: seq<Event>, open: Option<int>)
    requires KeepsNumber(cbs) && Serial(es, open) && Phase(w, open)
    ensures AllRight(cbs, limit, w, es)
    decreases |es|
  {
    if es != [] {
      StepIsRef(cbs, limit, w, es[0], open);
      RightIsMonitor(cbs, limit, w, es[0]);
      SerialIsRight(cbs, limit, Step(cbs, limit, w, es[0]), es[1..], Opened(es[0], open));
    }
  }

  /** Where all calls are let through as numbered, and all end, it is also needed. */
  ghost predicate AllThrough(cbs: Callbacks, limit: nat, w: World, es: seq<Event>)
    decreases |es|
  {
    if es == [] then w.inside == map[]
    else
      var w' := RefStep(cbs, limit, w, es[0]);
      && WellFormed(es[0])
      && (es[0].SysEntry? ==>
         && es[0].pid !in w.inside
         && NumberAt(w', es[0].pid) == AsLong(es[0].regs.origRax) != -1)
      && (es[0].SysExit? ==> es[0].pid in w.inside)
      && AllThrough(cbs, limit, w', es[1..])
  }

  /** Two tracees inside, or one that the toggle does not stand for. */
  ghost predicate Lost(w: World) {
    || (exists p, q :: p in w.inside && q in w.inside && p != q)
    || (exists p :: p in w.inside && NumberAt(w, p) != w.t.last)
  }

  lemma {:induction false} LostStaysWrong(cbs: Callbacks, limit: nat, w: World, es: seq<Event>)
    requires AllThrough(cbs, limit, w, es) && Lost(w)
    requires forall p | p in w.inside :: NumberAt(w, p) != -1
    ensures !AllRight(cbs, limit, w, es)
    decreases |es|
  {
    hide Step, AtEntry;
    if es != [] && AllRight(cbs, limit, w, es) {
      var e := es[0];
      var w' := RefStep(cbs, limit, w, e);
      RightIsMonitor(cbs, limit, w, e);
      match e {
        case SysEntry(pid, _, _) =>
          var q :| q in w.inside;
          assert pid in w'.inside && q in w'.inside && pid != q;
          assert forall p | p in w.inside :: NumberAt(w', p) == NumberAt(w, p);
        case SysExit(pid, _, _) =>
          var q :| q in w.inside && q != pid;
          assert q in w'.inside && NumberAt(w', q) == NumberAt(w, q) != -1;
          assert forall p | p in w'.inside :: p in w.inside && NumberAt(w', p) == NumberAt(w, p);
        case _ =>
          assert w'.inside == w.inside && w'.t.last == w.t.last;
          assert forall p | p in w.inside :: NumberAt(w', p) == NumberAt(w, p);
      }
      LostStaysWrong(cbs, limit, w', es[1..]);
    }
  }

  lemma {:induction false} SerialIsNeeded(cbs: Callbacks, limit: nat, w: World, es: seq<Event>, open: Option<int>)
    requires AllThrough(cbs, limit, w, es)
    requires match open
      case None => w.inside == map[] && w.t.last == -1
      case Some(p) => w.inside.Keys == {p} && NumberAt(w, p) == w.t.last != -1
    ensures AllRight(cbs, limit, w, es) <==> Serial(es, open)
    decreases |es|
  {
    hide Step, AtEntry;
    if es != [] {
      var e := es[0];
      var w' := RefStep(cbs, limit, w, e);
      RightIsMonitor(cbs, limit, w, e);
      match e
      case SysEntry(pid, _, _) =>
        if open.None? {
          SerialIsNeeded(cbs, limit, w', es[1..], Some(pid));
        } else {
          assert open.value in w'.inside && pid in w'.inside && pid != open.value;
          assert NumberAt(w', open.value) == NumberAt(w, open.value);
          LostStaysWrong(cbs, limit, w', es[1..]);
        }
      case SysExit(pid, _, _) =>
        assert w.inside - {pid} == map[];
        SerialIsNeeded(cbs, limit, w', es[1..], None);
      case _ =>
        SerialIsNeeded(cbs, limit, w', es[1..], open);
    }
  }

  // ---- Two runs that tell the condition from simpler ones ----

  /** A file_read that refuses everything, and two calls. */
  const REFUSING := Callbacks(Some((_: History, _: Path) => -1), None, None)
  const OPEN := Numbering(SYS_OPENAT)
  const CALL5 := Numbering(5)

  /** Two tracees enter an openat one after the other: the second is taken for the
      exit of the first, no callback is asked about it, and it goes through, where
      the monitor denies both. */
  lemma {:induction false} SecondOpenGoesUnasked(limit: nat)
    requires FIRST_ALLOC <= limit
    ensures
      var es := [SysEntry(1, OPEN, map[]), SysEntry(2, OPEN, map[])];
      var w, r := Run(REFUSING, limit, START, es), RefRun(REFUSING, limit, START, es);
      && 1 in w.inside && w.inside[1].given == Denied(OPEN)
      && 2 in w.inside && w.inside[2] == InCall(OPEN, OPEN, [])
      && 2 in r.inside && r.inside[2].given == Denied(OPEN)
  {
    StatusDecodes(SYSCALL_STOP, 0);
    EmptyPath(limit);
    var e, f := SysEntry(1, OPEN, map[]), SysEntry(2, OPEN, map[]);
    var w1, r1 := Step(REFUSING, limit, START, e), RefStep(REFUSING, limit, START, e);
    assert w1.inside[1].given == Denied(OPEN) && w1.t.last == SYS_OPENAT;
    RunOfTwo(REFUSING, limit, START, e, f);
  }

  lemma MarksStep(cbs: Callbacks, limit: nat, w: World, e: Event, rest: seq<Event>)
    ensures Marks(cbs, limit, w, [e] + rest) == MarkOf(w, e) + Marks(cbs, limit, RefStep(cbs, limit, w, e), rest)
  {
    assert ([e] + rest)[1..] == rest;
  }

  /** The exit of a denied openat reads -1, so another tracee's call may come in
      between: right, and not serial. */
  lemma {:induction false} DeniedExitMayWait(limit: nat)
    requires FIRST_ALLOC <= limit
    ensures
      var es := [SysEntry(1, OPEN, map[]), SysEntry(2, CALL5, map[]), SysExit(2, 0, map[]), SysExit(1, 0, map[])];
      AllRight(REFUSING, limit, START, es) && !Serial(es, None)
  {
    var a, b, c, d := SysEntry(1, OPEN, map[]), SysEntry(2, CALL5, map[]), SysExit(2, 0, map[]), SysExit(1, 0, map[]);
    DeniedExitMarks(limit, a, b, c, d);
    SharedToggleIsRightIff(REFUSING, limit, START, [a, b, c, d]);
    assert [a, b, c, d][1..] == [b, c, d];
  }

  lemma {:induction false} DeniedExitMarks(limit: nat, a: Event, b: Event, c: Event, d: Event)
    requires FIRST_ALLOC <= limit
    requires a == SysEntry(1, OPEN, map[]) && b == SysEntry(2, CALL5, map[])
    requires c == SysExit(2, 0, map[]) && d == SysExit(1, 0, map[])
    ensures Marks(REFUSING, limit, START, [a, b, c, d]) == [In(SYS_OPENAT), In(5), Out(5), Out(-1)]
  {
    EmptyPath(limit);
    var w1 := RefStep(REFUSING, limit, START, a);
    var w2 := RefStep(REFUSING, limit, w1, b);
    var w3 := RefStep(REFUSING, limit, w2, c);
    assert MarkOf(START, a) == [In(SYS_OPENAT)] && MarkOf(w1, b) == [In(5)];
    assert MarkOf(w2, c) == [Out(5)] && MarkOf(w3, d) == [Out(-1)];
    hide AtEntry, RefStep, MarkOf, Marks;
    assert [a] + [b, c, d] == [a, b, c, d] && [b] + [c, d] == [b, c, d] && [c] + [d] == [c, d] && [d] + [] == [d];
    MarksStep(REFUSING, limit, START, a, [b, c, d]);
    MarksStep(REFUSING, limit, w1, b, [c, d]);
    MarksStep(REFUSING, limit, w2, c, [d]);
    MarksStep(REFUSING, limit, w3, d, []);
    NoMarks(REFUSING, limit, RefStep(REFUSING, limit, w3, d));
  }

  lemma NoMarks(cbs: Callbacks, limit: nat, w: World)
    ensures Marks(cbs, limit, w, []) == []
  {
  }

  // ---- Resumption and signals ----

  /** Who was resumed, with which signal, in order. */
  function Resumed(reqs: seq<Request>): seq<(int, int)> {
    if reqs == [] then []
    else Resumed(reqs[..|reqs| - 1]) + ResumeOf(reqs[|reqs| - 1])
  }

  function ResumeOf(r: Request): seq<(int, int)> {
    if r.Resume? then [(r.pid, r.sig)] else []
  }

  /** A reaped stop at which the tracer's own ptrace calls go through. */
  predicate Served(w: Wait) {
    && w.Reaped? && w.status % 256 == 0x7f
    && (w.status / 256 % 256 == 0x85 ==>
       match w.answers.get
       case Got(_) => w.answers.setOk
       case Failed(errno) => errno != 3)
  }

  /** The signal a stop is for, if the tracee is to have it: not SIGTRAP (5, 0x85) and
      not SIGCONT (18). */
  function Delivered(w: Wait): int
    requires w.Reaped?
  {
    var sig := w.status / 256 % 256;
    if sig in {5, 0x85, 18} then 0 else sig
  }

  lemma {:induction false} ResumedSnoc(reqs: seq<Request>, r: Request)
    ensures Resumed(reqs + [r]) == Resumed(reqs) + ResumeOf(r)
  {
    assert (reqs + [r])[..|reqs|] == reqs;
  }

  /** One turn resumes the stopped tracee once, with its own signal or none, and
      nobody otherwise; a stop is left unresumed exactly when GETREGS finds no such
      process or SETREGS fails. */
  lemma {:induction false} TurnResumes(cbs: Callbacks, limit: nat, st: State, w: Wait)
    ensures Resumed(Turn(cbs, limit, st, w).0.reqs) ==
      Resumed(st.reqs) + (if Served(w) then [(w.pid, Delivered(w))] else [])
  {
    hide AtEntry;
    if w.Reaped? && Stopped(w.status) {
      var r := Resume(w.pid, Delivered(w));
      ResumedSnoc(st.reqs, r);
      if StopSig(w.status) == SYSCALL_STOP && w.answers.get.Got? {
        var regs := w.answers.get.regs;
        var put := SetRegs(w.pid, if Toggle(st.last, AsLong(regs.origRax)) != -1
          then AtEntry(cbs, limit, st.calls, regs, w.answers.mem).1 else regs);
        ResumedSnoc(st.reqs, put);
        ResumedSnoc(st.reqs + [put], r);
      }
    }
  }

  ghost function Turns(cbs: Callbacks, limit: nat, st: State, ws: seq<Wait>): State
    decreases |ws|
  {
    if ws == [] then st else Turns(cbs, limit, Turn(cbs, limit, st, ws[0]).0, ws[1..])
  }

  /** The stops of a run, each with the signal it carries on. */
  function Stops(ws: seq<Wait>): seq<(int, int)>
    decreases |ws|
  {
    if ws == [] then []
    else (if Served(ws[0]) then [(ws[0].pid, Delivered(ws[0]))] else []) + Stops(ws[1..])
  }

  /** Over every run: one resume per served stop, in order, and nothing else. */
  lemma {:induction false} RunResumesEachStopOnce(cbs: Callbacks, limit: nat, st: State, ws: seq<Wait>)
    ensures Resumed(Turns(cbs, limit, st, ws).reqs) == Resumed(st.reqs) + Stops(ws)
    decreases |ws|
  {
    if ws != [] {
      var st' := Turn(cbs, limit, st, ws[0]).0;
      TurnResumes(cbs, limit, st, ws[0]);
      RunResumesEachStopOnce(cbs, limit, st', ws[1..]);
      Chains(Resumed(st.reqs), if Served(ws[0]) then [(ws[0].pid, Delivered(ws[0]))] else [], Stops(ws[1..]));
    }
  }

  /** The signals injected into one tracee. */
  function Injected(resumed: seq<(int, int)>, pid: int): seq<int> {
    if resumed == [] then []
    else (if resumed[0].0 == pid && resumed[0].1 != 0 then [resumed[0].1] else []) + Injected(resumed[1..], pid)
  }

  /** The stop signals of one tracee, without the tracer's own and SIGCONT. */
  function OwnSignals(ws: seq<Wait>, pid: int): seq<int> {
    if ws == [] then []
    else
      var w := ws[0];
      (if w.Reaped? && w.pid == pid && w.status % 256 == 0x7f && w.status / 256 % 256 !in {0, 5, 0x85, 18}
       then [w.status / 256 % 256] else []) + OwnSignals(ws[1..], pid)
  }

  lemma {:induction false} StopsCarryOwnSignals(ws: seq<Wait>, pid: int)
    ensures Injected(Stops(ws), pid) == OwnSignals(ws, pid)
    decreases |ws|
  {
    if ws != [] {
      StopsCarryOwnSignals(ws[1..], pid);
      if Served(ws[0]) {
        var s := (ws[0].pid, Delivered(ws[0]));
        assert ([s] + Stops(ws[1..]))[1..] == Stops(ws[1..]);
      } else {
        assert Stops(ws) == Stops(ws[1..]);
      }
    }
  }

  lemma {:induction false} InjectedConcat(a: seq<(int, int)>, b: seq<(int, int)>, pid: int)
    ensures Injected(a + b, pid) == Injected(a, pid) + Injected(b, pid)
  {
    if a == [] {
      assert a + b == b;
    } else {
      assert (a + b)[1..] == a[1..] + b;
      InjectedConcat(a[1..], b, pid);
    }
  }

  /** Over every run, whatever the ptrace calls answer: the tracer injects into each
      tracee exactly its own stop signals, SIGTRAP, SIGTRAP|0x80 and SIGCONT removed,
      in order. */
  lemma {:induction false} TraceesGetTheirSignals(cbs: Callbacks, limit: nat, st: State, ws: seq<Wait>, pid: int)
    ensures Injected(Resumed(Turns(cbs, limit, st, ws).reqs), pid)
         == Injected(Resumed(st.reqs), pid) + OwnSignals(ws, pid)
  {
    RunResumesEachStopOnce(cbs, limit, st, ws);
    InjectedConcat(Resumed(st.reqs), Stops(ws), pid);
    StopsCarryOwnSignals(ws, pid);
  }

}
