/**
 Whole runs: the tracer of tracer.c together with a kernel that stops tracees on
 the way into and out of their system calls, and a reference monitor that knows
 which of the two it is.
 */
module TracerRuns {
  import opened Wrappers
  import opened ReadString
  import opened Tracer

  // ---- The kernel ----

  /** A stop as the kernel makes it.  At an exit, `result` is what the call returned. */
  datatype Event =
    | SysEntry(pid: int, regs: Regs, mem: Memory)
    | SysExit(pid: int, result: U64, mem: Memory)
    | OtherStop(pid: int, sig: nat, event: nat)
    | NoStop(wait: Wait)

  /** A system call in progress: what the tracee asked for, what the tracer made
      of it, and the callback calls made for it. */
  datatype InCall = InCall(asked: Regs, given: Regs, asks: History)

  /** A finished one, with the registers the tracee goes on with. */
  datatype Finished = Finished(pid: int, call: InCall, result: U64, left: Regs)

  datatype World = World(t: State, inside: map<int, InCall>, finished: seq<Finished>)

  function StopStatus(sig: nat, event: nat): nat {
    0x7f + sig * 0x100 + event * 0x1_0000
  }

  lemma {:induction false} StatusDecodes(sig: nat, event: nat)
    requires sig < 0x100
    ensures Stopped(StopStatus(sig, event)) && StopSig(StopStatus(sig, event)) == sig
  {
    assert StopStatus(sig, event) == 0x7f + 0x100 * (sig + 0x100 * event);
    assert StopStatus(sig, event) / 0x100 == sig + 0x100 * event;
  }

  /** The kernel runs the call named by orig_rax, or skips it when that is -1. */
  function Performed(given: Regs, result: U64): Regs {
    if AsLong(given.origRax) == -1 then given else given.(rax := result)
  }

  /** The registers of the last SETREGS. */
  function LastSet(reqs: seq<Request>, default: Regs): Regs {
    if |reqs| >= 2 && reqs[|reqs| - 2].SetRegs? then reqs[|reqs| - 2].regs else default
  }

  function SyscallWait(pid: int, regs: Regs, mem: Memory): Wait {
    Reaped(pid, StopStatus(SYSCALL_STOP, 0), Answers(Got(regs), mem, true, 0))
  }

  /** Event `e` happens, and the tracer takes its turn. */
  ghost function Step(cbs: Callbacks, limit: nat, w: World, e: Event): World {
    match e
    case SysEntry(pid, regs, mem) =>
      var t := Turn(cbs, limit, w.t, SyscallWait(pid, regs, mem)).0;
      var asks := if |w.t.calls| <= |t.calls| then t.calls[|w.t.calls|..] else [];
      World(t, w.inside[pid := InCall(regs, LastSet(t.reqs, regs), asks)], w.finished)
    case SysExit(pid, result, mem) =>
      if pid !in w.inside then w else
      var regs := Performed(w.inside[pid].given, result);
      var t := Turn(cbs, limit, w.t, SyscallWait(pid, regs, mem)).0;
      World(t, w.inside - {pid}, w.finished + [Finished(pid, w.inside[pid], result, LastSet(t.reqs, regs))])
    case OtherStop(pid, sig, event) =>
      w.(t := Turn(cbs, limit, w.t, Reaped(pid, StopStatus(sig, event), Answers(Failed(0), map[], true, 0))).0)
    case NoStop(wait) =>
      w.(t := Turn(cbs, limit, w.t, wait).0)
  }

  ghost function Run(cbs: Callbacks, limit: nat, w: World, es: seq<Event>): World
    decreases |es|
  {
    if es == [] then w else Run(cbs, limit, Step(cbs, limit, w, es[0]), es[1..])
  }

  // ---- The reference monitor ----

  /** What the monitor does at an entry, in the numbers of x86-64 Linux.  The syscall
      callback comes first, and its registers go on.  For openat (257) file_read is
      asked in modes 0 and 2, then file_write in modes 1 and 2, of the flags in rdx,
      about the string at rsi.  The kernel is given the callback's registers whole, but
      that a refusal makes orig_rax and rax -1. */
  ghost function Vetted(cbs: Callbacks, limit: nat, calls: History, regs: Regs, mem: Memory): (History, Regs) {
    var c := calls + (if cbs.syscall.Some? then [SyscallCall(regs)] else []);
    var r := if cbs.syscall.Some? then cbs.syscall.value(calls, regs) else regs;
    if regs.origRax != 257 || PathAt(mem, r.rsi, limit).None? then (c, r)
    else
      var p, mode := PathAt(mem, r.rsi, limit).value, r.rdx % 4;
      var f := if cbs.fileRead.Some? && (mode == 0 || mode == 2) then [FileRead(p, cbs.fileRead.value(c, p))] else [];
      var g := if cbs.fileWrite.Some? && (mode == 1 || mode == 2)
               then [FileWrite(p, cbs.fileWrite.value(c + f, p))] else [];
      var refused := (f != [] && f[0].ret == -1) || (g != [] && g[0].ret == -1);
      (c + f + g,
       if refused then r.(origRax := 0xFFFF_FFFF_FFFF_FFFF, rax := 0xFFFF_FFFF_FFFF_FFFF) else r)
  }

  /** handle_syscalls does at an entry what the monitor does. */
  lemma {:induction false} EntryIsVetted(cbs: Callbacks, limit: nat, calls: History, regs: Regs, mem: Memory)
    ensures AtEntry(cbs, limit, calls, regs, mem) == Vetted(cbs, limit, calls, regs, mem)
  {
    var c := calls + (if cbs.syscall.Some? then [SyscallCall(regs)] else []);
    assert calls + [] == calls && c + [] == c;
    assert forall f: History :: f + [] == f;
  }

  /** handle_syscalls, whatever the callbacks answer: the toggle, the requests and the
      return value, for the number of the call as a signed long. */
  lemma {:induction false} SyscallTurn(cbs: Callbacks, limit: nat, st: State, pid: int, event: nat, a: Answers)
    requires a.get.Got?
    ensures
      var regs := a.get.regs;
      var n := if regs.origRax < 0x8000_0000_0000_0000 then regs.origRax else regs.origRax - 0x1_0000_0000_0000_0000;
      var (s, ret) := Turn(cbs, limit, st, Reaped(pid, 0x857f + event * 0x1_0000, a));
      var enters := n != -1 && n != st.last;
      var (calls, given) := if enters then Vetted(cbs, limit, st.calls, regs, a.mem) else (st.calls, regs);
      && s.last == (if enters then n else -1) && s.calls == calls
      && s.reqs == st.reqs + [SetRegs(pid, given)] + (if a.setOk then [Resume(pid, 0)] else [])
      && ret == if a.setOk then a.resumeRet else -1
  {
    hide AtEntry, Vetted;
    StatusDecodes(0x85, event);
    EntryIsVetted(cbs, limit, st.calls, a.get.regs, a.mem);
  }

  /** Every other turn.  A stop is resumed with its signal, or with none for SIGTRAP (5)
      and SIGCONT (18); a child that ended is left alone. */
  lemma {:induction false} OtherTurn(cbs: Callbacks, limit: nat, st: State, w: Wait)
    requires w.Reaped? && w.status % 256 == 0x7f && w.status / 256 % 256 == 0x85 ==> w.answers.get.Failed?
    ensures Turn(cbs, limit, st, w) ==
      if w.NoChange? then (st, 0)
      else if w.WaitFailed? then (st, -1)
      else if w.status % 256 != 0x7f then (st, 0)
      else
        var sig, a := w.status / 256 % 256, w.answers;
        if sig == 0x85 && a.get.errno == 3 then (st, -1)
        else (st.Request(Resume(w.pid, if sig in {5, 18, 0x85} then 0 else sig)), a.resumeRet)
  {
  }

  /** A child that exits, or that a signal kills, is no stop. */
  lemma {:induction false} EndedIsNoStop(cbs: Callbacks, limit: nat, st: State, pid: int, code: nat, sig: nat, a: Answers)
    requires 0 < sig < 0x7f
    ensures Turn(cbs, limit, st, Reaped(pid, code * 0x100, a)) == (st, 0)
    ensures Turn(cbs, limit, st, Reaped(pid, sig, a)) == (st, 0)
    ensures Turn(cbs, limit, st, Reaped(pid, sig + 0x80, a)) == (st, 0)
  {
  }

  /** The loop reports -1 if and only if waitpid failed, or a stop could not be dealt
      with: its registers were not to be had for want of the process, were not taken,
      or the tracee did not resume. */
  lemma {:induction false} TurnFailsIff(cbs: Callbacks, limit: nat, st: State, w: Wait)
    ensures Turn(cbs, limit, st, w).1 == -1 <==>
      || w.WaitFailed?
      || (w.Reaped? && w.status % 256 == 0x7f
          && (w.answers.resumeRet == -1
              || (w.status / 256 % 256 == 0x85
                  && match w.answers.get case Got(_) => !w.answers.setOk case Failed(errno) => errno == 3)))
  {
    hide AtEntry;
  }

  /** The monitor that is told entry from exit: callbacks on entries of calls
      numbered other than -1, nothing on exits.  `last` says what it is at. */
  ghost function RefStep(cbs: Callbacks, limit: nat, w: World, e: Event): World {
    match e
    case SysEntry(pid, regs, mem) =>
      var n := AsLong(regs.origRax);
      var (calls, given) := if n != -1 then Vetted(cbs, limit, w.t.calls, regs, mem) else (w.t.calls, regs);
      var asks := if |w.t.calls| <= |calls| then calls[|w.t.calls|..] else [];
      World(State(n, calls, w.t.reqs + [SetRegs(pid, given), Resume(pid, 0)]),
            w.inside[pid := InCall(regs, given, asks)], w.finished)
    case SysExit(pid, result, mem) =>
      if pid !in w.inside then w else
      var regs := Performed(w.inside[pid].given, result);
      World(State(-1, w.t.calls, w.t.reqs + [SetRegs(pid, regs), Resume(pid, 0)]),
            w.inside - {pid}, w.finished + [Finished(pid, w.inside[pid], result, regs)])
    case OtherStop(pid, sig, _) =>
      w.(t := w.t.Request(Resume(pid, if sig == SIGTRAP || sig == SIGCONT then 0 else sig)))
    case NoStop(_) => w
  }

  ghost function RefRun(cbs: Callbacks, limit: nat, w: World, es: seq<Event>): World
    decreases |es|
  {
    if es == [] then w else RefRun(cbs, limit, RefStep(cbs, limit, w, es[0]), es[1..])
  }

  lemma {:induction false} RunOfTwo(cbs: Callbacks, limit: nat, w: World, e: Event, f: Event)
    ensures Run(cbs, limit, w, [e, f]) == Step(cbs, limit, Step(cbs, limit, w, e), f)
    ensures RefRun(cbs, limit, w, [e, f]) == RefStep(cbs, limit, RefStep(cbs, limit, w, e), f)
  {
    assert [e, f][1..] == [f] && [f][1..] == [];
    var w1, r1 := Step(cbs, limit, w, e), RefStep(cbs, limit, w, e);
    assert Run(cbs, limit, w1, [f]) == Run(cbs, limit, Step(cbs, limit, w1, f), []);
    assert RefRun(cbs, limit, r1, [f]) == RefRun(cbs, limit, RefStep(cbs, limit, r1, f), []);
  }

  // ---- When the one toggle does for all ----

  /** Other stops are what they say. */
  ghost predicate WellFormed(e: Event) {
    match e
    case OtherStop(_, sig, _) => sig < 0x100 && sig != SYSCALL_STOP
    case NoStop(w) => w.Reaped? ==> !Stopped(w.status)
    case _ => true
  }

  /** Each entry is followed, among system call stops, by the exit of the same
      tracee; `open` is the tracee inside a call.  Other stops come in anywhere. */
  ghost predicate Serial(es: seq<Event>, open: Option<int>)
    decreases |es|
  {
    es == [] ||
    (WellFormed(es[0]) &&
     match es[0]
     case SysEntry(pid, _, _) => open.None? && Serial(es[1..], Some(pid))
     case SysExit(pid, _, _) => open == Some(pid) && Serial(es[1..], None)
     case _ => Serial(es[1..], open))
  }

  /** The syscall callback leaves the number of the call alone or sets it to -1. */
  ghost predicate KeepsNumber(cbs: Callbacks) {
    cbs.syscall.Some? ==> forall h, r :: NumberKept(r, cbs.syscall.value(h, r))
  }

  predicate NumberKept(r: Regs, r': Regs) {
    r'.origRax == r.origRax || AsLong(r'.origRax) == -1
  }

  /** The toggle and the kernel agree on who is inside a call. */
  ghost predicate Phase(w: World, open: Option<int>) {
    match open
    case None => w.inside == map[] && w.t.last == -1
    case Some(p) =>
      && w.inside.Keys == {p}
      && w.t.last == AsLong(w.inside[p].asked.origRax)
      && NumberKept(w.inside[p].asked, w.inside[p].given)
  }

  function Opened(e: Event, open: Option<int>): Option<int> {
    match e
    case SysEntry(pid, _, _) => Some(pid)
    case SysExit(_, _, _) => None
    case _ => open
  }

  lemma {:induction false} EntryKeepsNumber(cbs: Callbacks, limit: nat, calls: History, regs: Regs, mem: Memory)
    requires KeepsNumber(cbs)
    ensures NumberKept(regs, AtEntry(cbs, limit, calls, regs, mem).1)
  {
    if cbs.syscall.Some? {
      assert NumberKept(regs, cbs.syscall.value(calls, regs));
    }
  }

  /** One event of a serial run: the toggle decides what the monitor knows. */
  lemma {:induction false} StepIsRef(cbs: Callbacks, limit: nat, w: World, e: Event, open: Option<int>)
    requires KeepsNumber(cbs) && WellFormed(e) && Phase(w, open)
    requires e.SysEntry? ==> open.None?
    requires e.SysExit? ==> open == Some(e.pid)
    ensures Step(cbs, limit, w, e) == RefStep(cbs, limit, w, e)
    ensures Phase(RefStep(cbs, limit, w, e), Opened(e, open))
  {
    hide AtEntry, Vetted;
    StatusDecodes(SYSCALL_STOP, 0);
    match e
    case SysEntry(pid, regs, mem) =>
      EntryIsVetted(cbs, limit, w.t.calls, regs, mem);
      EntryKeepsNumber(cbs, limit, w.t.calls, regs, mem);
    case SysExit(pid, result, mem) =>
      assert w.inside - {pid} == map[];
    case OtherStop(pid, sig, event) =>
      StatusDecodes(sig, event);
    case NoStop(_) =>
  }

  /** Over every serial run, of one tracee or of many, the one shared toggle does
      what the monitor that knows entry from exit does: same callbacks, same
      registers written, same resumptions, and -1 again after each pair. */
  lemma {:induction false} SerialRunIsMonitored(cbs: Callbacks, limit: nat, w: World, es: seq<Event>, open: Option<int>)
    requires KeepsNumber(cbs) && Serial(es, open) && Phase(w, open)
    ensures Run(cbs, limit, w, es) == RefRun(cbs, limit, w, es)
    decreases |es|
  {
    if es != [] {
      StepIsRef(cbs, limit, w, es[0], open);
      SerialRunIsMonitored(cbs, limit, Step(cbs, limit, w, es[0]), es[1..], Opened(es[0], open));
    }
  }

  /** One call on its own: the toggle is -1 after its exit if and only if the syscall
      callback answered with the number it was asked about or with -1, or the call is
      an openat and a file callback refuses it. */
  lemma {:induction false} PairingSurvivesIff(
    cbs: Callbacks, limit: nat, w: World, pid: int, regs: Regs, mem: Memory, result: U64, mem': Memory)
    requires w.t.last == -1 && AsLong(regs.origRax) != -1
    ensures
      var (c, r) := Told(cbs, w.t.calls, regs);
      var w1 := Step(cbs, limit, w, SysEntry(pid, regs, mem));
      var w2 := Step(cbs, limit, w1, SysExit(pid, result, mem'));
      w2.t.last == -1 <==>
        NumberKept(regs, r) || (AsLong(regs.origRax) == SYS_OPENAT && Consult(cbs, limit, c, r, mem).1)
  {
    StatusDecodes(SYSCALL_STOP, 0);
  }

  const START := World(State(-1, [], []), map[], [])

  /** Registers of a call by its number. */
  function Numbering(n: U64): Regs {
    Regs(n, 0, 0, 0, 0, [])
  }

  /** A callback that turns every call into number 5. */
  const RENUMBERING := Callbacks(None, None, Some((_: History, r: Regs) => r.(origRax := 5)))

  /** Under it the first call, numbered 39, is reported twice, on the way in and on the
      way out; the next one, numbered 5, is taken for an exit and never reported. */
  lemma {:induction false} RenumberedCallHidesTheNext(limit: nat)
    ensures
      var w := Run(RENUMBERING, limit, START, [SysEntry(1, Numbering(39), map[]), SysExit(1, 0, map[])]);
      var w' := Step(RENUMBERING, limit, w, SysEntry(1, Numbering(5), map[]));
      && w.t.last == 5 && w.t.calls == [SyscallCall(Numbering(39)), SyscallCall(Numbering(5))]
      && w'.t.last == -1 && w'.t.calls == w.t.calls
  {
    StatusDecodes(SYSCALL_STOP, 0);
    var e, x := SysEntry(1, Numbering(39), map[]), SysExit(1, 0, map[]);
    RunOfTwo(RENUMBERING, limit, START, e, x);
    var w1 := Step(RENUMBERING, limit, START, e);
    assert w1.inside[1].given == Numbering(5) && w1.t.last == 39;
    assert w1.t.calls == [SyscallCall(Numbering(39))];
  }

  /** A denial keeps the pairing because EPERM is 1: -EPERM is the toggle's own -1. */
  lemma DenialPairsOnlyByEperm(e: nat)
    requires 0 < e < ADDRESSES / 2
    ensures Toggle(SYS_OPENAT, AsLong(Negated(e))) == -1 <==> e == EPERM
  {
  }

  // ---- What a serial run lets through ----

  function SyscallCalls(h: History): seq<Regs> {
    if h == [] then []
    else SyscallCalls(h[..|h| - 1]) + (match h[|h| - 1] case SyscallCall(r) => [r] case _ => [])
  }

  function ReadPaths(h: History): seq<Path> {
    if h == [] then []
    else ReadPaths(h[..|h| - 1]) + (match h[|h| - 1] case FileRead(p, _) => [p] case _ => [])
  }

  function WritePaths(h: History): seq<Path> {
    if h == [] then []
    else WritePaths(h[..|h| - 1]) + (match h[|h| - 1] case FileWrite(p, _) => [p] case _ => [])
  }

  /** The registers of the entries whose number is not -1, in order. */
  function Numbered(es: seq<Event>): seq<Regs> {
    if es == [] then []
    else (if es[0].SysEntry? && AsLong(es[0].regs.origRax) != -1 then [es[0].regs] else []) + Numbered(es[1..])
  }

  /** The strings at the path argument of the openat calls that read, in order,
      where the buffer for the string could be had. */
  ghost function PathsRead(limit: nat, es: seq<Event>): seq<Path> {
    if es == [] then [] else PathIf(limit, es[0], true) + PathsRead(limit, es[1..])
  }

  ghost function PathsWritten(limit: nat, es: seq<Event>): seq<Path> {
    if es == [] then [] else PathIf(limit, es[0], false) + PathsWritten(limit, es[1..])
  }

  ghost function PathIf(limit: nat, e: Event, read: bool): seq<Path> {
    var mode := if e.SysEntry? then e.regs.rdx % 4 else 0;
    if e.SysEntry? && e.regs.origRax == 257 && (mode == 2 || mode == if read then 0 else 1)
    then match PathAt(e.mem, e.regs.rsi, limit) case Some(p) => [p] case None => []
    else []
  }

  /** The syscall callback changes no register. */
  ghost predicate Benign(cbs: Callbacks) {
    cbs.syscall.Some? ==> forall h, r :: cbs.syscall.value(h, r) == r
  }

  lemma {:induction false} SyscallsConcat(a: History, b: History)
    ensures SyscallCalls(a + b) == SyscallCalls(a) + SyscallCalls(b)
    decreases |b|
  {
    if b == [] {
      assert a + b == a;
    } else {
      assert (a + b)[..|a + b| - 1] == a + b[..|b| - 1];
      SyscallsConcat(a, b[..|b| - 1]);
    }
  }

  lemma {:induction false} ReadsConcat(a: History, b: History)
    ensures ReadPaths(a + b) == ReadPaths(a) + ReadPaths(b)
    decreases |b|
  {
    if b == [] {
      assert a + b == a;
    } else {
      assert (a + b)[..|a + b| - 1] == a + b[..|b| - 1];
      ReadsConcat(a, b[..|b| - 1]);
    }
  }

  lemma {:induction false} WritesConcat(a: History, b: History)
    ensures WritePaths(a + b) == WritePaths(a) + WritePaths(b)
    decreases |b|
  {
    if b == [] {
      assert a + b == a;
    } else {
      assert (a + b)[..|a + b| - 1] == a + b[..|b| - 1];
      WritesConcat(a, b[..|b| - 1]);
    }
  }

  lemma CallsConcat(a: History, b: History)
    ensures SyscallCalls(a + b) == SyscallCalls(a) + SyscallCalls(b)
    ensures ReadPaths(a + b) == ReadPaths(a) + ReadPaths(b)
    ensures WritePaths(a + b) == WritePaths(a) + WritePaths(b)
  {
    SyscallsConcat(a, b);
    ReadsConcat(a, b);
    WritesConcat(a, b);
  }

  lemma {:induction false} CallsOne(c: Call)
    ensures SyscallCalls([c]) == match c case SyscallCall(r) => [r] case _ => []
    ensures ReadPaths([c]) == match c case FileRead(p, _) => [p] case _ => []
    ensures WritePaths([c]) == match c case FileWrite(p, _) => [p] case _ => []
  {
    assert [c][..0] == [];
  }

  /** A callback answered -1. */
  predicate Refusal(c: Call) {
    (c.FileRead? || c.FileWrite?) && c.ret == -1
  }

  ghost predicate Refused(asks: History) {
    exists c | c in asks :: Refusal(c)
  }

  /** The callback calls of one entry: the syscall callback, then file_read, then
      file_write, each at most once and only where it applies. */
  lemma {:induction false} EntryAsks(cbs: Callbacks, limit: nat, h: History, regs: Regs, mem: Memory)
    returns (s: History, r: History, w: History)
    requires Benign(cbs)
    ensures AtEntry(cbs, limit, h, regs, mem).0 == h + (s + r + w)
    ensures AtEntry(cbs, limit, h, regs, mem).1 == if Refused(s + r + w) then Denied(regs) else regs
    ensures s == if cbs.syscall.Some? then [SyscallCall(regs)] else []
    ensures var ps := PathIf(limit, SysEntry(0, regs, mem), true);
      if cbs.fileRead.Some? && ps != [] then |r| == 1 && r[0].FileRead? && r[0].path == ps[0] else r == []
    ensures var ps := PathIf(limit, SysEntry(0, regs, mem), false);
      if cbs.fileWrite.Some? && ps != [] then |w| == 1 && w[0].FileWrite? && w[0].path == ps[0] else w == []
  {
    s, r, w := if cbs.syscall.Some? then [SyscallCall(regs)] else [], [], [];
    assert h + [] == h;
    if AsLong(regs.origRax) == SYS_OPENAT && PathAt(mem, regs.rsi, limit).Some? {
      var path := PathAt(mem, regs.rsi, limit).value;
      r := AskReadAdds(cbs, regs, path, h + s);
      w := AskWriteAdds(cbs, regs, path, h + s + r);
      assert Consult(cbs, limit, h + s, regs, mem) == (h + s + r + w, Refused(r) || Refused(w));
    }
    RefusedParts(s, r, w);
    assert h + s + r + w == h + (s + r + w);
  }

  lemma AskReadAdds(cbs: Callbacks, regs: Regs, path: Path, h: History) returns (r: History)
    ensures AskRead(cbs, regs, path, h) == (h + r, Refused(r))
    ensures if cbs.fileRead.Some? && Reads(regs)
            then |r| == 1 && r[0].FileRead? && r[0].path == path else r == []
  {
    r := if cbs.fileRead.Some? && Reads(regs) then [FileRead(path, cbs.fileRead.value(h, path))] else [];
    RefusedOne(r);
    assert h + [] == h;
  }

  lemma AskWriteAdds(cbs: Callbacks, regs: Regs, path: Path, h: History) returns (w: History)
    ensures AskWrite(cbs, regs, path, h) == (h + w, Refused(w))
    ensures if cbs.fileWrite.Some? && Writes(regs)
            then |w| == 1 && w[0].FileWrite? && w[0].path == path else w == []
  {
    w := if cbs.fileWrite.Some? && Writes(regs) then [FileWrite(path, cbs.fileWrite.value(h, path))] else [];
    RefusedOne(w);
    assert h + [] == h;
  }

  lemma RefusedOne(r: History)
    requires |r| <= 1
    ensures Refused(r) <==> |r| == 1 && Refusal(r[0])
  {
    if |r| == 1 {
      assert r[0] in r;
    }
  }

  lemma RefusedParts(s: History, r: History, w: History)
    requires forall c | c in s :: c.SyscallCall?
    ensures Refused(s + r + w) <==> Refused(r) || Refused(w)
  {
    var t := s + r + w;
    if Refused(r) {
      var c :| c in r && Refusal(c);
      assert c in t;
    }
    if Refused(w) {
      var c :| c in w && Refusal(c);
      assert c in t;
    }
    if Refused(t) {
      var c :| c in t && Refusal(c);
      assert c in r || c in w;
    }
  }

  /** Whatever the syscall callback answers, the kernel is given its registers as a
      whole; only a refusal of a file callback, asked about an openat, changes two of
      them. */
  lemma {:induction false} KernelGetsTheCallbacksRegisters(
    cbs: Callbacks, limit: nat, w: World, pid: int, regs: Regs, mem: Memory)
    requires AsLong(regs.origRax) !in {-1, w.t.last}
    ensures
      var k := Step(cbs, limit, w, SysEntry(pid, regs, mem)).inside[pid];
      var r := if cbs.syscall.Some? then cbs.syscall.value(w.t.calls, regs) else regs;
      && k.given == (if Refused(k.asks) then r.(origRax := 0xFFFF_FFFF_FFFF_FFFF, rax := 0xFFFF_FFFF_FFFF_FFFF) else r)
      && (Refused(k.asks) ==> regs.origRax == 257)
  {
    StatusDecodes(SYSCALL_STOP, 0);
    EntryIsVetted(cbs, limit, w.t.calls, regs, mem);
    var asks := VettedAsks(cbs, limit, w.t.calls, regs, mem);
    assert (w.t.calls + asks)[|w.t.calls|..] == asks;
  }

  lemma {:induction false} VettedAsks(cbs: Callbacks, limit: nat, calls: History, regs: Regs, mem: Memory)
    returns (asks: History)
    ensures
      var (h, given) := Vetted(cbs, limit, calls, regs, mem);
      var r := if cbs.syscall.Some? then cbs.syscall.value(calls, regs) else regs;
      && h == calls + asks
      && given == (if Refused(asks) then r.(origRax := 0xFFFF_FFFF_FFFF_FFFF, rax := 0xFFFF_FFFF_FFFF_FFFF) else r)
      && (Refused(asks) ==> regs.origRax == 257)
  {
    var s := if cbs.syscall.Some? then [SyscallCall(regs)] else [];
    var c := calls + s;
    var r := if cbs.syscall.Some? then cbs.syscall.value(calls, regs) else regs;
    if regs.origRax != 257 || PathAt(mem, r.rsi, limit).None? {
      return s;
    }
    var p, mode := PathAt(mem, r.rsi, limit).value, r.rdx % 4;
    var f := if cbs.fileRead.Some? && (mode == 0 || mode == 2) then [FileRead(p, cbs.fileRead.value(c, p))] else [];
    var g := if cbs.fileWrite.Some? && (mode == 1 || mode == 2)
             then [FileWrite(p, cbs.fileWrite.value(c + f, p))] else [];
    RefusedOne(f);
    RefusedOne(g);
    RefusedParts(s, f, g);
    assert c + f + g == calls + (s + f + g);
    asks := s + f + g;
  }

  /** What each call in progress, and each finished one, looks like. */
  ghost predicate Mediated(c: InCall) {
    && c.given == (if Refused(c.asks) then Denied(c.asked) else c.asked)
    && (Refused(c.asks) ==> AsLong(c.asked.origRax) == SYS_OPENAT)
  }

  /** A refused openat is not performed and returns -EPERM; every other call is
      performed as asked and only its return value is the kernel's. */
  ghost predicate Honest(f: Finished) {
    && Mediated(f.call)
    && f.left ==
       if Refused(f.call.asks) then f.call.asked.(origRax := Negated(EPERM), rax := Negated(EPERM))
       else if AsLong(f.call.asked.origRax) == -1 then f.call.asked
       else f.call.asked.(rax := f.result)
  }

  ghost predicate Watched(w: World) {
    && (forall p | p in w.inside :: Mediated(w.inside[p]))
    && (forall f | f in w.finished :: Honest(f))
  }

  /** What one event adds to the paths seen by the callbacks. */
  lemma {:induction false} StepMediates(cbs: Callbacks, limit: nat, w: World, e: Event)
    requires Benign(cbs) && Watched(w)
    ensures var w' := RefStep(cbs, limit, w, e);
      && Watched(w')
      && w.finished <= w'.finished
      && (cbs.syscall.Some? ==> SyscallCalls(w'.t.calls) == SyscallCalls(w.t.calls) + Numbered([e]))
      && (cbs.fileRead.Some? ==> ReadPaths(w'.t.calls) == ReadPaths(w.t.calls) + PathIf(limit, e, true))
      && (cbs.fileWrite.Some? ==> WritePaths(w'.t.calls) == WritePaths(w.t.calls) + PathIf(limit, e, false))
  {
    assert Numbered([e]) == (if e.SysEntry? && AsLong(e.regs.origRax) != -1 then [e.regs] else []) + Numbered([]);
    if e.SysEntry? && AsLong(e.regs.origRax) != -1 {
      EntryMediates(cbs, limit, w, e);
    }
  }

  lemma {:induction false} EntryMediates(cbs: Callbacks, limit: nat, w: World, e: Event)
    requires Benign(cbs) && Watched(w) && e.SysEntry? && AsLong(e.regs.origRax) != -1
    ensures var w' := RefStep(cbs, limit, w, e);
      && Watched(w')
      && (cbs.syscall.Some? ==> SyscallCalls(w'.t.calls) == SyscallCalls(w.t.calls) + [e.regs])
      && (cbs.fileRead.Some? ==> ReadPaths(w'.t.calls) == ReadPaths(w.t.calls) + PathIf(limit, e, true))
      && (cbs.fileWrite.Some? ==> WritePaths(w'.t.calls) == WritePaths(w.t.calls) + PathIf(limit, e, false))
  {
    hide AtEntry, Vetted, Refused, Watched;
    var h := w.t.calls;
    EntryIsVetted(cbs, limit, h, e.regs, e.mem);
    var a, b, c := EntryAsks(cbs, limit, h, e.regs, e.mem);
    PartPaths(h, a, b, c);
    assert (h + (a + b + c))[|h|..] == a + b + c;
    NotOpenatNotRefused(a, b, c);
    EntryWatched(cbs, limit, w, e, a + b + c);
  }

  /** The paths in a history that asked `a`, then file_read, then file_write. */
  lemma {:induction false} PartPaths(h: History, a: History, b: History, c: History)
    requires |a| <= 1 && |b| <= 1 && |c| <= 1
    requires (a != [] ==> a[0].SyscallCall?) && (b != [] ==> b[0].FileRead?) && (c != [] ==> c[0].FileWrite?)
    ensures var h' := h + (a + b + c);
      && SyscallCalls(h') == SyscallCalls(h) + (if a == [] then [] else [a[0].regs])
      && ReadPaths(h') == ReadPaths(h) + (if b == [] then [] else [b[0].path])
      && WritePaths(h') == WritePaths(h) + (if c == [] then [] else [c[0].path])
  {
    hide SyscallCalls, ReadPaths, WritePaths;
    CallsConcat(h, a + b + c);
    CallsConcat(a + b, c);
    CallsConcat(a, b);
    AtMostOne(a);
    AtMostOne(b);
    AtMostOne(c);
  }

  lemma {:induction false} AtMostOne(a: History)
    requires |a| <= 1
    ensures SyscallCalls(a) == if a != [] && a[0].SyscallCall? then [a[0].regs] else []
    ensures ReadPaths(a) == if a != [] && a[0].FileRead? then [a[0].path] else []
    ensures WritePaths(a) == if a != [] && a[0].FileWrite? then [a[0].path] else []
  {
    if a != [] {
      CallsOne(a[0]);
      assert a == [a[0]];
    }
  }

  lemma {:induction false} EntryWatched(cbs: Callbacks, limit: nat, w: World, e: Event, asks: History)
    requires Watched(w) && e.SysEntry? && AsLong(e.regs.origRax) != -1
    requires
      var (h, given) := Vetted(cbs, limit, w.t.calls, e.regs, e.mem);
      |w.t.calls| <= |h| && h[|w.t.calls|..] == asks && given == if Refused(asks) then Denied(e.regs) else e.regs
    requires Refused(asks) ==> AsLong(e.regs.origRax) == SYS_OPENAT
    ensures Watched(RefStep(cbs, limit, w, e))
  {
    hide Vetted, Refused;
    var w' := RefStep(cbs, limit, w, e);
    forall p | p in w'.inside ensures Mediated(w'.inside[p]) {
      if p != e.pid {
        assert p in w.inside && w'.inside[p] == w.inside[p];
      }
    }
  }

  lemma NotOpenatNotRefused(s: History, r: History, w: History)
    requires forall c | c in s :: c.SyscallCall?
    ensures r == [] && w == [] ==> !Refused(s + r + w)
  {
  }

  /** End to end.  With no register-changing callback, over every serial run: the
      syscall callback sees exactly the calls numbered other than -1, once each, on
      entry; file_read and file_write see exactly the paths of the openat calls of
      their access modes, in order; and a call is skipped with -EPERM if and only if
      a callback asked about it answered -1, all others go on as asked. */
  lemma {:induction false} SerialRunIsMediated(cbs: Callbacks, limit: nat, w: World, es: seq<Event>, open: Option<int>)
    requires Benign(cbs) && Serial(es, open) && Phase(w, open) && Watched(w)
    ensures var w' := Run(cbs, limit, w, es);
      && (cbs.syscall.Some? ==> SyscallCalls(w'.t.calls) == SyscallCalls(w.t.calls) + Numbered(es))
      && (cbs.fileRead.Some? ==> ReadPaths(w'.t.calls) == ReadPaths(w.t.calls) + PathsRead(limit, es))
      && (cbs.fileWrite.Some? ==> WritePaths(w'.t.calls) == WritePaths(w.t.calls) + PathsWritten(limit, es))
      && forall f | f in w'.finished :: Honest(f)
    decreases |es|
  {
    hide Step, RefStep, Honest, Mediated, PathIf, ReadPaths, WritePaths, SyscallCalls;
    if es == [] {
      NothingAdded(limit, w.t.calls);
    } else {
      var e := es[0];
      StepIsRef(cbs, limit, w, e, open);
      StepMediates(cbs, limit, w, e);
      var w1 := Step(cbs, limit, w, e);
      SerialRunIsMediated(cbs, limit, w1, es[1..], Opened(e, open));
      Chains(SyscallCalls(w.t.calls), Numbered([e]), Numbered(es[1..]));
      Chains(ReadPaths(w.t.calls), PathIf(limit, e, true), PathsRead(limit, es[1..]));
      Chains(WritePaths(w.t.calls), PathIf(limit, e, false), PathsWritten(limit, es[1..]));
      NumberedSplit(es);
    }
  }

  lemma NothingAdded(limit: nat, h: History)
    ensures SyscallCalls(h) + Numbered([]) == SyscallCalls(h)
    ensures ReadPaths(h) + PathsRead(limit, []) == ReadPaths(h)
    ensures WritePaths(h) + PathsWritten(limit, []) == WritePaths(h)
  {
  }

  lemma Chains<T>(a: seq<T>, b: seq<T>, c: seq<T>)
    ensures a + b + c == a + (b + c)
  {
  }

  lemma {:induction false} NumberedSplit(es: seq<Event>)
    requires es != []
    ensures Numbered(es) == Numbered([es[0]]) + Numbered(es[1..])
  {
    assert [es[0]][1..] == [];
  }

  /** A run of one tracee, as the kernel makes it, is serial. */
  ghost predicate OneTracee(es: seq<Event>, pid: int, inside: bool)
    decreases |es|
  {
    es == [] ||
    (WellFormed(es[0]) &&
     match es[0]
     case SysEntry(p, _, _) => p == pid && !inside && OneTracee(es[1..], pid, true)
     case SysExit(p, _, _) => p == pid && inside && OneTracee(es[1..], pid, false)
     case _ => OneTracee(es[1..], pid, inside))
  }

  lemma {:induction false} OneTraceeIsSerial(es: seq<Event>, pid: int, inside: bool)
    requires OneTracee(es, pid, inside)
    ensures Serial(es, if inside then Some(pid) else None)
    decreases |es|
  {
    if es != [] {
      match es[0]
      case SysEntry(_, _, _) => OneTraceeIsSerial(es[1..], pid, true);
      case SysExit(_, _, _) => OneTraceeIsSerial(es[1..], pid, false);
      case _ => OneTraceeIsSerial(es[1..], pid, inside);
    }
  }
}
