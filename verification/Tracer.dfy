/**
 src/libtracer/tracer.c: what the tracer does at each stop of a tracee.  The
 kernel is outside: a stop brings the outcome of each ptrace call made on it, and
 the tracer leaves a list of requests.
 */
module Tracer {
  import opened Effects
  import opened Wrappers
  import opened ReadString

  const EPERM := 1
  const ESRCH := 3
  const SYS_OPENAT := 257
  const O_RDONLY := 0
  const O_WRONLY := 1
  const O_RDWR := 2
  const ACCMODES := 4      // O_ACCMODE + 1
  const SIGTRAP := 5
  const SIGCONT := 18
  const SYSCALL_STOP := 0x85   // SIGTRAP | 0x80

  const INTS := 0x1_0000_0000

  /** The two access bits survive the cast of the register to int. */
  lemma LowBits(x: nat)
    ensures x % INTS % ACCMODES == x % ACCMODES
  {
    var q, r := x / INTS, x % INTS;
    assert x == ACCMODES * (INTS / ACCMODES * q) + r;
  }

  type U64 = x: int | 0 <= x < ADDRESSES

  /** A register read as `long`. */
  function AsLong(x: U64): int {
    if x < ADDRESSES / 2 then x else x - ADDRESSES
  }

  /** A negative errno stored in a register. */
  function Negated(e: nat): U64
    requires 0 < e < ADDRESSES
  {
    ADDRESSES - e
  }

  /** `struct user_regs_struct`; `others` are the registers the tracer never names. */
  datatype Regs = Regs(origRax: U64, rax: U64, rdi: U64, rsi: U64, rdx: U64, others: seq<U64>)

  type Path = seq<Byte>

  /** The callback calls made so far, with what the file callbacks answered. */
  datatype Call = SyscallCall(regs: Regs) | FileRead(path: Path, ret: int) | FileWrite(path: Path, ret: int)
  type History = seq<Call>

  /** Callbacks may be null, and may answer by all that happened before. */
  datatype Callbacks = Callbacks(
    fileRead: Option<(History, Path) -> int>,
    fileWrite: Option<(History, Path) -> int>,
    syscall: Option<(History, Regs) -> Regs>)

  datatype Request = SetRegs(pid: int, regs: Regs) | Resume(pid: int, sig: int)

  datatype GetRegs = Got(regs: Regs) | Failed(errno: int)

  /** The answers of the kernel to the ptrace calls made at a stop. */
  datatype Answers = Answers(get: GetRegs, mem: Memory, setOk: bool, resumeRet: int)

  /** The outcome of waitpid. */
  datatype Wait = NoChange | WaitFailed | Reaped(pid: int, status: nat, answers: Answers)

  datatype State = State(last: int, calls: History, reqs: seq<Request>) {
    function Request(r: Request): State {
      this.(reqs := reqs + [r])
    }
  }

  /** The one static toggle: the number of the call being entered, or -1. */
  function Toggle(last: int, n: int): int {
    if last == n then -1 else n
  }

  function Denied(regs: Regs): Regs {
    regs.(origRax := Negated(EPERM), rax := Negated(EPERM))
  }

  predicate Reads(regs: Regs) {
    regs.rdx % ACCMODES == O_RDONLY || regs.rdx % ACCMODES == O_RDWR
  }

  predicate Writes(regs: Regs) {
    regs.rdx % ACCMODES == O_WRONLY || regs.rdx % ACCMODES == O_RDWR
  }

  /** syscall_openat's use of file_read, then of file_write: the history after it
      and whether it refused. */
  ghost function AskRead(cbs: Callbacks, regs: Regs, path: Path, calls: History): (History, bool) {
    if cbs.fileRead.Some? && Reads(regs) then
      var ret := cbs.fileRead.value(calls, path);
      (calls + [FileRead(path, ret)], ret == -1)
    else (calls, false)
  }

  ghost function AskWrite(cbs: Callbacks, regs: Regs, path: Path, calls: History): (History, bool) {
    if cbs.fileWrite.Some? && Writes(regs) then
      var ret := cbs.fileWrite.value(calls, path);
      (calls + [FileWrite(path, ret)], ret == -1)
    else (calls, false)
  }

  /** syscall_openat: the callbacks asked, and whether one of them refused. */
  ghost function Consult(cbs: Callbacks, limit: nat, calls: History, regs: Regs, mem: Memory): (History, bool) {
    match PathAt(mem, regs.rsi, limit)
    case None => (calls, false)
    case Some(path) =>
      var (c, d) := AskRead(cbs, regs, path, calls);
      var (c', d') := AskWrite(cbs, regs, path, c);
      (c', d || d')
  }

  /** The call is reported to the syscall callback, which may change the registers. */
  ghost function Told(cbs: Callbacks, calls: History, regs: Regs): (History, Regs) {
    if cbs.syscall.Some? then (calls + [SyscallCall(regs)], cbs.syscall.value(calls, regs)) else (calls, regs)
  }

  /** What is done on the way into a system call: the callbacks called, and the
      registers the kernel is given. */
  ghost function AtEntry(cbs: Callbacks, limit: nat, calls: History, regs: Regs, mem: Memory): (History, Regs) {
    var (c, r) := Told(cbs, calls, regs);
    if AsLong(regs.origRax) == SYS_OPENAT then
      var (c', deny) := Consult(cbs, limit, c, r, mem);
      (c', if deny then Denied(r) else r)
    else (c, r)
  }

  /** handle_syscalls. */
  ghost function Syscalls(cbs: Callbacks, limit: nat, st: State, pid: int, a: Answers): (State, int) {
    match a.get
    case Failed(errno) =>
      if errno == ESRCH then (st, -1) else (st.Request(Resume(pid, 0)), a.resumeRet)
    case Got(regs) =>
      var last := Toggle(st.last, AsLong(regs.origRax));
      var (calls, written) := if last != -1 then AtEntry(cbs, limit, st.calls, regs, a.mem) else (st.calls, regs);
      var s := State(last, calls, st.reqs + [SetRegs(pid, written)]);
      if a.setOk then (s.Request(Resume(pid, 0)), a.resumeRet) else (s, -1)
  }

  predicate Stopped(status: nat) {
    status % 0x100 == 0x7f
  }

  function StopSig(status: nat): nat {
    (status / 0x100) % 0x100
  }

  /** tracer_loop, one turn. */
  ghost function Turn(cbs: Callbacks, limit: nat, st: State, w: Wait): (State, int) {
    match w
    case NoChange => (st, 0)
    case WaitFailed => (st, -1)
    case Reaped(pid, status, a) =>
      if !Stopped(status) then (st, 0)
      else if StopSig(status) == SYSCALL_STOP then Syscalls(cbs, limit, st, pid, a)
      else if StopSig(status) == SIGTRAP || StopSig(status) == SIGCONT then
        (st.Request(Resume(pid, 0)), a.resumeRet)
      else (st.Request(Resume(pid, StopSig(status))), a.resumeRet)
  }

  /** The tracer and its static variable, with what it asked of callbacks and kernel. */
  class Tracer {
    const cbs: Callbacks
    const limit: nat
    var last: int
    var calls: History
    var reqs: seq<Request>

    ghost function Abs(): State
      reads this
    {
      State(last, calls, reqs)
    }

    constructor (cbs: Callbacks, limit: nat)
      ensures Abs() == State(-1, [], []) && this.cbs == cbs && this.limit == limit
    {
      this.cbs, this.limit := cbs, limit;
      last, calls, reqs := -1, [], [];
    }

    method Loop(w: Wait) returns (ret: int)
      modifies this
      ensures (Abs(), ret) == Turn(cbs, limit, old(Abs()), w)
    {
      match w
      case NoChange => return 0;
      case WaitFailed => return -1;
      case Reaped(pid, status, a) =>
        if status % 0x100 == 0x7f {
          var event := status / 0x100;
          var sig := (status / 0x100) % 0x100;
          ret := HandleStopped(pid, event, sig, a);
        } else {
          ret := 0;
        }
    }

    method HandleStopped(pid: int, event: nat, sig: nat, a: Answers) returns (ret: int)
      modifies this
      ensures sig == SYSCALL_STOP ==> (Abs(), ret) == Syscalls(cbs, limit, old(Abs()), pid, a)
      ensures sig != SYSCALL_STOP ==> ret == a.resumeRet
      ensures sig == SIGTRAP || sig == SIGCONT ==> Abs() == old(Abs()).Request(Resume(pid, 0))
      ensures sig != SIGTRAP && sig != SYSCALL_STOP && sig != SIGCONT ==>
        Abs() == old(Abs()).Request(Resume(pid, sig))
    {
      if sig == SIGTRAP {
        ret := HandleSigtrap(pid, event, a);
      } else if sig == SYSCALL_STOP {
        ret := HandleSyscalls(pid, a);
      } else if sig == SIGCONT {
        ret := PtraceSyscall(pid, 0, a);
      } else {
        ret := PtraceSyscall(pid, sig, a);
      }
    }

    /** Resumes whatever the event is. */
    method HandleSigtrap(pid: int, event: nat, a: Answers) returns (ret: int)
      modifies this
      ensures ret == a.resumeRet && Abs() == old(Abs()).Request(Resume(pid, 0))
    {
      ret := PtraceSyscall(pid, 0, a);
    }

    method PtraceSyscall(pid: int, sig: int, a: Answers) returns (ret: int)
      modifies this`reqs
      ensures ret == a.resumeRet && Abs() == old(Abs()).Request(Resume(pid, sig))
    {
      reqs := reqs + [Resume(pid, sig)];
      ret := a.resumeRet;
    }

    method HandleSyscalls(pid: int, a: Answers) returns (ret: int)
      modifies this
      ensures (Abs(), ret) == Syscalls(cbs, limit, old(Abs()), pid, a)
    {
      match a.get
      case Failed(errno) =>
        if ESRCH == errno {
          return -1;
        }
        ret := PtraceSyscall(pid, 0, a);
      case Got(entered) =>
        var regs := entered;
        var syscall := AsLong(regs.origRax);
        last := if last == syscall then -1 else syscall;
        var perm := 0;
        if cbs.syscall.Some? && last != -1 {
          calls, regs := calls + [SyscallCall(regs)], cbs.syscall.value(calls, regs);
        }
        if syscall == SYS_OPENAT && last != -1 {
          perm := SyscallOpenat(regs, a.mem);
        }
        if perm == -1 {
          regs := regs.(origRax := Negated(EPERM));
          regs := regs.(rax := Negated(EPERM));
        }
        reqs := reqs + [SetRegs(pid, regs)];
        if !a.setOk {
          return -1;
        }
        ret := PtraceSyscall(pid, 0, a);
    }

    method SyscallOpenat(regs: Regs, mem: Memory) returns (perm: int)
      modifies this`calls
      ensures (calls, perm == -1) == Consult(cbs, limit, old(calls), regs, mem)
    {
      var denyPerm := false;
      var fetched := FetchPath(mem, regs.rsi, limit);
      if fetched.None? {
        return 0;
      }
      var path := fetched.value;
      var flags := regs.rdx % INTS;
      LowBits(regs.rdx);
      var accFlag := flags % ACCMODES;
      if cbs.fileRead.Some? && (accFlag == O_RDONLY || accFlag == O_RDWR) {
        var ret := cbs.fileRead.value(calls, path);
        calls := calls + [FileRead(path, ret)];
        if ret == -1 {
          denyPerm := true;
        }
      }
      if cbs.fileWrite.Some? && (accFlag == O_WRONLY || accFlag == O_RDWR) {
        var ret := cbs.fileWrite.value(calls, path);
        calls := calls + [FileWrite(path, ret)];
        if ret == -1 {
          denyPerm := true;
        }
      }
      perm := if denyPerm then -1 else 0;
    }
  }
}
