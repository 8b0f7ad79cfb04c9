# Verification of prom's runtime

A Dafny model of four layers of prom (a terminal hijacker with loadable modules)
and proofs about them. `dafny verify dfyconfig.toml` checks everything.

**The defer stack** (`src/errm`): twelve frames, each with six static defers whose
arguments are copied into a 48-byte pool and twelve dynamic ones; the `edf_func`
macros clear the error code, push a frame, run a body, run the defers and pop.
Neither push nor pop resets a frame.

- `DeferTrees`: what code does through the interface, as finite call trees.
  Handlers are trees too: they may register further handlers on the running frame
  and make wrapped calls.
- `DeferMachine`: the stack as a function on values (frames, tables, `curr`, error
  code, observations). Its termination is proved by the total size of the handler
  trees that wait in any frame.
- `DeferScopes`: an independent meaning without frames, tables or indices: a body,
  its handlers last to first, each followed by what it registered itself; and what
  a call needs, as a predicate on the tree.
- `DeferRefinement`, `DeferTheorems`: the machine is that meaning, for re-entrant
  handlers too, and aborts exactly when the tree does not fit.
- `DeferStack`: the C memory. One object per `struct defer_data_t` with its arrays
  and byte pool; every method is proved against the machine. A running handler
  reads its argument out of the pool, so the refinement includes that the bytes
  are those registered, whatever ran in between.

**The tracer** (`src/libtracer/tracer.c`).

- `ReadString`: `read_string` over a partial byte memory, with its doubling buffer.
- `Tracer`: the dispatch on stops and `handle_syscalls`, a class whose one variable
  is the static toggle. Callbacks may answer by everything that happened before.
- `TracerRuns`: the tracer together with a kernel (an exit stop shows the registers
  SETREGS left at the entry; a call numbered -1 is skipped), compared with a monitor
  that is told entries from exits and defined by numbers of its own.
- `TracerStops`: at which interleavings of several tracees the one toggle is right,
  and what tracees are resumed with.

**Dynamic arrays** (`src/dga`). `DgaBlocks`: header and elements as bytes. `Dga`: the
operations on a heap of blocks. `DgaHistory`: any history of operations against plain
sequences, and its run on the heap.

**The clients** (`src/filesystem`, `src/modules`). `Effects` and `World`: live blocks
and open directories, changed by effects that code and handlers perform. `Process`:
a defer stack with its world in a fixed environment, and the opening and closing of
a wrapper. `Filesystem`, `Mods`: the functions of the two C files, with their loops.

Results that say the code falls short of what its text suggests, each with its exact
condition:

- A static defer registered by a *dynamic* handler on its own frame is not run by
  that call; the next call at the same depth finds it in its fresh frame and runs it
  (`FrameLeftEmptyIff`, `LeakedHandlerRunsInNextCall`).
- A handler that makes a wrapped call clears the error code the body left
  (`CallerSeesTheBodysError`).
- The one `last_syscall` for all tracees is right at every stop if and only if no
  entry directly follows an entry of the same number and every exit directly follows
  an entry of the number read there, stops numbered -1 excepted
  (`SharedToggleIsRightIff`). Each entry followed by the same tracee's exit is enough
  (`SerialIsRight`), and needed only where all calls are let through and end
  (`SerialIsNeeded`, `DeniedExitMayWait`). When two tracees enter an openat one after
  the other, the second open is never asked about (`SecondOpenGoesUnasked`).
- For one call the toggle is back at -1 if and only if the syscall callback keeps the
  number or makes it -1, or the call is an openat that a file callback refuses
  (`PairingSurvivesIff`, `RenumberedCallHidesTheNext`); a denial is harmless only
  because EPERM is 1 (`DenialPairsOnlyByEperm`).
- `open_dir` returns null without an error for an errno outside the five that are
  mapped, EMFILE for one, and `dir_content` then reads a null handle
  (`NullWithoutErrorIff`, `NoDescriptorLeft`, `DirContent`).
- `_dga_new` without memory returns a pointer that is not null, and `dga_resize`
  without memory leaves the new length in the header of the old block (`New`,
  `Resize`). src/dga/README.md speaks only of the block not being freed.
- src/libtracer/README.md says the syscall callback runs before every entry; the code
  does not call it for the number -1 (`SerialRunIsMediated`).

## Model

| member | source | states |
|---|---|---|
| DeferMachine.Register | src/errm/errm.c:87-120 | A registration that is not refused keeps every capacity and adds exactly the size of one waiting handler |
| DeferMachine.Exec | src/errm/errm.h:84-104 | Code that comes back leaves `curr` as it was, every capacity kept, and no more work waiting than it was written with |
| DeferMachine.Drain | src/errm/errm.c:125-145 | A drain ends although handlers add to the table: the total size of the waiting handler trees falls at each pop |
| DeferMachine.RunDefers | src/errm/errm.c:122-146 | run_defers restores `curr` and adds no waiting work |
| DeferMachine.Wrapped | src/errm/errm.h:84-104 | A wrapper that comes back restores `curr`, for any state of the frames, leaked entries included |
| DeferRefinement.ExecMeets | src/errm/errm.c:87-120 | Code in a frame goes through if and only if tables, pool and its own calls fit, and then has registered what its tree says, in order |
| DeferRefinement.DrainMeets | src/errm/errm.c:125-145 | A loop of run_defers runs the table depth first from the end, with what handlers add, in either table; it aborts exactly when a handler overfills something |
| DeferRefinement.WrappedMeets | src/errm/errm.h:84-104 | The array-like machine equals the scope meaning on every call tree whose inner calls leak nothing: same abort, observations, error code and frames |
| DeferTheorems.CallRefinesScope | src/errm/errm.c:71-146 | A call whose inner calls leak nothing, made with empty frames above, aborts if and only if it does not fit; else it observes body, statics in reverse, dynamics in reverse, with re-entrant registrations in place, restores `curr` and touches no frame but its own |
| DeferTheorems.CleanCallRestoresFrames | src/errm/errm.c:71-85 | If no dynamic handler registers a static on its frame, all frames are back as they were and those above `curr` stay empty, though push and pop reset nothing |
| DeferTheorems.FrameLeftEmptyIff | src/errm/errm.c:122-146 | The frame is left empty if and only if no dynamic handler of the scope calls static_defer on it |
| DeferTheorems.LeakedHandlerRunsInNextCall | src/errm/errm.c:135-145 | Otherwise: a concrete call after which the next call, which registers nothing, finds and runs the stale handler with the old bytes |
| DeferTheorems.EveryPushFindsAnEmptyFrame | src/errm/errm.c:71-77 | At any nesting of a clean call, in bodies and handlers, each push exposes an empty frame and each pop leaves one |
| DeferTheorems.RunsWhatItRegisters | src/errm/errm.c:122-146 | For every handler, the runs in a call equal the registrations in it, those of inner calls and handlers included, except for the leaked statics |
| DeferTheorems.CallerSeesTheBodysError | src/errm/errm.h:86-103 | If handler runs set no code, the caller sees the one the body left; if they set any, it sees the last of theirs whatever the body said |
| DeferTheorems.PlainScopeOrder | src/errm/errm.c:122-146 | Without re-entrant handlers: body, then statics in reverse registration order, then dynamics in reverse |
| DeferTheorems.AbortsIff | src/errm/errm.c:71-120 | Without re-entrant handlers the process aborts if and only if some call in the tree is nested below the twelfth frame or some frame gets a seventh static, a thirteenth dynamic or more than 48 bytes |
| DeferTheorems.CleanCallsDoNotInterfere | src/errm/errm.c:64-85 | Over any sequence of clean calls each fits or aborts by itself, observes its own trace and the frames end as they began |
| DeferStack.Frame.constructor | src/errm/errm.c:54-69 | A new frame is empty and well formed |
| DeferStack.Frame.StaticDefer | src/errm/errm.c:87-107 | Refused exactly when the table or the pool is full; else the entry is last, its bytes are in a new pool range after all others, and bytes in use do not change |
| DeferStack.Frame.Defer | src/errm/errm.c:109-120 | Refused exactly when the table is full; else the entry is last |
| DeferStack.Frame.PopStatic | src/errm/errm.c:125-133 | Takes the last static, with a pool range that holds the bytes of its registration |
| DeferStack.Frame.PopDyn | src/errm/errm.c:137-144 | Takes the last dynamic entry |
| DeferStack.Frame.ResetPool | src/errm/errm.c:135 | Resets the pool only once no static is pending |
| DeferStack.Stack.constructor | src/errm/errm.c:64-69 | Twelve separate empty frames, none current |
| DeferStack.Stack.SetError | src/errm/errm.c:41-45 | Sets the thread's error code, nothing else |
| DeferStack.Stack.Push | src/errm/errm.c:71-77 | Refused exactly at the twelfth frame; changes `curr` only |
| DeferStack.Stack.Pop | src/errm/errm.c:79-85 | Refused exactly without a frame; changes `curr` only |
| DeferStack.Stack.StaticDefer | src/errm/errm.c:87-107 | The machine's registration, on the current frame's memory; all pools keep what was in use |
| DeferStack.Stack.Defer | src/errm/errm.c:109-120 | The machine's registration in the dynamic table |
| DeferStack.Stack.Read | src/errm/errm.c:98-103 | A pointer into a pool still reads the bytes it was made for |
| DeferStack.Stack.Exec | src/errm/errm.h:84-104 | Running a call tree on the arrays is the machine's run of it, arguments read from the pools; no pool byte in use changes |
| DeferStack.Stack.Wrapped | src/errm/errm.h:84-104 | The macro's statements on the arrays are the machine's call, abort included, and keep the callers' pools |
| DeferStack.Stack.RunDefers | src/errm/errm.c:122-146 | Both loops on the arrays are the machine's run_defers and keep the pools below |
| DeferStack.Stack.DrainStatics | src/errm/errm.c:125-134 | The first loop on the arrays is the machine's drain of the static table, which it leaves empty |
| DeferStack.Stack.DrainDyns | src/errm/errm.c:137-145 | The second loop is the machine's drain of the dynamic table |
| ReadString.StringIsUnique | src/libtracer/tracer.c:182-213 | Memory determines the string at an address: the longest run of readable words, cut at its first NUL |
| ReadString.WordByte | src/libtracer/tracer.c:201-207 | Byte j of word i is the memory at addr + 8 i + j, and the word is had if and only if its eight bytes can be read |
| ReadString.StringInMemory | src/libtracer/tracer.c:182-213 | The string of a memory, told by addresses alone |
| ReadString.RoomForWord | src/libtracer/tracer.c:192-200 | Only a full buffer doubles, one doubling makes room for the next word, and the size stays 4096 doubled |
| ReadString.StringEndsUnread | src/libtracer/tracer.c:203-206 | At an unreadable word the NUL written in its place makes the buffer the string of the memory |
| ReadString.StringEndsInWord | src/libtracer/tracer.c:207-209 | At a word with a NUL the buffer is the string of the memory |
| ReadString.Peek | src/libtracer/tracer.c:201-203 | errno alone tells failure; a readable all-ones word is a word |
| ReadString.ReadString | src/libtracer/tracer.c:182-213 | For every memory the buffer, up to its first NUL, is what memory holds at addr, addr + 1 and so on, followed there by a NUL or by eight bytes not all readable; it has the least sufficient doubling of 4096 bytes, its reallocations copied exactly its size less 4096; null only when no such buffer can be had, and never for a limit of 4096 and twice the string and a word |
| ReadString.MakeRoom | src/libtracer/tracer.c:191-200 | Room for one more word: the buffer itself or its double with the bytes read so far, null exactly when the double cannot be had |
| ReadString.FetchWord | src/libtracer/tracer.c:201-210 | The loop ends exactly at the first word that is unreadable or holds a NUL, the buffer then being the string; else the word is appended |
| ReadString.FetchPath | src/libtracer/tracer.c:153-156 | The path handed to callbacks is the memory from the address on, NUL-free, up to a NUL or unreadable bytes; none exactly when the buffer cannot be had |
| Tracer.Tracer.Loop | src/libtracer/tracer.c:47-68 | One turn, for every outcome of waitpid and every status word |
| Tracer.Tracer.HandleStopped | src/libtracer/tracer.c:72-84 | Signals are passed on, except SIGTRAP and SIGCONT; SIGTRAP with bit 7 is a system call stop |
| Tracer.Tracer.HandleSyscalls | src/libtracer/tracer.c:104-147 | Toggle, callbacks, denial, SETREGS and resume, for every answer of the kernel |
| Tracer.Tracer.SyscallOpenat | src/libtracer/tracer.c:150-180 | Asks file_read and file_write by access mode on the string in the tracee; refuses if and only if one of them answers -1 |
| TracerRuns.StatusDecodes | src/libtracer/tracer.c:61-63 | A stop's status word decodes to its signal whatever event it carries |
| TracerRuns.EntryIsVetted | src/libtracer/tracer.c:123-180 | At an entry, in numbers: the syscall callback first; for call 257 file_read is asked in modes 0 and 2, then file_write in modes 1 and 2, about the string at rsi; the callback's registers go back whole, but for orig_rax and rax, both -1 after a refusal |
| TracerRuns.SyscallTurn | src/libtracer/tracer.c:104-147 | A system call stop for every state and answer: the new toggle, the callbacks, SETREGS before the resume, and the value returned |
| TracerRuns.OtherTurn | src/libtracer/tracer.c:47-100 | Every other turn by status word and errno: what is resumed, with which signal, and the value returned |
| TracerRuns.EndedIsNoStop | src/libtracer/tracer.c:61-67 | A child that exits or is killed by a signal is left alone |
| TracerRuns.TurnFailsIff | src/libtracer/tracer.c:47-147 | tracer_loop returns -1 if and only if waitpid fails, the process is gone, SETREGS fails or the tracee does not resume |
| TracerRuns.KernelGetsTheCallbacksRegisters | src/libtracer/tracer.c:123-138 | Whatever the syscall callback changes reaches the kernel as a whole; only the refusal of an openat changes two registers of it |
| TracerRuns.StepIsRef | src/libtracer/tracer.c:104-147 | At each stop of a serial run the toggle decides what a monitor that knows entry from exit decides |
| TracerRuns.SerialRunIsMonitored | src/libtracer/tracer.c:104-147 | Over every serial run of any number of tracees the shared toggle gives the monitor's callbacks, registers and resumptions, and is -1 after each pair |
| TracerRuns.PairingSurvivesIff | src/libtracer/tracer.c:119-136 | The toggle is -1 after a call's exit if and only if the syscall callback answers with the number it was given or -1, or the call is an openat and a file callback asked about it refuses |
| TracerRuns.RenumberedCallHidesTheNext | src/libtracer/tracer.c:121-126 | A callback that renumbers a call: its exit is reported as an entry, and the next call of that number is not reported |
| TracerRuns.DenialPairsOnlyByEperm | src/libtracer/tracer.c:133-136 | Writing -e as the number keeps the pairing if and only if e is EPERM |
| TracerRuns.EntryAsks | src/libtracer/tracer.c:125-136 | One entry calls each callback at most once, in a fixed order, only where it applies, and writes the denial exactly when one of these calls answered -1 |
| TracerRuns.SerialRunIsMediated | src/libtracer/tracer.c:119-180 | End to end: the syscall callback sees each call numbered other than -1 once, on entry; file_read sees exactly the paths of the openat calls in modes 0 and 2, file_write those in modes 1 and 2, in order; a call is skipped with -EPERM if and only if a callback asked about it answered -1; all others run as asked |
| TracerRuns.OneTraceeIsSerial | src/libtracer/tracer.c:121-122 | Every run of a single tracee is serial |
| TracerStops.RightIsMonitor | src/libtracer/tracer.c:121-147 | Taking one stop for what it is is the same as doing all the monitor does that is told entry from exit |
| TracerStops.SharedToggleIsRightIff | src/libtracer/tracer.c:105-131 | Over every run of any number of tracees, denied and never-ending calls included: the toggle is right at every stop if and only if among the system call stops no entry directly follows an entry of the same number and every exit directly follows an entry of the number read there, -1 excepted; the run is then the monitor's |
| TracerStops.SerialIsRight | src/libtracer/tracer.c:105-131 | Each entry followed by the same tracee's exit makes the toggle right at every stop |
| TracerStops.SerialIsNeeded | src/libtracer/tracer.c:105-131 | Where all calls are let through as numbered and end, the toggle is right at every stop only if each entry is followed by the same tracee's exit |
| TracerStops.SecondOpenGoesUnasked | src/libtracer/tracer.c:121-130 | Two openat entries in a row with a file_read that refuses all: the first is denied, the second goes through and nobody is asked about it |
| TracerStops.DeniedExitMayWait | src/libtracer/tracer.c:133-136 | Another tracee's call between a denied openat and its exit: right at every stop though not serial |
| TracerStops.TurnResumes | src/libtracer/tracer.c:47-147 | Each stop gets one resume unless GETREGS finds no process or SETREGS fails; nothing else is resumed |
| TracerStops.RunResumesEachStopOnce | src/libtracer/tracer.c:47-100 | Over every run: one resume per served stop, in order, and no other |
| TracerStops.TraceesGetTheirSignals | src/libtracer/tracer.c:72-84 | Over every run the signals the tracer injects into a tracee are that tracee's own stop signals less SIGTRAP, SIGTRAP with bit 7 and SIGCONT, in order |
| DgaBlocks.RangesApart | src/dga/dga.h:29-59 | Elements occupy disjoint ranges in index order between the header and the end of the block |
| DgaBlocks.Layout | src/dga/dga.h:29-37 | Length in bytes 0 to 7, element size in bytes 16 to 23, low byte first, element i from byte 24 + szt * i on |
| DgaBlocks.NewBlockIs | src/dga/dga.c:4-13 | The bytes written read back as the length and element size asked for, and the block has that size |
| DgaBlocks.ResizeKeeps | src/dga/dga.c:22-32 | A resize keeps the element size and every element both lengths have |
| DgaBlocks.WriteChangesOne | src/dga/dga.h:29-59 | Writing an element changes that element, no other and not the header |
| Dga.Heap.New | src/dga/dga.c:4-13 | A new array of the length and element size asked for; without memory, a pointer one header past null |
| Dga.Heap.Resize | src/dga/dga.c:22-32 | The block moves, common elements kept; without memory null, the block kept, its header already holding the new length |
| Dga.Heap.Grow | src/dga/dga.c:35-37 | The length grows by n in a size_t and every element both lengths have is kept; without memory null, and the block differs in its length field only |
| Dga.Heap.Shrink | src/dga/dga.c:40-42 | The length falls by n, wrapping below zero, and every element both lengths have is kept; without memory as for growing |
| Dga.Heap.Free | src/dga/dga.c:45-48 | Exactly the array's block goes |
| Dga.Heap.Dup | src/dga/dga.c:51-63 | A second block equal byte for byte; the first untouched |
| DgaHistory.StepRefines | src/dga/dga.c:4-63 | Each operation on bytes is the operation on sequences, all other arrays unchanged |
| DgaHistory.HistoryRefinesSequences | src/dga/dga.c:4-63 | After any history of new, resize, write, dup and free, every array has the length, element size and written elements of its sequence, duplicates independent |
| DgaHistory.PerformAll | src/dga/dga.c:4-63 | A history run on the heap by the library's own functions leaves the blocks of that history, and so its sequences |
| World.WordexpBytesHold | src/filesystem/filesystem.c:51 | The pointer wordfree needs survives in the bytes of the pool |
| World.FaultsIff | src/filesystem/filesystem.c:103-110 | What counts as a double free or a stray free or close, which no function here ever makes |
| World.FilterConcat | src/filesystem/filesystem.c:124-126 | The listing goes entry by entry, in order |
| World.FilterOne | src/filesystem/filesystem.c:124-126 | An entry is listed or not by itself |
| World.FreeNamesRestores | src/filesystem/filesystem.c:105-110 | free_dir_content restores the heap dir_content started from |
| Process.SimpleRunDefers | src/errm/errm.c:122-146 | With one-effect handlers run_defers never aborts, empties the frame, keeps the error code and performs the statics' then the dynamics' effects, each last first |
| Process.Process.Begin | src/errm/errm.h:86-93 | Opens an empty frame with a clear error code, or aborts exactly at the twelfth |
| Process.Process.End | src/errm/errm.h:95-103 | Performs the frame's handlers, gives the frame back empty and keeps the error code |
| Filesystem.EMalloc | src/filesystem/filesystem.c:21-27 | A block, or null and the code; aborts exactly without a frame |
| Filesystem.Expand | src/filesystem/filesystem.c:43-59 | One new block with the first word, or null and the reason; the words are freed in every case; aborts exactly without the frames it needs |
| Filesystem.ExpandedIsSane | src/filesystem/filesystem.c:43-59 | Null exactly with the code 6 for a path that cannot be parsed or 2 without memory, nothing left live; else the one new block holds the first word |
| Filesystem.AbsPathFromRelative | src/filesystem/filesystem.c:61-74 | One new block with the joined path; the current directory's block is freed |
| Filesystem.AbsPath | src/filesystem/filesystem.c:76-86 | A word that begins with '/' is copied, any other is joined to the current directory with '/', so the result begins with '/' if the current directory does; it is the only new block; null exactly on error, nothing left live; aborts exactly without the frames it needs |
| Filesystem.AbsPathFacts | src/filesystem/filesystem.c:76-86 | Null if and only if Errored, with PARSING_ERROR exactly for a path that cannot be parsed, and nothing left live; else only the result is new |
| Filesystem.OpenDir | src/filesystem/filesystem.c:91-101 | A handle, or null with the code errno maps to; the expanded path is freed in every case |
| Filesystem.DirOpenedFacts | src/filesystem/filesystem.c:91-101 | open_dir leaves no block live, a handle exactly on success, and else the code of each errno by number |
| Filesystem.NullWithoutErrorIff | src/errm/errm.c:148-166 | open_dir returns null with no error set if and only if opening fails with an errno outside the five mapped |
| Filesystem.NoDescriptorLeft | src/errm/errm.c:148-166 | EMFILE is such an errno: null and no error |
| Filesystem.AddName | src/filesystem/filesystem.c:128-136 | The array moves, one slot longer, its new slot a new copy of the name; all older blocks as they were |
| Filesystem.DirContent | src/filesystem/filesystem.c:115-145 | New live blocks are the array and one string per visible entry, in order; no handle or temporary is left; null if and only if Errored, then nothing is left; the process is lost exactly without frames or on an unmapped errno |
| Filesystem.FreeDirContent | src/filesystem/filesystem.c:105-110 | The loop restores the heap from before dir_content |
| Mods.GetModPath | src/modules/mods.c:20-32 | A new block with the joined path, and the error code cleared |
| Mods.LoadModule | src/modules/mods.c:34-73 | Loads what is at the modules path with the name put after it; the code is 7 if that does not load, else clear; the path is freed |
| Mods.RmModule | src/modules/mods.c:89-94 | Removes the entry the joined path names, if it can be removed, and no other, whatever the spelling of the path, and returns 0 or else -1; frees the path and clears the error code |
| Mods.InstalledMods | src/modules/mods.c:105-142 | One module per entry that does not begin with '.', in order, each loaded from the modules path with its name, if and only if the directory opens and all of them load; else null, Errored (7 when one does not load) and nothing left live; the names are freed either way; the process is lost exactly without frames or on an unmapped errno |
| Mods.CleanUlModNames | src/modules/mods.c:146-187 | Returns exactly the visible names that do not load, in order, in new strings; the directory loses exactly the removable entries their paths name; null if and only if Errored; a success ends with the code clear although failed loads set it |
| Mods.AllGone | src/modules/mods.c:157-180 | With a modules path that spells the entries, the entries lost are the visible ones that do not load |
| Mods.CleaningSharesOut | src/modules/mods.c:157-180 | Visible before is visible after plus removed, order kept, hidden entries untouched, nothing unloadable left, and cleaning again changes nothing |
| Mods.BrokenAsEntries | src/modules/mods.c:157-180 | What goes and what stays, said of the entries and the paths they load from |
| Mods.AfterClean | src/modules/mods.c:105-187 | A cleaned directory: nothing left to clean, all that is visible loads, and it is what loaded before, in order |
| Mods.CleanThenLoad | src/modules/mods.c:105-187 | In a directory that opens, with memory and frames enough and removals that succeed: the first clean returns exactly the names that do not load and only they go, a second returns none and changes nothing, and installed_mods then succeeds with one module per remaining visible name, in order; the three results own all that is new on the heap |

## Left out

- src/shell, src/utils/logger.h, src/main.c, src/prom.c, src/prom-module.c, src/prom-shell.c: terminal, polling, argument and printing code around libraries that are not part of this model.
- `tracee_init`, `tracer_init`: one-shot set-up; the attached tracee is the initial state.
- `add_module`, `unload_module`, `free_installed_mods`, `free_ul_mod_names`, `ereallloc`, `mod_names`: single calls, or copies of a loop that is modelled.
- `wordexp`, `getcwd`, `opendir`, `readdir`, `dlopen`, `dlsym`, `remove`, `ptrace`, `waitpid` are parameters. A successful wordexp has a first word and getcwd succeeds. A directory does not change while it is read, and there is one. What loading a path gives is fixed, and a loaded module's `init` does nothing the model sees. Module handles are not counted as live.
- Dga.Heap.New: the byte size of the array is required to fit in a size_t; past that the C code writes outside a block that is too small, which is not modelled.
- Dga.Heap.Resize: the same for the new byte size.
- Dga.Heap.Grow: the same; the new length itself wraps as in C.
- Dga.Heap.Shrink: the same; the new length itself wraps as in C.
- DgaHistory.HistoryRefinesSequences: covers operations that found memory; what those that did not leave behind is stated by `New`, `Resize`, `Grow`, `Shrink` and `Dup`.
- Filesystem.DirContent: only emalloc may run out of memory; array and string allocations succeed. After a failed grow the header already has the longer length, and the memfail path frees what it finds past the block.
- Filesystem.AddName: the growing and the new string succeed, for the same reason.
- Mods.GetModPath: its malloc succeeds; null would be handed to dlopen and remove, which are not part of this model.
- Mods.LoadModule: what loading a path gives is a parameter; the handle and the module's `init` are not modelled.
- Mods.InstalledMods: array allocations succeed; the fail path after a failed grow is not modelled.
- Filesystem.Expand: the address of a block is required to fit in eight bytes, as it does, and so for its callers.
- Mods.CleanUlModNames: array and string allocations succeed; the memfail path is as in `DirContent`. Which entry a path names is a parameter.
- Clients hold blocks by content; the byte sizes they ask for are not modelled (the C code asks for at least the string and its NUL), and the array of names is the plain sequence `DgaHistory` justifies.
- `defer` and `static_defer` are called only with a frame current; in C, with none, they write before the first frame.
- DeferStack.Frame.StaticDefer: the size is that of a sequence of bytes, so `pool.used + s` does not wrap.
- DeferRefinement.WrappedMeets: requires the calls *inside* the tree to leak nothing; the frame of the call itself may leak. The machine and the array classes cover runs with any leaks.
- DeferMachine call trees are straight-line: a branch on `Errored` or on data appears as the path taken. `Filesystem` and `Mods` have the branches.
- The two loops of run_defers are two methods called in turn.
- ReadString.ReadString: sizes are unbounded numbers; below the allocator's limit of half the address space the doubling does not wrap.
- Signals, threads and scheduling beyond the order of stops.
