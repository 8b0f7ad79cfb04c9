/**
 src/filesystem/filesystem.c.  A null pointer is 0; `ok` is false where the
 process does not come back: an abort of the defer stack, or a crash.
 */
module Filesystem {
  import opened Effects
  import opened Wrappers
  import opened DeferTrees
  import opened World
  import opened Process
  import M = DeferMachine
  import DgaBlocks

  const NO_PERMISSIONS := 1
  const NOT_ENOUGH_MEMORY := 2
  const NOT_THE_EXPECTED := 3
  const DOES_NOT_EXIST := 4
  const LIMIT_EXCEEDED := 5
  const PARSING_ERROR := 6
  const DYN_SHARED_OBJ_ERROR := 7

  const ENOENT := 2
  const ENOMEM := 12
  const EACCES := 13
  const ENOTDIR := 20
  const ENFILE := 23
  const EMFILE := 24

  /** The code errm_error_from_errno sets, if it sets one. */
  function ErrnoCode(errno: int): Option<int> {
    if errno == EACCES then Some(NO_PERMISSIONS)
    else if errno == ENFILE then Some(LIMIT_EXCEEDED)
    else if errno == ENOENT then Some(DOES_NOT_EXIST)
    else if errno == ENOTDIR then Some(NOT_THE_EXPECTED)
    else if errno == ENOMEM then Some(NOT_ENOUGH_MEMORY)
    else None
  }

  /** A new block on top of a sane world. */
  function WithBlock(w: World, p: int, c: Content): World {
    w.(heap := w.heap[p := c], next := p + 1)
  }

  /** The closing of a wrapper whose frame holds no handler. */
  method EndPlain(t: Process) returns (ok: bool)
    requires t.Valid() && 0 <= t.stack.curr && t.Top() == M.EMPTY
    modifies t`world, t.stack, t.stack.Repr
    ensures ok && t.Valid() && t.stack.curr == old(t.stack.curr) - 1 && t.stack.err == old(t.stack.err)
    ensures t.stack.views == old(t.stack.views)[old(t.stack.curr) := M.EMPTY] && t.world == old(t.world)
  {
    hide Process.Valid, Replay;
    ok := t.End();
  }

  /** The closing of a wrapper whose frame holds dynamic handlers only. */
  method EndDynamic(t: Process) returns (ok: bool)
    requires t.Valid() && 0 <= t.stack.curr && t.Top().stat == [] && AllSimple(t.Top().dyn)
    modifies t`world, t.stack, t.stack.Repr
    ensures ok && t.Valid() && t.stack.curr == old(t.stack.curr) - 1 && t.stack.err == old(t.stack.err)
    ensures t.stack.views == old(t.stack.views)[old(t.stack.curr) := M.EMPTY]
    ensures t.world == Unwound(old(t.world), old(t.Top()).dyn)
  {
    hide Process.Valid, Replay;
    ok := t.End();
  }

  /** The closing of a wrapper whose frame holds static handlers only. */
  method EndStatic(t: Process) returns (ok: bool)
    requires t.Valid() && 0 <= t.stack.curr && t.Top().dyn == [] && AllSimple(t.Top().stat)
    modifies t`world, t.stack, t.stack.Repr
    ensures ok && t.Valid() && t.stack.curr == old(t.stack.curr) - 1 && t.stack.err == old(t.stack.err)
    ensures t.stack.views == old(t.stack.views)[old(t.stack.curr) := M.EMPTY]
    ensures t.world == Unwound(old(t.world), old(t.Top()).stat)
  {
    hide Process.Valid, Replay;
    ok := t.End();
  }

  /** emalloc. */
  method EMalloc(t: Process) returns (ok: bool, p: int)
    requires t.Valid() && Sane(t.world)
    modifies t`world, t.stack, t.stack.Repr
    ensures ok <==> old(t.stack.curr) < STACK_SIZE - 1
    ensures ok ==> t.Valid() && t.stack.curr == old(t.stack.curr) && t.stack.views == old(t.stack.views)
    ensures ok && t.exhausted(old(t.world.next)) ==>
      p == 0 && t.world == old(t.world) && t.stack.err == NOT_ENOUGH_MEMORY
    ensures ok && !t.exhausted(old(t.world.next)) ==>
      p == old(t.world.next) && t.world == WithBlock(old(t.world), p, Chars("")) && t.stack.err == 0
  {
    hide Process.Valid, Replay;
    p := 0;
    ok := t.Begin();
    if !ok {
      return;
    }
    FrameBack(t.stack.views, t.stack.curr, M.EMPTY);
    if t.exhausted(t.world.next) {
      t.SetError(NOT_ENOUGH_MEMORY);
    } else {
      p := t.world.next;
      t.Do(Alloc(Chars("")), Ptr(p));
    }
    ok := EndPlain(t);
  }

  /** What a call hands back: its pointer, the error code, the resources. */
  datatype Got = Got(p: int, err: int, w: World)

  /** The caller's frames are as they were and the call came to `g`. */
  ghost predicate Returned(t: Process, g: Got, p: int, curr: int, views: seq<M.Frame>)
    reads t, t.stack, t.stack.Repr
  {
    && t.Valid() && t.stack.curr == curr && t.stack.views == views
    && t.world == g.w && t.stack.err == g.err && p == g.p
  }

  /** expand: a copy of the first word, or no copy and the reason. */
  function Expanded(t: Process, path: string, w: World): Got {
    match t.wordexp(path)
    case None => Got(0, PARSING_ERROR, w)
    case Some(word) =>
      if t.exhausted(w.next + 1) then Got(0, NOT_ENOUGH_MEMORY, w.(next := w.next + 1))
      else Got(w.next + 1, 0, WithBlock(w, w.next + 1, Chars(word)))
  }

  /** After the body of expand the one static handler frees the words: the world is
      `w` again but for the copy, if there is one. */
  lemma WordsFreed(w: World, word: string, copy: bool, w1: World, l: seq<Entry>)
    requires Sane(w) && w.next < DgaBlocks.WORDS
    requires l == [Static(Emit(WordFree, Nil), WordexpBytes(1, w.next))]
    requires
      var a := WithBlock(w, w.next, Words(word));
      w1 == if copy then WithBlock(a, w.next + 1, Chars(word)) else a
    ensures AllSimple(l)
    ensures Unwound(w1, l) ==
      if copy then WithBlock(w, w.next + 1, Chars(word)).(next := w.next + 2) else w.(next := w.next + 1)
  {
    hide WordexpBytes, WordvOf;
    WordexpBytesHold(1, w.next);
    assert l[..0] == [];
    assert w.next !in w.heap;
    var h := w.heap[w.next := Words(word)];
    assert h - {w.next} == w.heap;
    assert h[w.next + 1 := Chars(word)] - {w.next} == w.heap[w.next + 1 := Chars(word)];
  }

  /** The frames expand needs: its own, and one for emalloc if it gets that far. */
  function FramesToExpand(t: Process, path: string): nat {
    if t.wordexp(path).None? then 1 else 2
  }

  /** expand.  The words are freed by the static defer, which finds them by the
      bytes of the wordexp_t kept in the pool. */
  method Expand(t: Process, path: string) returns (ok: bool, p: int)
    requires t.Valid() && Sane(t.world) && t.world.next < DgaBlocks.WORDS
    modifies t`world, t.stack, t.stack.Repr
    ensures ok <==> old(t.stack.curr) < STACK_SIZE - FramesToExpand(t, path)
    ensures ok ==>
      Returned(t, Expanded(t, path, old(t.world)), p, old(t.stack.curr), old(t.stack.views))
  {
    hide Process.Valid, Unwound, AllSimple, WordexpBytes, WordvOf;
    p := 0;
    ok := t.Begin();
    if !ok {
      return;
    }
    FrameBack(t.stack.views, t.stack.curr, M.EMPTY);
    match t.wordexp(path)
    case None =>
      t.SetError(PARSING_ERROR);
      ok := EndPlain(t);
    case Some(word) =>
      ghost var w := t.world;
      var wordv := t.world.next;
      t.Do(Alloc(Words(word)), Ptr(wordv));
      ok := t.StaticDefer(WordFree, WordexpBytes(1, wordv));
      FrameBack(old(t.stack.views), t.stack.curr, t.stack.views[t.stack.curr]);
      assert ok && t.Top() == M.Frame([Static(Emit(WordFree, Nil), WordexpBytes(1, wordv))], [], 24);
      hide M.Add, M.CanAdd;
      ok, p := EMalloc(t);
      if !ok {
        return;
      }
      if t.stack.err == 0 {
        t.Do(Write(Chars(word)), Ptr(p));
      }
      WordsFreed(w, word, p != 0, t.world, t.Top().stat);
      ok := EndStatic(t);
  }

  function Without(w: World, p: int): World {
    w.(heap := w.heap - {p})
  }

  /** A temporary block at `w.next` freed by the one dynamic handler of the frame. */
  lemma TempFreed(w: World, temp: Content, c: Content, copy: bool, w1: World, l: seq<Entry>)
    requires Sane(w) && l == [Dynamic(Emit(FreeAt, Nil), w.next)]
    requires
      var a := WithBlock(w, w.next, temp);
      w1 == if copy then WithBlock(a, w.next + 1, c) else a
    ensures AllSimple(l)
    ensures Unwound(w1, l) ==
      if copy then WithBlock(w, w.next + 1, c) else w.(next := w.next + 1)
  {
    assert l[..0] == [];
    assert w.next !in w.heap;
    var h := w.heap[w.next := temp];
    assert h - {w.next} == w.heap;
    assert h[w.next + 1 := c] - {w.next} == w.heap[w.next + 1 := c];
  }

  /** abs_path_from_relative: the path joined to the current directory. */
  function Joined(t: Process, relative: string, w: World): Got {
    if t.exhausted(w.next + 1) then Got(0, NOT_ENOUGH_MEMORY, w.(next := w.next + 1))
    else Got(w.next + 1, 0, WithBlock(w, w.next + 1, Chars(t.cwd + "/" + relative)))
  }

  method AbsPathFromRelative(t: Process, relative: string) returns (ok: bool, p: int)
    requires t.Valid() && Sane(t.world)
    modifies t`world, t.stack, t.stack.Repr
    ensures ok <==> old(t.stack.curr) < STACK_SIZE - 2
    ensures ok ==>
      Returned(t, Joined(t, relative, old(t.world)), p, old(t.stack.curr), old(t.stack.views))
    ensures ok && p != 0 ==>
      p !in old(t.world.heap) && t.world.heap == old(t.world.heap)[p := Chars(t.cwd + "/" + relative)]
    ensures ok && p == 0 ==> t.stack.err == 2 && t.world.heap == old(t.world.heap)
  {
    hide Process.Valid, Unwound, AllSimple;
    p := 0;
    ok := t.Begin();
    if !ok {
      return;
    }
    FrameBack(t.stack.views, t.stack.curr, M.EMPTY);
    ghost var w := t.world;
    var cwd := t.world.next;
    t.Do(Alloc(Chars(t.cwd)), Ptr(cwd));
    ok := t.Defer(FreeAt, cwd);
    FrameBack(old(t.stack.views), t.stack.curr, t.stack.views[t.stack.curr]);
    assert ok && t.Top() == M.Frame([], [Dynamic(Emit(FreeAt, Nil), cwd)], 0);
    hide M.Add;
    ok, p := EMalloc(t);
    if !ok {
      return;
    }
    if t.stack.err == 0 {
      t.Do(Write(Chars(t.cwd + "/" + relative)), Ptr(p));
    }
    TempFreed(w, Chars(t.cwd), Chars(t.cwd + "/" + relative), p != 0, t.world, t.Top().dyn);
    ok := EndDynamic(t);
  }

  /** The one dynamic handler of the frame frees `p`. */
  lemma OneFree(w: World, p: int, l: seq<Entry>)
    requires p in w.heap && l == [Dynamic(Emit(FreeAt, Nil), p)]
    ensures AllSimple(l) && Unwound(w, l) == Without(w, p)
  {
    assert l[..0] == [];
  }

  /** What expand comes to, codes as numbers: a copy of the word in a new block, or null
      and PARSING_ERROR (6) or NOT_ENOUGH_MEMORY (2). */
  lemma ExpandedIsSane(t: Process, path: string, w: World)
    requires Sane(w)
    ensures var g := Expanded(t, path, w);
      && Sane(g.w) && w.next <= g.w.next <= w.next + 2
      && g.err == (if t.wordexp(path).None? then 6 else if t.exhausted(w.next + 1) then 2 else 0)
      && (g.p == 0 <==> g.err != 0)
      && (g.p == 0 ==> g.w.heap == w.heap)
      && (g.p != 0 ==>
         && g.p !in w.heap && w.next <= g.p < g.w.next
         && g.w.heap == w.heap[g.p := Chars(t.wordexp(path).value)])
      && g.w.dirs == w.dirs
  {
  }

  function AbsPathOf(t: Process, path: string, w: World): Got {
    var g := Expanded(t, path, w);
    if g.p == 0 || "/" <= t.wordexp(path).value then g
    else
      var j := Joined(t, t.wordexp(path).value, g.w);
      j.(w := Without(j.w, g.p))
  }

  /** abs_path.  A relative translation is freed once it has been joined. */
  method AbsPath(t: Process, path: string) returns (ok: bool, p: int)
    requires t.Valid() && Sane(t.world) && t.world.next < DgaBlocks.WORDS
    modifies t`world, t.stack, t.stack.Repr
    ensures ok <==> old(t.stack.curr) < STACK_SIZE - FramesToExpand(t, path) - 1
    ensures ok ==>
      Returned(t, AbsPathOf(t, path, old(t.world)), p, old(t.stack.curr), old(t.stack.views))
    ensures ok && p == 0 ==> t.stack.err != 0 && t.world.heap == old(t.world.heap)
    ensures ok && p != 0 ==>
      && t.stack.err == 0 && t.wordexp(path).Some? && p !in old(t.world.heap)
      && var word := t.wordexp(path).value;
         t.world.heap == old(t.world.heap)[p := Chars(if "/" <= word then word else t.cwd + "/" + word)]
    ensures ok && p != 0 && "/" <= t.cwd ==> p in t.world.heap && t.world.heap[p].Chars? && "/" <= t.world.heap[p].s
  {
    hide Process.Valid, Unwound, AllSimple, Expanded, Joined;
    AbsPathFacts(t, path, t.world);
    p := 0;
    ok := t.Begin();
    if !ok {
      return;
    }
    FrameBack(t.stack.views, t.stack.curr, M.EMPTY);
    ExpandedIsSane(t, path, t.world);
    ok, p := Expand(t, path);
    if !ok {
      return;
    }
    if t.stack.err != 0 {
      ok := EndPlain(t);
      return ok, 0;
    }
    var word := t.world.heap[p].s;
    if |word| == 0 || word[0] != '/' {
      ok := t.Defer(FreeAt, p);
      FrameBack(old(t.stack.views), t.stack.curr, t.stack.views[t.stack.curr]);
      assert ok && t.Top() == M.Frame([], [Dynamic(Emit(FreeAt, Nil), p)], 0);
      var translated := p;
      JoinedKeeps(t, word, t.world, translated);
      ok, p := AbsPathFromRelative(t, word);
      if !ok {
        return;
      }
      OneFree(t.world, translated, t.Top().dyn);
      ok := EndDynamic(t);
      return;
    }
    ok := EndPlain(t);
  }

  lemma JoinedKeeps(t: Process, relative: string, w: World, p: int)
    requires p in w.heap
    ensures p in Joined(t, relative, w).w.heap
  {
  }

  function DirOpened(t: Process, path: string, w: World): Got {
    var g := Expanded(t, path, w);
    if g.p == 0 then g
    else if t.openErrno(t.wordexp(path).value) == 0 then
      Got(g.w.next, 0, Without(g.w, g.p).(dirs := g.w.dirs + {g.w.next}, next := g.w.next + 1))
    else
      Got(0, ErrnoCode(t.openErrno(t.wordexp(path).value)).GetOr(0), Without(g.w, g.p))
  }

  /** open_dir: a handle, or the code errno maps to; errno values without a code
      leave a null handle and no error. */
  method OpenDir(t: Process, path: string) returns (ok: bool, dp: int)
    requires t.Valid() && Sane(t.world) && t.world.next < DgaBlocks.WORDS
    modifies t`world, t.stack, t.stack.Repr
    ensures ok <==> old(t.stack.curr) < STACK_SIZE - FramesToExpand(t, path) - 1
    ensures ok ==>
      Returned(t, DirOpened(t, path, old(t.world)), dp, old(t.stack.curr), old(t.stack.views))
  {
    hide Process.Valid, Unwound, AllSimple, Expanded;
    dp := 0;
    ok := t.Begin();
    if !ok {
      return;
    }
    FrameBack(t.stack.views, t.stack.curr, M.EMPTY);
    ExpandedIsSane(t, path, t.world);
    var p;
    ok, p := Expand(t, path);
    if !ok {
      return;
    }
    if t.stack.err != 0 {
      ok := EndPlain(t);
      return;
    }
    ok := t.Defer(FreeAt, p);
    FrameBack(old(t.stack.views), t.stack.curr, t.stack.views[t.stack.curr]);
    assert ok && t.Top() == M.Frame([], [Dynamic(Emit(FreeAt, Nil), p)], 0);
    var expanded := t.world.heap[p].s;
    var errno := t.openErrno(expanded);
    if errno == 0 {
      dp := t.world.next;
      t.Do(OpenAt, Ptr(dp));
    } else {
      var code := ErrnoCode(errno);
      if code.Some? {
        t.SetError(code.value);
      }
    }
    OneFree(t.world, p, t.Top().dyn);
    ok := EndDynamic(t);
  }

  /** What open_dir comes to, with the numbers of Linux for errno and of errm.h for the
      code. */
  lemma DirOpenedFacts(t: Process, path: string, w: World)
    requires Sane(w)
    ensures var g := DirOpened(t, path, w);
      && Sane(g.w) && w.next <= g.w.next <= w.next + 3 && g.w.heap == w.heap
      && (g.p == 0 ==> g.w.dirs == w.dirs)
      && (g.p != 0 ==> g.err == 0 && g.p !in w.dirs && g.w.dirs == w.dirs + {g.p})
      && (g.p != 0 <==> Expanded(t, path, w).p != 0 && t.openErrno(t.wordexp(path).value) == 0)
      && (t.wordexp(path).None? ==> g.err == 6)
      && (Expanded(t, path, w).p != 0 ==>
         var errno := t.openErrno(t.wordexp(path).value);
         g.err == if errno == 13 then 1 else if errno == 23 then 5 else if errno == 2 then 4
                  else if errno == 20 then 3 else if errno == 12 then 2 else 0)
  {
    ExpandedIsSane(t, path, w);
    var g := Expanded(t, path, w);
    if g.p != 0 {
      assert Without(g.w, g.p).heap == w.heap;
    }
  }

  // ---- The array of names ----

  /** `dga_grow` by one: the array moves to a new block with one slot more. */
  method GrowNames(t: Process, names: int) returns (grown: int)
    requires t.Valid() && Sane(t.world) && names in t.world.heap && t.world.heap[names].Ptrs?
    modifies t`world, t.stack`trace
    ensures t.Valid() && grown == old(t.world.next)
    ensures t.world == old(t.world).(
      heap := old(t.world.heap)[grown := Ptrs(old(t.world.heap)[names].ps + [0])] - {names}, next := grown + 1)
  {
    grown := t.world.next;
    t.Do(Alloc(Ptrs(t.world.heap[names].ps + [0])), Ptr(grown));
    t.Do(FreeAt, Ptr(names));
  }

  /** The body of the loop for a visible entry. */
  method AddName(t: Process, names: int, len: nat, fileName: string, ghost h0: map<int, Content>, ghost ns: seq<string>)
    returns (grown: int)
    requires t.Valid() && Sane(t.world)
    requires names in t.world.heap && t.world.heap[names].Ptrs? && len == |t.world.heap[names].ps|
    requires Owns(h0, t.world.heap, names, t.world.heap[names].ps, ns)
    modifies t`world, t.stack`trace
    ensures t.Valid() && Sane(t.world) && t.world.dirs == old(t.world.dirs) && t.world.next == old(t.world.next) + 2
    ensures grown in t.world.heap && t.world.heap[grown].Ptrs? && |t.world.heap[grown].ps| == len + 1
    ensures Owns(h0, t.world.heap, grown, t.world.heap[grown].ps, ns + [fileName])
  {
    hide Process.Valid;
    ghost var w, ps := t.world, t.world.heap[names].ps;
    grown := GrowNames(t, names);
    var name := t.world.next;
    t.Do(Alloc(Chars("")), Ptr(name));
    t.Do(Write(Chars(fileName)), Ptr(name));
    t.Do(Write(Ptrs(t.world.heap[grown].ps[len := name])), Ptr(grown));
    AddedName(h0, w, names, ps, ns, fileName, t.world);
  }

  lemma AddedName(h0: map<int, Content>, w: World, names: int, ps: seq<int>, ns: seq<string>, fileName: string, w': World)
    requires Sane(w) && Owns(h0, w.heap, names, ps, ns)
    requires
      var grown, name := w.next, w.next + 1;
      w' == w.(heap := (w.heap[grown := Ptrs(ps + [0])] - {names})[name := Chars("")][name := Chars(fileName)]
                 [grown := Ptrs((ps + [0])[|ps| := name])], next := w.next + 2)
    ensures Sane(w')
    ensures Owns(h0, w'.heap, w.next, ps + [w.next + 1], ns + [fileName])
  {
    hide Owns;
    var grown, name := w.next, w.next + 1;
    assert (ps + [0])[|ps| := name] == ps + [name];
    assert w'.heap == (w.heap - {names})[grown := Ptrs(ps + [name])][name := Chars(fileName)];
    OwnsMore(h0, w.heap, w'.heap, names, ps, ns, grown, name, fileName);
  }

  /** The array moved to a block with one slot more, for a new string. */
  lemma OwnsMore(
    h0: map<int, Content>, h: map<int, Content>, h': map<int, Content>,
    p: int, ps: seq<int>, ns: seq<string>, p': int, q: int, n: string)
    requires Owns(h0, h, p, ps, ns) && p' !in h && q !in h && p' != q
    requires h' == (h - {p})[p' := Ptrs(ps + [q])][q := Chars(n)]
    ensures Owns(h0, h', p', ps + [q], ns + [n])
  {
    assert forall i | 0 <= i < |ps| :: ps[i] in Elements(ps) && ps[i] in h;
    ElementsSnoc(ps, q);
    assert forall x | x in h0 :: x in h && x != p;
    assert h'.Keys == h0.Keys + {p'} + Elements(ps + [q]);
  }

  lemma FilterStep(names: seq<string>, keep: string -> bool, i: nat)
    requires i < |names|
    ensures keep(names[i]) ==> Filter(names[..i + 1], keep) == Filter(names[..i], keep) + [names[i]]
    ensures !keep(names[i]) ==> Filter(names[..i + 1], keep) == Filter(names[..i], keep)
  {
    assert names[..i + 1][..i] == names[..i];
  }

  lemma NewNames(h0: map<int, Content>, w: World)
    requires Sane(w) && h0 == w.heap
    ensures var w' := WithBlock(w, w.next, Ptrs([]));
      Sane(w') && Owns(h0, w'.heap, w.next, [], [])
  {
  }

  /** The one dynamic handler of the frame closes `d`. */
  lemma OneClose(w: World, d: int, l: seq<Entry>)
    requires d in w.dirs && l == [Dynamic(Emit(CloseAt, Nil), d)]
    ensures AllSimple(l) && Unwound(w, l) == w.(dirs := w.dirs - {d})
  {
    assert l[..0] == [];
  }

  /** What a caller of dir_content may count on. */
  ghost predicate Listed(t: Process, path: string, w0: World, names: int, len: nat, w: World, err: int) {
    && Sane(w) && w.dirs == w0.dirs && w.next <= w0.next + 4 + 2 * len
    && (names == 0 <==> err != 0)
    && (names == 0 ==> w.heap == w0.heap && DirOpened(t, path, w0).err == err)
    && (names != 0 ==>
       && DirOpened(t, path, w0).p != 0
       && names in w.heap && w.heap[names].Ptrs? && |w.heap[names].ps| == len)
  }

  /** dir_content: one new string per visible entry, in order, and the array of
      them; the directory handle is closed.  The process is lost only for want of
      frames, or on an errno that has no error code. */
  method DirContent(t: Process, path: string) returns (ok: bool, names: int, len: nat)
    requires t.Valid() && Sane(t.world) && t.world.next < DgaBlocks.WORDS
    modifies t`world, t.stack, t.stack.Repr
    ensures
      var g := DirOpened(t, path, old(t.world));
      ok <==> old(t.stack.curr) < STACK_SIZE - FramesToExpand(t, path) - 2 && (g.p != 0 || g.err != 0)
    ensures ok ==>
      && t.Valid() && t.stack.curr == old(t.stack.curr) && t.stack.views == old(t.stack.views)
      && Listed(t, path, old(t.world), names, len, t.world, t.stack.err)
    ensures ok && names != 0 ==>
      Owns(old(t.world.heap), t.world.heap, names, t.world.heap[names].ps, Filter(t.entries, Visible))
    ensures ok && names != 0 ==>
      var h, shown := t.world.heap, Filter(t.entries, n => !("." <= n));
      len == |shown| && forall i | 0 <= i < len :: h[names].ps[i] in h && h[h[names].ps[i]] == Chars(shown[i])
  {
    hide Process.Valid, Replay, DirOpened, Owns, Filter, Apply, Unwound, AllSimple;
    names, len := 0, 0;
    ok := t.Begin();
    if !ok {
      return;
    }
    FrameBack(t.stack.views, t.stack.curr, M.EMPTY);
    DirOpenedFacts(t, path, t.world);
    var dp;
    ok, dp := OpenDir(t, path);
    if !ok {
      return;
    }
    if t.stack.err != 0 {
      ok := EndPlain(t);
      return;
    }
    ok := t.Defer(CloseAt, dp);
    FrameBack(old(t.stack.views), t.stack.curr, t.stack.views[t.stack.curr]);
    assert ok && t.Top() == M.Frame([], [Dynamic(Emit(CloseAt, Nil), dp)], 0);
    if dp == 0 {
      return false, 0, 0;    // readdir of a null handle
    }
    ghost var h0, curr, views := t.world.heap, t.stack.curr, t.stack.views;
    names := NewArray(t);
    ghost var dirs, next := t.world.dirs, t.world.next;
    var i := 0;
    assert t.entries[..0] == [];
    while i < |t.entries|
      invariant i <= |t.entries|
      invariant t.Valid() && Sane(t.world) && t.world.dirs == dirs && t.world.next == next + 2 * len
      invariant t.stack.curr == curr && t.stack.views == views && t.stack.err == 0
      invariant names in t.world.heap && t.world.heap[names].Ptrs? && |t.world.heap[names].ps| == len
      invariant Owns(h0, t.world.heap, names, t.world.heap[names].ps, Filter(t.entries[..i], Visible))
    {
      var fileName := t.entries[i];
      FilterStep(t.entries, Visible, i);
      if !Visible(fileName) {
        i := i + 1;
        continue;
      }
      names := AddName(t, names, len, fileName, h0, Filter(t.entries[..i], Visible));
      len := len + 1;
      i := i + 1;
    }
    assert t.entries[..i] == t.entries;
    OneClose(t.world, dp, t.Top().dyn);
    ok := EndDynamic(t);
    OwnsStrings(h0, t.world.heap, names, t.world.heap[names].ps, Filter(t.entries, Visible));
    FilterExt(t.entries, Visible, n => !("." <= n));
  }

  method NewArray(t: Process) returns (p: int)
    requires t.Valid() && Sane(t.world)
    modifies t`world, t.stack`trace
    ensures t.Valid() && Sane(t.world) && t.world == WithBlock(old(t.world), old(t.world.next), Ptrs([]))
    ensures p == old(t.world.next) && Owns(old(t.world.heap), t.world.heap, p, [], Filter([], Visible))
  {
    NewNames(t.world.heap, t.world);
    p := t.world.next;
    t.Do(Alloc(Ptrs([])), Ptr(p));
  }

  // ---- Giving the names back ----

  /** free_dir_content: frees each string and then the array. */
  method FreeDirContent(t: Process, names: int, ghost h0: map<int, Content>, ghost ns: seq<string>)
    requires t.Valid() && Sane(t.world)
    requires names in t.world.heap && t.world.heap[names].Ptrs?
    requires Owns(h0, t.world.heap, names, t.world.heap[names].ps, ns)
    modifies t`world, t.stack`trace
    ensures t.Valid() && t.world == old(t.world).(heap := h0) && Sane(t.world)
  {
    hide Process.Valid;
    ghost var w := t.world;
    var ps := t.world.heap[names].ps;
    var i := 0;
    assert ps[..0] == [] && w.heap - Elements([]) == w.heap;
    while i < |ps|
      invariant i <= |ps| && t.Valid()
      invariant t.world == w.(heap := w.heap - Elements(ps[..i]))
    {
      assert ps[i] in Elements(ps);
      ElementsStep(ps, i);
      assert w.heap - Elements(ps[..i]) - {ps[i]} == w.heap - Elements(ps[..i + 1]);
      t.Do(FreeAt, Ptr(ps[i]));
      i := i + 1;
    }
    assert ps[..i] == ps;
    FreeNamesRestores(w.(heap := h0), w, names, ps, ns);
    t.Do(FreeAt, Ptr(names));
    SaneBefore(h0, w, names, ps, ns);
  }

  lemma ElementsStep(ps: seq<int>, i: nat)
    requires i < |ps| && Distinct(ps)
    ensures Elements(ps[..i + 1]) == Elements(ps[..i]) + {ps[i]} && ps[i] !in Elements(ps[..i])
  {
    var a, b := ps[..i], ps[..i + 1];
    forall q | q in Elements(b) ensures q in Elements(a) + {ps[i]} {
      var j :| 0 <= j < |b| && b[j] == q;
      assert j < i ==> a[j] == q;
    }
    forall q | q in Elements(a) ensures q in Elements(b) {
      var j :| 0 <= j < |a| && a[j] == q;
      assert b[j] == q;
    }
    assert b[i] == ps[i];
    assert forall j | 0 <= j < |a| :: a[j] == ps[j] != ps[i];
  }

  lemma SaneBefore(h0: map<int, Content>, w: World, p: int, ps: seq<int>, ns: seq<string>)
    requires Sane(w) && Owns(h0, w.heap, p, ps, ns)
    ensures Sane(w.(heap := h0))
  {
    forall q | q in h0 ensures q in w.heap {}
  }

  /** abs_path: null exactly on error, with nothing left live; else the one new
      block holds the word itself or the word joined to the current directory. */
  lemma AbsPathFacts(t: Process, path: string, w: World)
    requires Sane(w)
    ensures var g := AbsPathOf(t, path, w);
      && Sane(g.w) && g.w.dirs == w.dirs
      && (g.p == 0 <==> g.err != 0) && g.err in {0, 2, 6} && (g.err == 6 <==> t.wordexp(path).None?)
      && (g.p == 0 ==> g.w.heap == w.heap)
      && (g.p != 0 ==>
         && t.wordexp(path).Some? && g.p !in w.heap
         && var word := t.wordexp(path).value;
            g.w.heap == w.heap[g.p := Chars(if "/" <= word then word else t.cwd + "/" + word)])
  {
    ExpandedIsSane(t, path, w);
    var g := Expanded(t, path, w);
    if g.p != 0 && !("/" <= t.wordexp(path).value) {
      var word := t.wordexp(path).value;
      var j := Joined(t, word, g.w);
      var h := w.heap[g.p := Chars(word)];
      assert h - {g.p} == w.heap;
      assert j.p != 0 ==> h[j.p := Chars(t.cwd + "/" + word)] - {g.p} == w.heap[j.p := Chars(t.cwd + "/" + word)];
    }
  }

  /** open_dir hands back null and no error exactly when the directory cannot be
      opened for a reason that has no error code. */
  lemma NullWithoutErrorIff(t: Process, path: string, w: World)
    requires Sane(w)
    ensures var g := DirOpened(t, path, w);
      g.p == 0 && g.err == 0 <==>
        && Expanded(t, path, w).p != 0
        && t.openErrno(t.wordexp(path).value) !in {0, EACCES, ENFILE, ENOENT, ENOTDIR, ENOMEM}
  {
    ExpandedIsSane(t, path, w);
  }

  /** Such a reason: the process has no descriptor left (EMFILE).  dir_content is
      then lost on the null handle, however many frames it has. */
  lemma NoDescriptorLeft(t: Process, path: string, w: World)
    requires Sane(w) && Expanded(t, path, w).p != 0 && t.openErrno(t.wordexp(path).value) == EMFILE
    ensures var g := DirOpened(t, path, w);
      g.p == 0 && g.err == 0
  {
    NullWithoutErrorIff(t, path, w);
  }
}
