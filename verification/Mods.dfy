/**
 src/modules/mods.c: loading the modules of a directory, and removing those that
 do not load.
 */
module Mods {
  import opened Effects
  import opened Wrappers
  import opened DeferTrees
  import opened World
  import opened Process
  import opened Filesystem
  import M = DeferMachine
  import DgaBlocks

  /** get_mod_path; it clears the error code. */
  method GetModPath(t: Process, modulesPath: string, name: string) returns (p: int)
    requires t.Valid() && Sane(t.world)
    modifies t`world, t.stack`err, t.stack`trace
    ensures t.Valid() && p == old(t.world.next) && t.stack.err == 0
    ensures t.world == WithBlock(old(t.world), p, Chars(modulesPath + name))
  {
    hide Process.Valid;
    t.SetError(0);
    p := t.world.next;
    t.Do(Alloc(Chars("")), Ptr(p));
    t.Do(Write(Chars(modulesPath + name)), Ptr(p));
  }

  /** load_module; None is a dlerror message. */
  method LoadModule(t: Process, name: string, modulesPath: string) returns (mod: Option<Module>)
    requires t.Valid() && Sane(t.world)
    modifies t`world, t.stack`err, t.stack`trace
    ensures t.Valid() && Sane(t.world) && t.world == old(t.world).(next := old(t.world.next) + 1)
    ensures mod == t.loadable(modulesPath + name)
    ensures t.stack.err == if mod.None? then 7 else 0
  {
    hide Process.Valid;
    t.SetError(0);
    ghost var h := t.world.heap;
    var path := GetModPath(t, modulesPath, name);
    mod := t.loadable(t.world.heap[path].s);
    t.Do(FreeAt, Ptr(path));
    assert h[path := Chars(modulesPath + name)] - {path} == h;
    if mod.None? {
      t.SetError(DYN_SHARED_OBJ_ERROR);
    }
  }

  /** remove. */
  method RemoveFile(t: Process, path: string) returns (ret: int)
    requires t.Valid()
    modifies t`entries
    ensures t.Valid() && t.entries == Filter(old(t.entries), n => !(t.fileAt(path) == Some(n) && n !in t.stuck))
    ensures ret == if exists n | n in old(t.entries) :: t.fileAt(path) == Some(n) && n !in t.stuck then 0 else -1
  {
    var file, stuck := t.fileAt(path), t.stuck;
    var rest := Filter(t.entries, n => !(file == Some(n) && n !in stuck));
    ret := if |rest| == |t.entries| then -1 else 0;
    FilterExt(t.entries, n => !(t.fileAt(path) == Some(n) && n !in t.stuck), n => !(file == Some(n) && n !in stuck));
    FilterKeepsAll(t.entries, n => !(file == Some(n) && n !in stuck));
    t.entries := rest;
  }

  /** A filter that drops something is shorter. */
  lemma {:induction false} FilterKeepsAll(names: seq<string>, keep: string -> bool)
    ensures |Filter(names, keep)| == |names| <==> forall n | n in names :: keep(n)
  {
    if names != [] {
      var k := |names| - 1;
      FilterShorter(names[..k], keep);
      FilterKeepsAll(names[..k], keep);
      assert names == names[..k] + [names[k]];
    }
  }

  /** rm_module; it clears the error code. */
  method RmModule(t: Process, name: string, modulesPath: string) returns (ret: int)
    requires t.Valid() && Sane(t.world)
    modifies t`world, t`entries, t.stack`err, t.stack`trace
    ensures t.Valid() && Sane(t.world) && t.world == old(t.world).(next := old(t.world.next) + 1)
    ensures t.stack.err == 0
    ensures t.entries == Filter(old(t.entries), n => !(t.fileAt(modulesPath + name) == Some(n) && n !in t.stuck))
    ensures ret ==
      if exists n | n in old(t.entries) :: t.fileAt(modulesPath + name) == Some(n) && n !in t.stuck then 0 else -1
  {
    hide Process.Valid, Filter;
    ghost var h := t.world.heap;
    var path := GetModPath(t, modulesPath, name);
    ret := RemoveFile(t, t.world.heap[path].s);
    ret := if ret == -1 then -1 else 0;
    t.Do(FreeAt, Ptr(path));
    assert h[path := Chars(modulesPath + name)] - {path} == h;
  }

  // ---- installed_mods ----

  /** The modules of the names, all of which load. */
  predicate AllLoad(t: Process, modulesPath: string, names: seq<string>) {
    forall i | 0 <= i < |names| :: t.loadable(modulesPath + names[i]).Some?
  }

  predicate AreModules(t: Process, modulesPath: string, names: seq<string>, ms: seq<Module>) {
    |ms| == |names| && forall i | 0 <= i < |names| :: t.loadable(modulesPath + names[i]) == Some(ms[i])
  }

  /** `base` with the array of modules at `p`. */
  predicate WithMods(base: map<int, Content>, heap: map<int, Content>, p: int, ms: seq<Module>) {
    p > 0 && p !in base && heap == base[p := Mods(ms)]
  }

  /** `dga_grow` by one, and the new slot filled. */
  method GrowMods(t: Process, mods: int, ghost base: map<int, Content>, ghost ms: seq<Module>) returns (grown: int)
    requires t.Valid() && Sane(t.world) && WithMods(base, t.world.heap, mods, ms)
    modifies t`world, t.stack`trace
    ensures t.Valid() && Sane(t.world) && t.world.dirs == old(t.world.dirs)
    ensures WithMods(base, t.world.heap, grown, ms + [Module("", "")])
  {
    hide Process.Valid;
    ghost var w := t.world;
    grown := t.world.next;
    t.Do(Alloc(Content.Mods(t.world.heap[mods].ms + [Module("", "")])), Ptr(grown));
    t.Do(FreeAt, Ptr(mods));
    assert forall q | q in base :: q in w.heap;
    assert w.heap[grown := Content.Mods(ms + [Module("", "")])] - {mods} == base[grown := Content.Mods(ms + [Module("", "")])];
  }

  method StoreMod(t: Process, mods: int, m: Module, ghost base: map<int, Content>, ghost ms: seq<Module>)
    requires t.Valid() && Sane(t.world) && WithMods(base, t.world.heap, mods, ms + [Module("", "")])
    modifies t`world, t.stack`trace
    ensures t.Valid() && Sane(t.world) && t.world.dirs == old(t.world.dirs)
    ensures WithMods(base, t.world.heap, mods, ms + [m])
  {
    hide Process.Valid;
    var a := t.world.heap[mods].ms;
    t.Do(Write(Content.Mods(a[|a| - 1 := m])), Ptr(mods));
    assert a[|a| - 1 := m] == ms + [m];
  }

  method NewMods(t: Process) returns (p: int)
    requires t.Valid() && Sane(t.world)
    modifies t`world, t.stack`trace
    ensures t.Valid() && Sane(t.world) && t.world.dirs == old(t.world.dirs)
    ensures WithMods(old(t.world.heap), t.world.heap, p, [])
  {
    hide Process.Valid;
    p := t.world.next;
    t.Do(Alloc(Content.Mods([])), Ptr(p));
  }

  /** The one dynamic handler of the frame frees the names: what was made on top of
      them stays. */
  lemma NamesFreed(
    h0: map<int, Content>, base: map<int, Content>, names: int, ps: seq<int>, ns: seq<string>,
    w: World, mods: int, ms: seq<Module>, l: seq<Entry>)
    requires Owns(h0, base, names, ps, ns) && l == [Dynamic(Emit(FreeNames, Nil), names)]
    requires if mods == 0 then w.heap == base else WithMods(base, w.heap, mods, ms)
    ensures AllSimple(l)
    ensures Unwound(w, l) == w.(heap := if mods == 0 then h0 else h0[mods := Content.Mods(ms)])
    ensures mods != 0 ==> mods !in h0
  {
    assert l[..0] == [];
    assert forall q | q in h0 :: q in base;
    var h := if mods == 0 then h0 else h0[mods := Content.Mods(ms)];
    assert forall i | 0 <= i < |ps| :: ps[i] in Elements(ps) && ps[i] in base;
    assert Owns(h, w.heap, names, ps, ns);
    FreeNamesRestores(w.(heap := h), w, names, ps, ns);
  }

  lemma SaneWithout(w: World, h: map<int, Content>)
    requires Sane(w) && h.Keys <= w.heap.Keys
    ensures Sane(w.(heap := h))
  {
  }

  /** installed_mods: one module per visible entry, in order, if every one of them
      loads; else null, the reason in the error code, and nothing left live.  The
      process is lost only for want of frames, or on an errno that has no code. */
  method InstalledMods(t: Process, modulesPath: string) returns (ok: bool, mods: int, len: nat)
    requires t.Valid() && Sane(t.world) && t.world.next < DgaBlocks.WORDS
    modifies t`world, t.stack, t.stack.Repr
    ensures
      var g := DirOpened(t, modulesPath, old(t.world));
      ok <==> old(t.stack.curr) < STACK_SIZE - FramesToExpand(t, modulesPath) - 3 && (g.p != 0 || g.err != 0)
    ensures ok ==>
      && t.Valid() && t.stack.curr == old(t.stack.curr) && t.stack.views == old(t.stack.views)
      && Sane(t.world) && t.world.dirs == old(t.world.dirs)
      && (mods == 0 <==> t.stack.err != 0)
      && (mods == 0 ==> t.world.heap == old(t.world.heap))
    ensures ok && mods != 0 ==>
      && mods in t.world.heap && t.world.heap[mods].Mods? && len == |t.world.heap[mods].ms|
      && WithMods(old(t.world.heap), t.world.heap, mods, t.world.heap[mods].ms)
      && AreModules(t, modulesPath, Filter(t.entries, Visible), t.world.heap[mods].ms)
    ensures ok ==>
      (mods != 0 <==> DirOpened(t, modulesPath, old(t.world)).p != 0
                      && AllLoad(t, modulesPath, Filter(t.entries, Visible)))
    ensures ok && mods != 0 ==>
      var shown, ms := Filter(t.entries, n => !("." <= n)), t.world.heap[mods].ms;
      len == |shown| == |ms| && forall i | 0 <= i < len :: t.loadable(modulesPath + shown[i]) == Some(ms[i])
    ensures ok && DirOpened(t, modulesPath, old(t.world)).p != 0 ==>
      && (mods != 0 <==> forall n | n in t.entries && !("." <= n) :: t.loadable(modulesPath + n).Some?)
      && t.stack.err == if mods != 0 then 0 else 7
  {
    hide Process.Valid, DirOpened, Owns, Filter, Apply, Unwound, AllSimple, WithMods, AreModules, AllLoad;
    mods, len := 0, 0;
    ok := t.Begin();
    if !ok {
      return;
    }
    FrameBack(t.stack.views, t.stack.curr, M.EMPTY);
    ghost var w0, h0 := t.world, t.world.heap;
    DirOpenedSameWorld(t, modulesPath, w0);
    var names, count;
    ok, names, count := DirContent(t, modulesPath);
    if !ok {
      return;
    }
    if t.stack.err != 0 {
      ok := EndPlain(t);
      return;
    }
    ghost var ps, vis := t.world.heap[names].ps, Filter(t.entries, Visible);
    ok := t.Defer(FreeNames, names);
    FrameBack(old(t.stack.views), t.stack.curr, t.stack.views[t.stack.curr]);
    assert ok && t.Top() == M.Frame([], [Dynamic(Emit(FreeNames, Nil), names)], 0);
    ghost var base, curr, views, dirs := t.world.heap, t.stack.curr, t.stack.views, t.world.dirs;
    ghost var ms: seq<Module> := [];
    mods := NewMods(t);
    var i := 0;
    NoneYet(t, modulesPath, vis);
    OwnsLength(h0, base, names, ps, vis);
    while i < count
      invariant i <= count == |vis|
      invariant t.Valid() && Sane(t.world) && t.world.dirs == dirs
      invariant t.stack.curr == curr && t.stack.views == views && t.stack.err == 0
      invariant WithMods(base, t.world.heap, mods, ms)
      invariant AreModules(t, modulesPath, vis[..i], ms)
    {
      ModsPresent(base, t.world.heap, mods, ms);
      OwnsName(h0, base, names, ps, vis, i);
      ModKept(base, t.world.heap, mods, ms, names);
      ModKept(base, t.world.heap, mods, ms, ps[i]);
      assert t.world.heap[names] == Ptrs(ps) && t.world.heap[ps[i]] == Chars(vis[i]);
      var modName := t.world.heap[t.world.heap[names].ps[i]].s;
      mods := GrowMods(t, mods, base, ms);
      var currMod := LoadModule(t, modName, modulesPath);
      if t.stack.err != 0 {
        mods := FreeMods(t, mods, base, ms + [Module("", "")]);
        len := 0;
        NamesFreed(h0, base, names, ps, vis, t.world, 0, [], t.Top().dyn);
        OwnsBelow(h0, base, names, ps, vis);
        SaneWithout(t.world, h0);
        OneFails(t, modulesPath, vis, i);
        AllLoadAsEntries(t, modulesPath, t.entries);
        ok := EndDynamic(t);
        return;
      }
      StoreMod(t, mods, currMod.value, base, ms);
      ModsStep(t, modulesPath, vis, i, ms, currMod.value);
      ms := ms + [currMod.value];
      i := i + 1;
    }
    ModsPresent(base, t.world.heap, mods, ms);
    len := |t.world.heap[mods].ms|;
    assert vis[..i] == vis;
    AllLoaded(t, modulesPath, vis, ms);
    NamesFreed(h0, base, names, ps, vis, t.world, mods, ms, t.Top().dyn);
    OwnsBelow(h0, base, names, ps, vis);
    ModsWithin(h0, base, t.world.heap, mods, ms);
    SaneWithout(t.world, h0[mods := Content.Mods(ms)]);
    ModsOn(h0, mods, ms);
    AllLoadAsEntries(t, modulesPath, t.entries);
    ModulesOfShown(t, modulesPath, t.entries, ms);
    ok := EndDynamic(t);
  }

  /** All listed modules load: said of the entries. */
  lemma AllLoadAsEntries(t: Process, modulesPath: string, entries: seq<string>)
    ensures AllLoad(t, modulesPath, Filter(entries, Visible)) <==>
      forall n | n in entries && !("." <= n) :: t.loadable(modulesPath + n).Some?
  {
    var vis := Filter(entries, Visible);
    forall n ensures n in vis <==> n in entries && !("." <= n) {
      FilterMember(entries, Visible, n);
    }
    if AllLoad(t, modulesPath, vis) {
      forall n | n in entries && !("." <= n) ensures t.loadable(modulesPath + n).Some? {
        var i :| 0 <= i < |vis| && vis[i] == n;
      }
    } else {
      var i :| 0 <= i < |vis| && t.loadable(modulesPath + vis[i]).None?;
      assert vis[i] in vis;
    }
  }

  lemma ModulesOfShown(t: Process, modulesPath: string, entries: seq<string>, ms: seq<Module>)
    requires AreModules(t, modulesPath, Filter(entries, Visible), ms)
    ensures var shown := Filter(entries, n => !("." <= n));
      |shown| == |ms| && forall i | 0 <= i < |ms| :: t.loadable(modulesPath + shown[i]) == Some(ms[i])
  {
    FilterExt(entries, Visible, n => !("." <= n));
  }

  lemma DirOpenedSameWorld(t: Process, path: string, w: World)
    requires Sane(w)
    ensures DirOpened(t, path, w).p == 0 || DirOpened(t, path, w).err == 0
  {
    DirOpenedFacts(t, path, w);
  }

  /** The strings of the names are where the array says. */
  lemma OwnsName(h0: map<int, Content>, h: map<int, Content>, p: int, ps: seq<int>, ns: seq<string>, i: nat)
    requires Owns(h0, h, p, ps, ns) && i < |ns|
    ensures |ps| == |ns| && p in h && h[p] == Ptrs(ps)
    ensures ps[i] in h && h[ps[i]] == Chars(ns[i])
  {
    assert ps[i] in Elements(ps);
  }

  lemma OwnsLength(h0: map<int, Content>, h: map<int, Content>, p: int, ps: seq<int>, ns: seq<string>)
    requires Owns(h0, h, p, ps, ns)
    ensures |ps| == |ns|
  {
  }

  lemma ModsStep(t: Process, modulesPath: string, names: seq<string>, i: nat, ms: seq<Module>, m: Module)
    requires i < |names| && AreModules(t, modulesPath, names[..i], ms) && t.loadable(modulesPath + names[i]) == Some(m)
    ensures AreModules(t, modulesPath, names[..i + 1], ms + [m])
  {
  }

  lemma OwnsBelow(h0: map<int, Content>, h: map<int, Content>, p: int, ps: seq<int>, ns: seq<string>)
    requires Owns(h0, h, p, ps, ns)
    ensures h0.Keys <= h.Keys
  {
  }

  lemma AllLoaded(t: Process, modulesPath: string, names: seq<string>, ms: seq<Module>)
    requires AreModules(t, modulesPath, names, ms)
    ensures AllLoad(t, modulesPath, names) && |ms| == |names|
  {
  }

  lemma NoneYet(t: Process, modulesPath: string, names: seq<string>)
    ensures AreModules(t, modulesPath, names[..0], [])
  {
  }

  lemma OneFails(t: Process, modulesPath: string, names: seq<string>, i: nat)
    requires i < |names| && t.loadable(modulesPath + names[i]).None?
    ensures !AllLoad(t, modulesPath, names)
  {
  }

  lemma ModsPresent(base: map<int, Content>, heap: map<int, Content>, mods: int, ms: seq<Module>)
    requires WithMods(base, heap, mods, ms)
    ensures mods in heap && heap[mods] == Content.Mods(ms) && mods != 0
  {
  }

  lemma ModsWithin(h0: map<int, Content>, base: map<int, Content>, heap: map<int, Content>, mods: int, ms: seq<Module>)
    requires WithMods(base, heap, mods, ms) && h0.Keys <= base.Keys
    ensures h0[mods := Content.Mods(ms)].Keys <= heap.Keys
  {
  }

  lemma ModKept(base: map<int, Content>, heap: map<int, Content>, mods: int, ms: seq<Module>, q: int)
    requires WithMods(base, heap, mods, ms) && q in base
    ensures q in heap && heap[q] == base[q]
  {
  }

  lemma ModsOn(h0: map<int, Content>, mods: int, ms: seq<Module>)
    requires mods > 0 && mods !in h0
    ensures WithMods(h0, h0[mods := Content.Mods(ms)], mods, ms)
  {
  }

  /** `dga_free` of the modules, on the way out. */
  method FreeMods(t: Process, mods: int, ghost base: map<int, Content>, ghost ms: seq<Module>) returns (p: int)
    requires t.Valid() && Sane(t.world) && WithMods(base, t.world.heap, mods, ms)
    modifies t`world, t.stack`trace
    ensures p == 0 && t.Valid() && t.world == old(t.world).(heap := base) && Sane(t.world)
  {
    hide Process.Valid;
    t.Do(FreeAt, Ptr(mods));
    assert base[mods := Content.Mods(ms)] - {mods} == base;
    p := 0;
  }

  // ---- clean_ul_mod_names ----

  predicate Broken(t: Process, modulesPath: string, name: string) {
    t.loadable(modulesPath + name).None?
  }

  /** The names that do not load, in order. */
  function BrokenOf(t: Process, modulesPath: string, names: seq<string>): seq<string> {
    Filter(names, n => Broken(t, modulesPath, n))
  }

  /** What stays in the directory: hidden entries, modules that load, and entries
      that cannot be removed. */
  function Cleaned(t: Process, modulesPath: string, entries: seq<string>): seq<string> {
    Filter(entries, n => !(Visible(n) && Broken(t, modulesPath, n) && n !in t.stuck))
  }

  /** The body of the loop for a name that does not load: a copy of the name, one
      slot more for it, and the entry removed. */
  method AddUlName(t: Process, ul: int, name: string, ghost h0: map<int, Content>, ghost ns: seq<string>)
    returns (grown: int)
    requires t.Valid() && Sane(t.world)
    requires ul in t.world.heap && t.world.heap[ul].Ptrs?
    requires Owns(h0, t.world.heap, ul, t.world.heap[ul].ps, ns)
    modifies t`world, t.stack`trace
    ensures t.Valid() && Sane(t.world) && t.world.dirs == old(t.world.dirs) && t.world.next == old(t.world.next) + 2
    ensures grown in t.world.heap && t.world.heap[grown].Ptrs? && |t.world.heap[grown].ps| == |ns| + 1
    ensures Owns(h0, t.world.heap, grown, t.world.heap[grown].ps, ns + [name])
  {
    hide Process.Valid;
    ghost var w, ps := t.world, t.world.heap[ul].ps;
    var copy := t.world.next;
    t.Do(Alloc(Chars("")), Ptr(copy));
    t.Do(Write(Chars(name)), Ptr(copy));
    assert copy != ul;
    grown := GrowNames(t, ul);
    var a := t.world.heap[grown].ps;
    t.Do(Write(Ptrs(a[|a| - 1 := copy])), Ptr(grown));
    AddedUlName(h0, w, ul, ps, ns, name, t.world);
  }

  lemma AddedUlName(h0: map<int, Content>, w: World, ul: int, ps: seq<int>, ns: seq<string>, name: string, w': World)
    requires Sane(w) && Owns(h0, w.heap, ul, ps, ns)
    requires
      var copy, grown := w.next, w.next + 1;
      w' == w.(heap := (w.heap[copy := Chars("")][copy := Chars(name)][grown := Ptrs(ps + [0])] - {ul})
                 [grown := Ptrs((ps + [0])[|ps| := copy])], next := w.next + 2)
    ensures Sane(w')
    ensures Owns(h0, w'.heap, w.next + 1, ps + [w.next], ns + [name])
  {
    assert ul in w.heap;
    hide Owns;
    var copy, grown := w.next, w.next + 1;
    assert (ps + [0])[|ps| := copy] == ps + [copy];
    assert w'.heap == (w.heap - {ul})[grown := Ptrs(ps + [copy])][copy := Chars(name)];
    OwnsMore(h0, w.heap, w'.heap, ul, ps, ns, grown, copy, name);
  }

  /** One of the names does not load, and its path is that of entry `n`. */
  predicate Gone(t: Process, modulesPath: string, seen: seq<string>, n: string) {
    n !in t.stuck && exists i | 0 <= i < |seen| :: Broken(t, modulesPath, seen[i]) && t.fileAt(modulesPath + seen[i]) == Some(n)
  }

  /** The entries once the broken ones among `seen` have been seen to. */
  function WithoutBroken(t: Process, modulesPath: string, entries: seq<string>, seen: seq<string>): seq<string> {
    Filter(entries, n => !Gone(t, modulesPath, seen, n))
  }

  /** `modulesPath` ends in '/' and leads to the directory: with a name put after it,
      it is the path of the entry of that name. */
  predicate Spells(t: Process, modulesPath: string, entries: seq<string>) {
    forall n | n in entries :: t.fileAt(modulesPath + n) == Some(n)
  }

  /** The entries after one more broken name has been seen to. */
  lemma {:induction false} OneMoreGone(t: Process, modulesPath: string, entries: seq<string>, vis: seq<string>, i: nat)
    requires i < |vis| && Broken(t, modulesPath, vis[i])
    ensures Filter(WithoutBroken(t, modulesPath, entries, vis[..i]),
                   n => !(t.fileAt(modulesPath + vis[i]) == Some(n) && n !in t.stuck))
         == WithoutBroken(t, modulesPath, entries, vis[..i + 1])
  {
    GoneStep(t, modulesPath, vis, i);
    FilterTwice(entries,
                n => !Gone(t, modulesPath, vis[..i], n),
                n => !(t.fileAt(modulesPath + vis[i]) == Some(n) && n !in t.stuck),
                n => !Gone(t, modulesPath, vis[..i + 1], n));
  }

  lemma GoneStep(t: Process, modulesPath: string, vis: seq<string>, i: nat)
    requires i < |vis|
    ensures forall n :: Gone(t, modulesPath, vis[..i + 1], n) <==>
      || Gone(t, modulesPath, vis[..i], n)
      || (n !in t.stuck && Broken(t, modulesPath, vis[i]) && t.fileAt(modulesPath + vis[i]) == Some(n))
  {
    var a, b := vis[..i], vis[..i + 1];
    assert b[..i] == a && b[i] == vis[i];
    forall n ensures Gone(t, modulesPath, b, n) <==>
      Gone(t, modulesPath, a, n)
      || (n !in t.stuck && Broken(t, modulesPath, vis[i]) && t.fileAt(modulesPath + vis[i]) == Some(n)) {
      if Gone(t, modulesPath, a, n) {
        var j :| 0 <= j < |a| && Broken(t, modulesPath, a[j]) && t.fileAt(modulesPath + a[j]) == Some(n);
        assert b[j] == a[j];
      }
    }
  }

  lemma {:induction false} NoMoreGone(t: Process, modulesPath: string, entries: seq<string>, vis: seq<string>, i: nat)
    requires i < |vis| && !Broken(t, modulesPath, vis[i])
    ensures WithoutBroken(t, modulesPath, entries, vis[..i]) == WithoutBroken(t, modulesPath, entries, vis[..i + 1])
  {
    GoneStep(t, modulesPath, vis, i);
    FilterExt(entries, n => !Gone(t, modulesPath, vis[..i], n), n => !Gone(t, modulesPath, vis[..i + 1], n));
  }

  lemma {:induction false} NoneGone(t: Process, modulesPath: string, entries: seq<string>)
    ensures WithoutBroken(t, modulesPath, entries, []) == entries
  {
    FilterAll(entries, n => !Gone(t, modulesPath, [], n));
  }

  /** With a modules path that spells the entries, exactly the broken ones go. */
  lemma {:induction false} AllGone(t: Process, modulesPath: string, entries: seq<string>)
    requires Spells(t, modulesPath, entries)
    ensures WithoutBroken(t, modulesPath, entries, Filter(entries, Visible)) == Cleaned(t, modulesPath, entries)
  {
    var vis := Filter(entries, Visible);
    forall n | n in entries
      ensures Gone(t, modulesPath, vis, n) <==> Visible(n) && Broken(t, modulesPath, n) && n !in t.stuck
    {
      OnlyItself(t, modulesPath, entries, n);
    }
    FilterExt(entries, n => !Gone(t, modulesPath, vis, n),
              n => !(Visible(n) && Broken(t, modulesPath, n) && n !in t.stuck));
  }

  lemma {:induction false} OnlyItself(t: Process, modulesPath: string, entries: seq<string>, n: string)
    requires Spells(t, modulesPath, entries) && n in entries
    ensures Gone(t, modulesPath, Filter(entries, Visible), n) <==>
      Visible(n) && Broken(t, modulesPath, n) && n !in t.stuck
  {
    var vis := Filter(entries, Visible);
    FilterMember(entries, Visible, n);
    if Gone(t, modulesPath, vis, n) {
      var i :| 0 <= i < |vis| && Broken(t, modulesPath, vis[i]) && t.fileAt(modulesPath + vis[i]) == Some(n);
      FilterMember(entries, Visible, vis[i]);
      assert vis[i] in vis;
    }
  }

  /** Two arrays of names, one made on top of the other: either can go first. */
  lemma OwnsSwap(
    h0: map<int, Content>, base: map<int, Content>, h: map<int, Content>,
    p: int, ps: seq<int>, ns: seq<string>, q: int, qs: seq<int>, ms: seq<string>)
    requires Owns(h0, base, p, ps, ns) && Owns(base, h, q, qs, ms)
    ensures var rest := h - Elements(ps) - {p};
      Owns(rest, h, p, ps, ns) && Owns(h0, rest, q, qs, ms)
  {
    var rest := h - Elements(ps) - {p};
    assert forall i | 0 <= i < |ps| :: ps[i] in Elements(ps) && ps[i] in base;
    assert forall i | 0 <= i < |qs| :: qs[i] in Elements(qs) && qs[i] !in base;
    assert p in base;
    assert forall x | x in Elements(qs) :: x !in base;
    assert q !in Elements(ps);
    assert forall x | x in h0 :: x in base && x !in Elements(ps) && x != p;
    assert rest.Keys == h0.Keys + {q} + Elements(qs);
    assert h.Keys == rest.Keys + {p} + Elements(ps);
  }

  /** How many addresses the allocator may hand out while cleaning `n` entries. */
  function AddressesToClean(n: nat): nat {
    5 + 6 * n
  }

  /** clean_ul_mod_names: the visible names that do not load, in order, each in a new
      string, and the entries at their paths gone.  A load that fails sets the error code, and
      the removal after it clears it again. */
  method CleanUlModNames(t: Process, modulesPath: string) returns (ok: bool, ul: int, len: nat)
    requires t.Valid() && Sane(t.world) && t.world.next < DgaBlocks.WORDS
    modifies t`world, t`entries, t.stack, t.stack.Repr
    ensures
      var g := DirOpened(t, modulesPath, old(t.world));
      ok <==> old(t.stack.curr) < STACK_SIZE - FramesToExpand(t, modulesPath) - 2 && (g.p != 0 || g.err != 0)
    ensures ok ==>
      && t.Valid() && t.stack.curr == old(t.stack.curr) && t.stack.views == old(t.stack.views)
      && Sane(t.world) && t.world.dirs == old(t.world.dirs)
      && (ul == 0 <==> t.stack.err != 0)
      && (ul == 0 ==> t.world.heap == old(t.world.heap) && t.entries == old(t.entries))
      && (ul != 0 <==> DirOpened(t, modulesPath, old(t.world)).p != 0)
    ensures ok && ul != 0 ==>
      && ul in t.world.heap && t.world.heap[ul].Ptrs? && len == |t.world.heap[ul].ps|
      && Owns(old(t.world.heap), t.world.heap, ul, t.world.heap[ul].ps,
              Filter(old(t.entries), n => !("." <= n) && t.loadable(modulesPath + n).None?))
      && t.entries == WithoutBroken(t, modulesPath, old(t.entries), Filter(old(t.entries), Visible))
      && ((forall n | n in old(t.entries) :: t.fileAt(modulesPath + n) == Some(n)) ==>
        t.entries == Filter(old(t.entries), n => "." <= n || t.loadable(modulesPath + n).Some? || n in t.stuck))
      && t.world.next <= old(t.world.next) + AddressesToClean(|old(t.entries)|)
  {
    hide Process.Valid, DirOpened, Owns, Filter, Apply, Unwound, AllSimple, Visible, Gone, Spells, Cleaned;
    ul, len := 0, 0;
    t.SetError(0);
    ghost var h0, w0, entries := t.world.heap, t.world, t.entries;
    DirOpenedSameWorld(t, modulesPath, w0);
    var names, count;
    ok, names, count := DirContent(t, modulesPath);
    if !ok {
      return;
    }
    if t.stack.err != 0 {
      return;
    }
    ghost var ps, vis := t.world.heap[names].ps, Filter(t.entries, Visible);
    ghost var base, curr, views, dirs := t.world.heap, t.stack.curr, t.stack.views, t.world.dirs;
    ul := NewArray(t);
    ghost var next := t.world.next;
    var i := 0;
    OwnsLength(h0, base, names, ps, vis);
    FilterShorter(entries, Visible);
    NoneGone(t, modulesPath, entries);
    NoneBroken(t, modulesPath, vis);
    while i < count
      invariant i <= count == |vis|
      invariant t.Valid() && Sane(t.world) && t.world.dirs == dirs
      invariant t.stack.curr == curr && t.stack.views == views && t.stack.err == 0
      invariant ul in t.world.heap && t.world.heap[ul].Ptrs?
      invariant Owns(base, t.world.heap, ul, t.world.heap[ul].ps, BrokenOf(t, modulesPath, vis[..i]))
      invariant t.entries == WithoutBroken(t, modulesPath, entries, vis[..i])
      invariant t.world.next <= next + 4 * i
    {
      OwnsName(h0, base, names, ps, vis, i);
      OwnsKeeps(base, t.world.heap, ul, t.world.heap[ul].ps, BrokenOf(t, modulesPath, vis[..i]), names);
      OwnsKeeps(base, t.world.heap, ul, t.world.heap[ul].ps, BrokenOf(t, modulesPath, vis[..i]), ps[i]);
      var name := t.world.heap[t.world.heap[names].ps[i]].s;
      BrokenStep(t, modulesPath, vis, i);
      var mod := LoadModule(t, name, modulesPath);
      if mod.Some? {
        NoMoreGone(t, modulesPath, entries, vis, i);
        i := i + 1;
        continue;
      }
      OneMoreGone(t, modulesPath, entries, vis, i);
      ul := AddUlName(t, ul, name, base, BrokenOf(t, modulesPath, vis[..i]));
      var _ := RmModule(t, name, modulesPath);
      i := i + 1;
    }
    assert vis[..i] == vis;
    ghost var us := BrokenOf(t, modulesPath, vis);
    ghost var rest := t.world.heap - Elements(ps) - {names};
    OwnsSwap(h0, base, t.world.heap, names, ps, vis, ul, t.world.heap[ul].ps, us);
    OwnsBothArrays(rest, t.world.heap, names, ps, vis, h0, ul, t.world.heap[ul].ps, us);
    FreeDirContent(t, names, rest, vis);
    len := |t.world.heap[ul].ps|;
    BrokenAsEntries(t, modulesPath, entries);
    if forall n | n in entries :: t.fileAt(modulesPath + n) == Some(n) {
      SpelledOut(t, modulesPath, entries);
      AllGone(t, modulesPath, entries);
    }
  }

  lemma SpelledOut(t: Process, modulesPath: string, entries: seq<string>)
    requires forall n | n in entries :: t.fileAt(modulesPath + n) == Some(n)
    ensures Spells(t, modulesPath, entries)
  {
  }

  /** What goes and what stays, said of the entries. */
  lemma BrokenAsEntries(t: Process, modulesPath: string, entries: seq<string>)
    ensures BrokenOf(t, modulesPath, Filter(entries, Visible))
         == Filter(entries, n => !("." <= n) && t.loadable(modulesPath + n).None?)
    ensures Cleaned(t, modulesPath, entries)
         == Filter(entries, n => "." <= n || t.loadable(modulesPath + n).Some? || n in t.stuck)
  {
    FilterTwice(entries, Visible, n => Broken(t, modulesPath, n), n => !("." <= n) && t.loadable(modulesPath + n).None?);
    FilterExt(entries, n => !(Visible(n) && Broken(t, modulesPath, n) && n !in t.stuck),
              n => "." <= n || t.loadable(modulesPath + n).Some? || n in t.stuck);
  }

  lemma NoneBroken(t: Process, modulesPath: string, names: seq<string>)
    ensures BrokenOf(t, modulesPath, names[..0]) == [] == Filter([], Visible)
  {
  }

  lemma BrokenStep(t: Process, modulesPath: string, names: seq<string>, i: nat)
    requires i < |names|
    ensures BrokenOf(t, modulesPath, names[..i + 1]) ==
      if Broken(t, modulesPath, names[i]) then BrokenOf(t, modulesPath, names[..i]) + [names[i]]
      else BrokenOf(t, modulesPath, names[..i])
  {
    FilterStep(names, n => Broken(t, modulesPath, n), i);
  }

  lemma OwnsKeeps(h0: map<int, Content>, h: map<int, Content>, p: int, ps: seq<int>, ns: seq<string>, q: int)
    requires Owns(h0, h, p, ps, ns) && q in h0
    ensures q in h && h[q] == h0[q] && q != p
  {
  }

  lemma OwnsBothArrays(
    rest: map<int, Content>, h: map<int, Content>, p: int, ps: seq<int>, ns: seq<string>,
    h0: map<int, Content>, q: int, qs: seq<int>, ms: seq<string>)
    requires Owns(rest, h, p, ps, ns) && Owns(h0, rest, q, qs, ms)
    ensures p in h && h[p] == Ptrs(ps) && q in rest && rest[q] == h[q]
  {
  }

  // ---- Clean, then load ----

  /** Cleaning, as seen in the directory: what goes and what stays share out the
      visible entries, hidden ones are not touched, and nothing broken is left. */
  lemma {:induction false} CleaningSharesOut(t: Process, modulesPath: string, entries: seq<string>)
    requires forall n | n in entries && Visible(n) && Broken(t, modulesPath, n) :: n !in t.stuck
    ensures
      var vis, after := Filter(entries, Visible), Cleaned(t, modulesPath, entries);
      && Filter(after, Visible) == Filter(vis, n => !Broken(t, modulesPath, n))
      && Filter(after, Visible) == Filter(entries, n => Visible(n) && !Broken(t, modulesPath, n))
      && multiset(vis) == multiset(Filter(after, Visible)) + multiset(BrokenOf(t, modulesPath, vis))
      && Filter(after, n => !Visible(n)) == Filter(entries, n => !Visible(n))
      && BrokenOf(t, modulesPath, Filter(after, Visible)) == []
      && Cleaned(t, modulesPath, after) == after
      && AllLoad(t, modulesPath, Filter(after, Visible))
  {
    var vis, after := Filter(entries, Visible), Cleaned(t, modulesPath, entries);
    var stays := n => !(Visible(n) && Broken(t, modulesPath, n) && n !in t.stuck);
    var good := n => Visible(n) && !Broken(t, modulesPath, n);
    FilterTwice(entries, stays, Visible, good);
    FilterTwice(entries, Visible, n => !Broken(t, modulesPath, n), good);
    FilterParts(vis, n => !Broken(t, modulesPath, n), n => Broken(t, modulesPath, n));
    FilterTwice(entries, stays, n => !Visible(n), n => !Visible(n));
    FilterTwice(entries, stays, stays, stays);
    NothingBrokenLeft(t, modulesPath, entries);
  }

  lemma {:induction false} NothingBrokenLeft(t: Process, modulesPath: string, entries: seq<string>)
    requires forall n | n in entries && Visible(n) && Broken(t, modulesPath, n) :: n !in t.stuck
    ensures var left := Filter(Cleaned(t, modulesPath, entries), Visible);
      BrokenOf(t, modulesPath, left) == [] && AllLoad(t, modulesPath, left)
  {
    var after := Cleaned(t, modulesPath, entries);
    var left := Filter(after, Visible);
    forall n | n in left ensures !Broken(t, modulesPath, n) {
      FilterMember(after, Visible, n);
      FilterMember(entries, n => !(Visible(n) && Broken(t, modulesPath, n) && n !in t.stuck), n);
    }
    FilterNone(left, n => Broken(t, modulesPath, n));
    forall i | 0 <= i < |left| ensures t.loadable(modulesPath + left[i]).Some? {
      assert left[i] in left;
    }
  }

  lemma {:induction false} FilterNone(names: seq<string>, keep: string -> bool)
    requires forall n | n in names :: !keep(n)
    ensures Filter(names, keep) == []
  {
    if names != [] {
      FilterNone(names[..|names| - 1], keep);
    }
  }

  lemma {:induction false} FilterParts(names: seq<string>, p: string -> bool, q: string -> bool)
    requires forall n | n in names :: p(n) <==> !q(n)
    ensures multiset(names) == multiset(Filter(names, p)) + multiset(Filter(names, q))
  {
    if names != [] {
      var k := |names| - 1;
      var last, a, b := names[k], Filter(names[..k], p), Filter(names[..k], q);
      FilterParts(names[..k], p, q);
      assert names == names[..k] + [last];
      assert last in names;
      assert Filter(names, p) == (if p(last) then a + [last] else a);
      assert Filter(names, q) == (if q(last) then b + [last] else b);
      hide Filter;
      assert multiset(names) == multiset(a) + multiset(b) + multiset{last};
    }
  }

  /** Opening the modules path gives the directory. */
  predicate Opens(t: Process, modulesPath: string) {
    t.wordexp(modulesPath).Some? && t.openErrno(t.wordexp(modulesPath).value) == 0
  }

  lemma OpensHere(t: Process, modulesPath: string, w: World)
    requires Sane(w) && Opens(t, modulesPath) && forall a :: !t.exhausted(a)
    ensures DirOpened(t, modulesPath, w).p != 0 && FramesToExpand(t, modulesPath) == 2
  {
    ExpandedIsSane(t, modulesPath, w);
    DirOpenedFacts(t, modulesPath, w);
  }

  /** Three calls in a row, in a directory that opens and whose broken entries can be
      removed, with memory and frames enough: the first clean names exactly the
      broken entries and only they go; the second names nothing and changes nothing;
      and installed_mods then succeeds, with one module per name that is left, in
      order.  What the three results own is all that is new on the heap. */
  method CleanThenLoad(t: Process, modulesPath: string) returns (first: int, second: int, mods: int)
    requires t.Valid() && Sane(t.world) && t.world.next + 2 * AddressesToClean(|t.entries|) < DgaBlocks.WORDS
    requires t.stack.curr < STACK_SIZE - 5 && forall a :: !t.exhausted(a)
    requires Opens(t, modulesPath) && forall n | n in t.entries :: t.fileAt(modulesPath + n) == Some(n)
    requires forall n | n in t.entries && !("." <= n) && t.loadable(modulesPath + n).None? :: n !in t.stuck
    modifies t`world, t`entries, t.stack, t.stack.Repr
    ensures t.Valid() && t.stack.curr == old(t.stack.curr) && t.stack.views == old(t.stack.views)
    ensures Sane(t.world) && t.world.dirs == old(t.world.dirs) && t.stack.err == 0
    ensures t.entries == Filter(old(t.entries), n => "." <= n || t.loadable(modulesPath + n).Some? || n in t.stuck)
    ensures
      var h0, h := old(t.world.heap), t.world.heap;
      && first in h && h[first].Ptrs?
      && Owns(h0, h - {second, mods}, first, h[first].ps,
              Filter(old(t.entries), n => !("." <= n) && t.loadable(modulesPath + n).None?))
      && second in h && second !in h0 && h[second] == Ptrs([])
      && mods in h && mods !in h0 && mods != second && h[mods].Mods?
      && var kept, ms := Filter(old(t.entries), n => !("." <= n) && t.loadable(modulesPath + n).Some?), h[mods].ms;
         |ms| == |kept| && forall i | 0 <= i < |kept| :: t.loadable(modulesPath + kept[i]) == Some(ms[i])
  {
    hide Process.Valid, Filter, Visible, WithoutBroken, AllLoad, AreModules, Owns, DirOpened, WithMods, Sane, Opens;
    ghost var entries, h0 := t.entries, t.world.heap;
    OpensHere(t, modulesPath, t.world);
    AfterClean(t, modulesPath, entries);
    var ok, len;
    ok, first, len := CleanUlModNames(t, modulesPath);
    ghost var h1 := t.world.heap;
    OpensHere(t, modulesPath, t.world);
    ok, second, len := CleanUlModNames(t, modulesPath);
    ghost var h2 := t.world.heap;
    OwnsNothing(h1, h2, second, h2[second].ps);
    OpensHere(t, modulesPath, t.world);
    ok, mods, len := InstalledMods(t, modulesPath);
    OnTop(h0, h1, h2, t.world.heap, first,
          Filter(entries, n => !("." <= n) && t.loadable(modulesPath + n).None?), second, mods, t.world.heap[mods].ms);
  }

  /** The directory once cleaned: nothing left to clean, all that is visible loads, and
      it is what loaded before, in order. */
  lemma {:induction false} AfterClean(t: Process, modulesPath: string, entries: seq<string>)
    requires forall n | n in entries && !("." <= n) && t.loadable(modulesPath + n).None? :: n !in t.stuck
    ensures
      var after := Filter(entries, n => "." <= n || t.loadable(modulesPath + n).Some? || n in t.stuck);
      && |after| <= |entries| && (forall n | n in after :: n in entries)
      && (forall n | n in after && !("." <= n) :: t.loadable(modulesPath + n).Some?)
      && Filter(after, n => !("." <= n) && t.loadable(modulesPath + n).None?) == []
      && Filter(after, n => "." <= n || t.loadable(modulesPath + n).Some? || n in t.stuck) == after
      && Filter(after, n => !("." <= n)) == Filter(entries, n => !("." <= n) && t.loadable(modulesPath + n).Some?)
  {
    var stays := n => "." <= n || t.loadable(modulesPath + n).Some? || n in t.stuck;
    var after := Filter(entries, stays);
    FilterShorter(entries, stays);
    forall n ensures n in after <==> n in entries && stays(n) {
      FilterMember(entries, stays, n);
    }
    FilterNone(after, n => !("." <= n) && t.loadable(modulesPath + n).None?);
    FilterAll(after, stays);
    FilterTwice(entries, stays, n => !("." <= n), n => !("." <= n) && t.loadable(modulesPath + n).Some?);
  }

  /** An array of no names is one block. */
  lemma OwnsNothing(h1: map<int, Content>, h2: map<int, Content>, p: int, ps: seq<int>)
    requires Owns(h1, h2, p, ps, [])
    ensures p !in h1 && h2 == h1[p := Ptrs([])]
  {
    assert ps == [] && Elements(ps) == {};
    var h := h1[p := Ptrs([])];
    assert h2.Keys == h1.Keys + {p} == h.Keys;
    assert h2[p] == h[p];
    assert forall q | q in h1 :: h2[q] == h[q];
  }

  /** An array of names with two blocks made on top of it. */
  lemma OnTop(
    h0: map<int, Content>, h1: map<int, Content>, h2: map<int, Content>, h: map<int, Content>,
    p: int, ns: seq<string>, q: int, mods: int, ms: seq<Module>)
    requires p in h1 && h1[p].Ptrs? && Owns(h0, h1, p, h1[p].ps, ns)
    requires q !in h1 && h2 == h1[q := Ptrs([])] && WithMods(h2, h, mods, ms)
    ensures p in h && h[p] == h1[p] && Owns(h0, h - {q, mods}, p, h1[p].ps, ns)
    ensures q in h && q !in h0 && h[q] == Ptrs([]) && mods in h && mods !in h0 && mods != q
  {
    assert h - {q, mods} == h1;
    assert forall x | x in h0 :: x in h1;
  }
}
