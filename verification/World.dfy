/**
 The resources of the process as the effects leave them.  `fault` records a free
 of what is not live, a close of what is not open, or a use of a null handle.
 */
module World {
  import opened Effects
  import opened DeferTrees
  import DgaBlocks

  datatype World = World(heap: map<int, Content>, next: int, dirs: set<int>, fault: bool)

  /** The pointer inside the bytes of a wordexp_t (we_wordc, we_wordv, we_offs). */
  function WordvOf(bytes: seq<Byte>): int {
    if |bytes| == 24 then DgaBlocks.Decode(bytes[8..16]) else 0
  }

  function WordexpBytes(count: nat, wordv: nat): (r: seq<Byte>)
    ensures |r| == 24
  {
    DgaBlocks.Encode(count, 8) + DgaBlocks.Encode(wordv, 8) + DgaBlocks.Encode(0, 8)
  }

  lemma {:induction false} WordexpBytesHold(count: nat, wordv: nat)
    requires wordv < DgaBlocks.WORDS
    ensures WordvOf(WordexpBytes(count, wordv)) == wordv
  {
    DgaBlocks.SizeTWidth();
    DgaBlocks.DecodeEncode(wordv, 8);
    assert WordexpBytes(count, wordv)[8..16] == DgaBlocks.Encode(wordv, 8);
  }

  function Freed(w: World, p: int): World {
    if p in w.heap then w.(heap := w.heap - {p}) else w.(fault := true)
  }

  function Elements(ps: seq<int>): set<int> {
    set i | 0 <= i < |ps| :: ps[i]
  }

  predicate Distinct(ps: seq<int>) {
    forall i, j | 0 <= i < j < |ps| :: ps[i] != ps[j]
  }

  function Apply(w: World, op: Op, arg: Arg): World {
    match op
    case User(_) => w
    case Alloc(c) =>
      if arg.Ptr? && arg.p >= w.next && arg.p > 0 then w.(heap := w.heap[arg.p := c], next := arg.p + 1)
      else w.(fault := true)
    case Write(c) =>
      if arg.Ptr? && arg.p in w.heap then w.(heap := w.heap[arg.p := c]) else w.(fault := true)
    case FreeAt =>
      if arg.Ptr? then Freed(w, arg.p) else w.(fault := true)
    case WordFree =>
      if arg.Bytes? then Freed(w, WordvOf(arg.bytes)) else w.(fault := true)
    case OpenAt =>
      if arg.Ptr? && arg.p >= w.next && arg.p > 0 then w.(dirs := w.dirs + {arg.p}, next := arg.p + 1)
      else w.(fault := true)
    case CloseAt =>
      if arg.Ptr? && arg.p in w.dirs then w.(dirs := w.dirs - {arg.p}) else w.(fault := true)
    case FreeNames =>
      if arg.Ptr? && arg.p in w.heap && w.heap[arg.p].Ptrs? then
        var ps := w.heap[arg.p].ps;
        if Distinct(ps) && arg.p !in ps && Elements(ps) <= w.heap.Keys
        then w.(heap := w.heap - Elements(ps) - {arg.p}) else w.(fault := true)
      else w.(fault := true)
  }

  /** A double free, a free or close of null or of a stranger is a fault, and nothing
      else a handler of the model does is. */
  lemma {:induction false} FaultsIff(w: World, p: int, names: seq<int>)
    ensures Apply(w, FreeAt, Ptr(p)).fault <==> w.fault || p !in w.heap
    ensures Apply(w, CloseAt, Ptr(p)).fault <==> w.fault || p !in w.dirs
    ensures p in w.heap && w.heap[p] == Ptrs(names) ==>
      (Apply(w, FreeNames, Ptr(p)).fault <==>
        w.fault || p in names || (exists i, j | 0 <= i < j < |names| :: names[i] == names[j])
        || exists i | 0 <= i < |names| :: names[i] !in w.heap)
  {
    assert forall i | 0 <= i < |names| :: names[i] in Elements(names);
  }

  /** Addresses ahead of the allocator are free, and null is no block. */
  predicate Sane(w: World) {
    && !w.fault && 0 < w.next
    && (forall p | p in w.heap :: 0 < p < w.next)
    && (forall d | d in w.dirs :: 0 < d < w.next)
  }

  function OnEvent(w: World, e: Event): World {
    match e
    case Did(op, arg) => Apply(w, op, arg)
    case _ => w
  }

  /** The world after the observations `t`. */
  function Replay(w: World, t: seq<Event>): World {
    if t == [] then w else OnEvent(Replay(w, t[..|t| - 1]), t[|t| - 1])
  }

  lemma {:induction false} ReplayConcat(w: World, t: seq<Event>, u: seq<Event>)
    ensures Replay(w, t + u) == Replay(Replay(w, t), u)
    decreases |u|
  {
    if u == [] {
      assert t + u == t;
    } else {
      assert (t + u)[..|t + u| - 1] == t + u[..|u| - 1];
      ReplayConcat(w, t, u[..|u| - 1]);
    }
  }

  /** A handler that performs one effect on its argument. */
  predicate Simple(e: Entry) {
    e.h.Emit? && e.h.next.Nil?
  }

  /** The handlers of a table, the last registered first. */
  function Unwound(w: World, l: seq<Entry>): World
    requires forall i | 0 <= i < |l| :: Simple(l[i])
    decreases |l|
  {
    if l == [] then w
    else
      var e := l[|l| - 1];
      assert Simple(e);
      Unwound(Apply(w, e.h.op, ArgOf(e)), l[..|l| - 1])
  }

  // ---- Directories as a caller of dir_content gets them ----

  predicate Visible(name: string) {
    !("." <= name)
  }

  function Filter(names: seq<string>, keep: string -> bool): seq<string> {
    if names == [] then []
    else Filter(names[..|names| - 1], keep) + (if keep(names[|names| - 1]) then [names[|names| - 1]] else [])
  }

  /** A filter goes entry by entry, in order. */
  lemma {:induction false} FilterConcat(a: seq<string>, b: seq<string>, keep: string -> bool)
    ensures Filter(a + b, keep) == Filter(a, keep) + Filter(b, keep)
    decreases |b|
  {
    if b == [] {
      assert a + b == a;
    } else {
      var k := |b| - 1;
      assert (a + b)[..|a + b| - 1] == a + b[..k] && (a + b)[|a + b| - 1] == b[k];
      FilterConcat(a, b[..k], keep);
    }
  }

  lemma {:induction false} FilterOne(n: string, keep: string -> bool)
    ensures Filter([n], keep) == if keep(n) then [n] else []
  {
    assert [n][..0] == [];
  }

  lemma {:induction false} FilterExt(names: seq<string>, p: string -> bool, q: string -> bool)
    requires forall n | n in names :: p(n) == q(n)
    ensures Filter(names, p) == Filter(names, q)
  {
    if names != [] {
      FilterExt(names[..|names| - 1], p, q);
    }
  }

  lemma {:induction false} FilterTwice(names: seq<string>, p: string -> bool, q: string -> bool, r: string -> bool)
    requires forall n | n in names :: r(n) <==> p(n) && q(n)
    ensures Filter(Filter(names, p), q) == Filter(names, r)
  {
    if names != [] {
      var k := |names| - 1;
      FilterTwice(names[..k], p, q, r);
      FilterSnoc(Filter(names[..k], p), names[k], q);
      assert names[k] in names;
      assert Filter(names, p) == Filter(names[..k], p) + (if p(names[k]) then [names[k]] else []);
      assert p(names[k]) || Filter(names, p) == Filter(names[..k], p);
    }
  }

  lemma FilterSnoc(names: seq<string>, n: string, keep: string -> bool)
    ensures Filter(names + [n], keep) == Filter(names, keep) + (if keep(n) then [n] else [])
  {
    var r := names + [n];
    assert r[..|r| - 1] == names && r[|r| - 1] == n;
  }

  lemma {:induction false} FilterMember(names: seq<string>, keep: string -> bool, n: string)
    ensures n in Filter(names, keep) <==> n in names && keep(n)
  {
    if names != [] {
      var k := |names| - 1;
      FilterMember(names[..k], keep, n);
      assert names == names[..k] + [names[k]];
    }
  }

  lemma {:induction false} FilterAll(names: seq<string>, keep: string -> bool)
    requires forall n | n in names :: keep(n)
    ensures Filter(names, keep) == names
  {
    if names != [] {
      FilterAll(names[..|names| - 1], keep);
    }
  }

  lemma {:induction false} FilterShorter(names: seq<string>, keep: string -> bool)
    ensures |Filter(names, keep)| <= |names|
  {
    if names != [] {
      FilterShorter(names[..|names| - 1], keep);
    }
  }

  /** `p` is a new dynamic array on top of `h0`, of new strings `names`. */
  ghost predicate Owns(h0: map<int, Content>, h: map<int, Content>, p: int, ps: seq<int>, names: seq<string>) {
    && |ps| == |names|
    && Distinct(ps) && p !in ps
    && p !in h0 && (forall i | 0 <= i < |ps| :: ps[i] !in h0)
    && h.Keys == h0.Keys + {p} + Elements(ps)
    && (forall q | q in h0 :: h[q] == h0[q])
    && h[p] == Ptrs(ps)
    && (forall i | 0 <= i < |ps| :: h[ps[i]] == Chars(names[i]))
  }

  /** The strings are where the array says. */
  lemma OwnsStrings(h0: map<int, Content>, h: map<int, Content>, p: int, ps: seq<int>, names: seq<string>)
    requires Owns(h0, h, p, ps, names)
    ensures |ps| == |names| && forall i | 0 <= i < |names| :: ps[i] in h && h[ps[i]] == Chars(names[i])
  {
    assert forall i | 0 <= i < |ps| :: ps[i] in Elements(ps);
  }

  /** free_dir_content gives back exactly what dir_content took. */
  lemma {:induction false} FreeNamesRestores(w0: World, w: World, p: int, ps: seq<int>, names: seq<string>)
    requires Owns(w0.heap, w.heap, p, ps, names)
    ensures Apply(w, FreeNames, Ptr(p)) == w.(heap := w0.heap)
  {
    var h := w.heap - Elements(ps) - {p};
    assert forall q | q in w0.heap :: q !in Elements(ps) && q != p;
    assert h.Keys == w0.heap.Keys;
    assert h == w0.heap;
  }

  lemma ElementsSnoc(ps: seq<int>, p: int)
    ensures Elements(ps + [p]) == Elements(ps) + {p}
  {
    var r := ps + [p];
    forall q | q in Elements(ps) ensures q in Elements(r) {
      var i :| 0 <= i < |ps| && ps[i] == q;
      assert r[i] == q;
    }
    assert r[|ps|] == p;
  }
}
