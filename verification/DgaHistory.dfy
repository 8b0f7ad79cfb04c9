/**
 Any history of dynamic-array operations against plain sequences.
 */
module DgaHistory {
  import opened Effects
  import opened Wrappers
  import opened DgaBlocks
  import Dga

  /** Operations that found memory, with the addresses and the old content the
      allocator gave.  Growing and shrinking are resizes to len + n and len - n. */
  datatype Op =
    | New(h: nat, n: nat, szt: nat, junk: seq<Byte>)
    | Resize(h: nat, m: nat, to: nat, junk: seq<Byte>)
    | Put(h: nat, i: nat, v: seq<Byte>)
    | Dup(h: nat, to: nat)
    | Free(h: nat)

  /** A plain sequence; elements nobody has written are undefined. */
  datatype Arr = Arr(szt: nat, elems: seq<Option<seq<Byte>>>)

  type Store = map<nat, Arr>
  type Blocks = map<nat, seq<Byte>>

  /** What C asks of the caller and of the allocator. */
  predicate Legal(s: Store, op: Op) {
    match op
    case New(h, n, szt, junk) => h !in s && n < WORDS && szt < WORDS && |junk| == HEADER + szt * n
    case Resize(h, m, to, junk) =>
      h in s && (to == h || to !in s) && m < WORDS && |junk| == HEADER + s[h].szt * m
    case Put(h, i, v) => h in s && i < |s[h].elems| && |v| == s[h].szt
    case Dup(h, to) => h in s && to !in s
    case Free(h) => h in s
  }

  function Resized(a: Arr, m: nat): Arr {
    if m <= |a.elems| then a.(elems := a.elems[..m])
    else a.(elems := a.elems + seq(m - |a.elems|, _ => None))
  }

  /** The operation on sequences. */
  function OnArrays(s: Store, op: Op): Store
    requires Legal(s, op)
  {
    match op
    case New(h, n, szt, _) => s[h := Arr(szt, seq(n, _ => None))]
    case Resize(h, m, to, _) => (s - {h})[to := Resized(s[h], m)]
    case Put(h, i, v) => s[h := s[h].(elems := s[h].elems[i := Some(v)])]
    case Dup(h, to) => s[to := s[h]]
    case Free(h) => s - {h}
  }

  /** The bytes are those of the sequence. */
  ghost predicate Represents(b: seq<Byte>, a: Arr) {
    && Good(b) && SztOf(b) == a.szt && LenOf(b) == |a.elems|
    && forall i | 0 <= i < |a.elems| && a.elems[i].Some? :: Elem(b, i) == a.elems[i].value
  }

  ghost predicate Refines(bs: Blocks, s: Store) {
    bs.Keys == s.Keys && forall h | h in s :: Represents(bs[h], s[h])
  }

  /** The operation on bytes, as the heap performs it. */
  function OnBlocks(bs: Blocks, s: Store, op: Op): Blocks
    requires Legal(s, op) && Refines(bs, s)
  {
    match op
    case New(h, n, szt, junk) => bs[h := NewBlock(n, szt, junk)]
    case Resize(h, m, to, junk) => (bs - {h})[to := Moved(WithLen(bs[h], m), junk)]
    case Put(h, i, v) => bs[h := WithElem(bs[h], i, v)]
    case Dup(h, to) => bs[to := bs[h]]
    case Free(h) => bs - {h}
  }

  lemma {:induction false} NewRefines(n: nat, szt: nat, junk: seq<Byte>)
    requires n < WORDS && szt < WORDS && |junk| == HEADER + szt * n
    ensures Represents(NewBlock(n, szt, junk), Arr(szt, seq(n, _ => None)))
  {
    NewBlockIs(n, szt, junk);
  }

  lemma {:induction false} ResizeRefines(b: seq<Byte>, a: Arr, m: nat, junk: seq<Byte>)
    requires Represents(b, a) && m < WORDS && |junk| == HEADER + a.szt * m
    ensures Represents(Moved(WithLen(b, m), junk), Resized(a, m))
  {
    ResizeKeeps(b, m, junk);
  }

  lemma {:induction false} PutRefines(b: seq<Byte>, a: Arr, i: nat, v: seq<Byte>)
    requires Represents(b, a) && i < |a.elems| && |v| == a.szt
    ensures Represents(WithElem(b, i, v), a.(elems := a.elems[i := Some(v)]))
  {
    WriteChangesOne(b, i, v);
  }

  lemma {:induction false} StepRefines(bs: Blocks, s: Store, op: Op)
    requires Legal(s, op) && Refines(bs, s)
    ensures Refines(OnBlocks(bs, s, op), OnArrays(s, op))
  {
    match op
    case New(h, n, szt, junk) => NewRefines(n, szt, junk);
    case Resize(h, m, to, junk) => ResizeRefines(bs[h], s[h], m, junk);
    case Put(h, i, v) => PutRefines(bs[h], s[h], i, v);
    case Dup(h, to) =>
    case Free(h) =>
  }

  predicate LegalHistory(s: Store, ops: seq<Op>)
    decreases |ops|
  {
    ops == [] || (Legal(s, ops[0]) && LegalHistory(OnArrays(s, ops[0]), ops[1..]))
  }

  function ArraysAfter(s: Store, ops: seq<Op>): Store
    requires LegalHistory(s, ops)
    decreases |ops|
  {
    if ops == [] then s else ArraysAfter(OnArrays(s, ops[0]), ops[1..])
  }

  function BlocksAfter(bs: Blocks, s: Store, ops: seq<Op>): Blocks
    requires LegalHistory(s, ops) && Refines(bs, s)
    decreases |ops|
  {
    if ops == [] then bs
    else
      StepRefines(bs, s, ops[0]);
      BlocksAfter(OnBlocks(bs, s, ops[0]), OnArrays(s, ops[0]), ops[1..])
  }

  /** After every history the blocks are the sequences: same live arrays, same
      lengths, same element sizes, and every written element as last written, a
      write to one array changing no other, a duplicate included. */
  lemma {:induction false} HistoryRefinesSequences(bs: Blocks, s: Store, ops: seq<Op>)
    requires LegalHistory(s, ops) && Refines(bs, s)
    ensures Refines(BlocksAfter(bs, s, ops), ArraysAfter(s, ops))
    decreases |ops|
  {
    if ops != [] {
      StepRefines(bs, s, ops[0]);
      HistoryRefinesSequences(OnBlocks(bs, s, ops[0]), OnArrays(s, ops[0]), ops[1..]);
    }
  }

  // ---- The histories of the heap ----

  /** The addresses and sizes are ones C has: none is null, and no size wraps. */
  predicate Fits(s: Store, op: Op) {
    match op
    case New(h, n, szt, _) => 0 < h && HEADER + szt * n < WORDS
    case Resize(h, m, to, _) => 0 < to && h in s && HEADER + s[h].szt * m < WORDS
    case Dup(_, to) => 0 < to
    case _ => true
  }

  predicate FitsHistory(s: Store, ops: seq<Op>)
    requires LegalHistory(s, ops)
    decreases |ops|
  {
    ops == [] || (Fits(s, ops[0]) && FitsHistory(OnArrays(s, ops[0]), ops[1..]))
  }

  /** One call of the library. */
  method Perform(heap: Dga.Heap, op: Op, ghost s: Store)
    requires Legal(s, op) && Fits(s, op) && Refines(heap.blocks, s)
    modifies heap
    ensures heap.blocks == OnBlocks(old(heap.blocks), s, op)
  {
    match op
    case New(h, n, szt, junk) =>
      var _ := heap.New(n, szt, Dga.Block(h, junk));
    case Resize(h, m, to, junk) =>
      var _ := heap.Resize(h + HEADER, m, Dga.Block(to, junk));
    case Put(h, i, v) =>
      heap.Put(h + HEADER, i, v);
    case Dup(h, to) =>
      var b := heap.blocks[h];
      var _ := heap.Dup(h + HEADER, Dga.Block(to, b));
    case Free(h) =>
      heap.Free(h + HEADER);
  }

  /** A run of the library on its heap: after it the blocks are those of the history,
      and so the sequences. */
  method PerformAll(heap: Dga.Heap, ops: seq<Op>, ghost s: Store)
    requires LegalHistory(s, ops) && FitsHistory(s, ops) && Refines(heap.blocks, s)
    modifies heap
    ensures heap.blocks == BlocksAfter(old(heap.blocks), s, ops)
    ensures Refines(heap.blocks, ArraysAfter(s, ops))
    decreases |ops|
  {
    HistoryRefinesSequences(heap.blocks, s, ops);
    if ops != [] {
      StepRefines(heap.blocks, s, ops[0]);
      Perform(heap, ops[0], s);
      PerformAll(heap, ops[1..], OnArrays(s, ops[0]));
    }
  }
}
