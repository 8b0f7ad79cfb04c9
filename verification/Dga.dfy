/**
 src/dga/dga.c over a heap of malloc'd blocks.  A pointer handed out is the
 address after the header; the allocator's answer is a parameter of each call.
 */
module Dga {
  import opened Effects
  import opened DgaBlocks

  /** What malloc or realloc comes back with: nothing, or a block at an address no
      live block has, holding whatever was there. */
  datatype Memory = Exhausted | Block(addr: nat, junk: seq<Byte>)

  class Heap {
    var blocks: map<nat, seq<Byte>>

    /** `arr` is a dynamic array on this heap. */
    ghost predicate Holds(arr: nat)
      reads this
    {
      HEADER <= arr && arr - HEADER in blocks && Good(blocks[arr - HEADER])
    }

    constructor ()
      ensures blocks == map[]
    {
      blocks := map[];
    }

    method Malloc(n: nat, m: Memory) returns (p: nat)
      requires m.Block? ==> 0 < m.addr && m.addr !in blocks && |m.junk| == n
      modifies this
      ensures m.Exhausted? ==> p == 0 && blocks == old(blocks)
      ensures m.Block? ==> p == m.addr && blocks == old(blocks)[m.addr := m.junk]
    {
      if m.Exhausted? {
        return 0;
      }
      blocks := blocks[m.addr := m.junk];
      p := m.addr;
    }

    method Realloc(h: nat, n: nat, m: Memory) returns (p: nat)
      requires h in blocks
      requires m.Block? ==> 0 < m.addr && (m.addr == h || m.addr !in blocks) && |m.junk| == n
      modifies this
      ensures m.Exhausted? ==> p == 0 && blocks == old(blocks)
      ensures m.Block? ==> p == m.addr && blocks == (old(blocks) - {h})[m.addr := Moved(old(blocks)[h], m.junk)]
    {
      if m.Exhausted? {
        return 0;
      }
      blocks := (blocks - {h})[m.addr := Moved(blocks[h], m.junk)];
      p := m.addr;
    }

    /** `_dga_new`.  Without memory it still returns a pointer that is not null:
        one header past null. */
    method New(n: nat, objSize: nat, m: Memory) returns (arr: nat)
      requires HEADER + objSize * n < WORDS && n < WORDS && objSize < WORDS
      requires m.Block? ==> 0 < m.addr && m.addr !in blocks && |m.junk| == HEADER + objSize * n
      modifies this
      ensures m.Exhausted? ==> arr == HEADER && blocks == old(blocks)
      ensures m.Block? ==>
        && arr == m.addr + HEADER && Holds(arr)
        && LenOf(blocks[arr - HEADER]) == n && SztOf(blocks[arr - HEADER]) == objSize
        && blocks == old(blocks)[arr - HEADER := NewBlock(n, objSize, m.junk)]
    {
      var allocSize := HEADER + objSize * n;
      var h := Malloc(allocSize, m);
      if h != 0 {
        blocks := blocks[h := NewBlock(n, objSize, blocks[h])];
        NewBlockIs(n, objSize, m.junk);
      }
      arr := h + HEADER;
    }

    method Len(arr: nat) returns (n: nat)
      requires HEADER <= arr && arr - HEADER in blocks && HEADER <= |blocks[arr - HEADER]|
      ensures n == LenOf(blocks[arr - HEADER])
    {
      n := LenOf(blocks[arr - HEADER]);
    }

    /** dga_resize.  Without memory it returns null and frees nothing, but the
        header already has the new length. */
    method Resize(arr: nat, newSize: nat, m: Memory) returns (r: nat)
      requires Holds(arr) && newSize < WORDS
      requires HEADER + SztOf(blocks[arr - HEADER]) * newSize < WORDS
      requires m.Block? ==>
        && 0 < m.addr && (m.addr == arr - HEADER || m.addr !in blocks)
        && |m.junk| == HEADER + SztOf(blocks[arr - HEADER]) * newSize
      modifies this
      ensures m.Exhausted? ==>
        && r == 0 && blocks == old(blocks)[arr - HEADER := WithLen(old(blocks)[arr - HEADER], newSize)]
        && LenOf(blocks[arr - HEADER]) == newSize
        && blocks[arr - HEADER][HEADER..] == old(blocks)[arr - HEADER][HEADER..]
      ensures m.Block? ==>
        var b, b' := old(blocks)[arr - HEADER], Moved(WithLen(old(blocks)[arr - HEADER], newSize), m.junk);
        && r == m.addr + HEADER && Holds(r)
        && blocks == (old(blocks) - {arr - HEADER})[r - HEADER := b']
        && LenOf(b') == newSize && SztOf(b') == SztOf(b)
        && forall i | 0 <= i < newSize && i < LenOf(b) :: Elem(b', i) == Elem(b, i)
    {
      var h := arr - HEADER;
      ghost var b := blocks[h];
      WithLenIs(b, newSize);
      blocks := blocks[h := WithLen(blocks[h], newSize)];
      var allocSize := HEADER + SztOf(blocks[h]) * LenOf(blocks[h]);
      var tmp := Realloc(h, allocSize, m);
      if tmp != 0 {
        ResizeKeeps(b, newSize, m.junk);
        assert old(blocks)[h := WithLen(b, newSize)] - {h} == old(blocks) - {h};
        return tmp + HEADER;
      }
      return tmp;
    }

    /** dga_grow; the new length is computed in a size_t. */
    method Grow(arr: nat, n: nat, m: Memory) returns (r: nat)
      requires Holds(arr) && n < WORDS
      requires HEADER + SztOf(blocks[arr - HEADER]) * ((LenOf(blocks[arr - HEADER]) + n) % WORDS) < WORDS
      requires m.Block? ==>
        && 0 < m.addr && (m.addr == arr - HEADER || m.addr !in blocks)
        && |m.junk| == HEADER + SztOf(blocks[arr - HEADER]) * ((LenOf(blocks[arr - HEADER]) + n) % WORDS)
      modifies this
      ensures m.Exhausted? ==>
        && r == 0 && arr - HEADER in blocks
        && var b, b' := old(blocks)[arr - HEADER], blocks[arr - HEADER];
           && blocks == old(blocks)[arr - HEADER := b'] && HEADER <= |b'| == |b|
           && LenOf(b') == (LenOf(b) + n) % WORDS && b'[8..] == b[8..]
      ensures m.Block? ==>
        var b := old(blocks)[arr - HEADER];
        var b' := Moved(WithLen(b, (LenOf(b) + n) % WORDS), m.junk);
        && r == m.addr + HEADER && Holds(r)
        && blocks == (old(blocks) - {arr - HEADER})[r - HEADER := b']
        && LenOf(b') == (LenOf(b) + n) % WORDS && SztOf(b') == SztOf(b)
        && forall i | 0 <= i < LenOf(b) && i < LenOf(b') :: Elem(b', i) == Elem(b, i)
    {
      var len := Len(arr);
      r := Resize(arr, (len + n) % WORDS, m);
    }

    /** dga_shrink; by more than the length, the new length wraps. */
    method Shrink(arr: nat, n: nat, m: Memory) returns (r: nat)
      requires Holds(arr) && n < WORDS
      requires HEADER + SztOf(blocks[arr - HEADER]) * ((LenOf(blocks[arr - HEADER]) - n) % WORDS) < WORDS
      requires m.Block? ==>
        && 0 < m.addr && (m.addr == arr - HEADER || m.addr !in blocks)
        && |m.junk| == HEADER + SztOf(blocks[arr - HEADER]) * ((LenOf(blocks[arr - HEADER]) - n) % WORDS)
      modifies this
      ensures m.Exhausted? ==>
        && r == 0 && arr - HEADER in blocks
        && var b, b' := old(blocks)[arr - HEADER], blocks[arr - HEADER];
           && blocks == old(blocks)[arr - HEADER := b'] && HEADER <= |b'| == |b|
           && LenOf(b') == (LenOf(b) - n) % WORDS && b'[8..] == b[8..]
      ensures m.Block? ==>
        var b := old(blocks)[arr - HEADER];
        var b' := Moved(WithLen(b, (LenOf(b) - n) % WORDS), m.junk);
        && r == m.addr + HEADER && Holds(r)
        && blocks == (old(blocks) - {arr - HEADER})[r - HEADER := b']
        && LenOf(b') == (LenOf(b) - n) % WORDS && SztOf(b') == SztOf(b)
        && forall i | 0 <= i < LenOf(b) && i < LenOf(b') :: Elem(b', i) == Elem(b, i)
    {
      var len := Len(arr);
      r := Resize(arr, (len - n) % WORDS, m);
    }

    method Free(arr: nat)
      requires HEADER <= arr && arr - HEADER in blocks
      modifies this
      ensures blocks == old(blocks) - {arr - HEADER}
    {
      blocks := blocks - {arr - HEADER};
    }

    /** dga_dup: a byte copy, header included. */
    method Dup(arr: nat, m: Memory) returns (r: nat)
      requires Holds(arr)
      requires m.Block? ==> 0 < m.addr && m.addr !in blocks && |m.junk| == |blocks[arr - HEADER]|
      modifies this
      ensures m.Exhausted? ==> r == 0 && blocks == old(blocks)
      ensures m.Block? ==>
        && r == m.addr + HEADER && Holds(r)
        && blocks == old(blocks)[r - HEADER := old(blocks)[arr - HEADER]]
    {
      var h := arr - HEADER;
      var size := HEADER + SztOf(blocks[h]) * LenOf(blocks[h]);
      var tmp := Malloc(size, m);
      if tmp == 0 {
        return 0;
      }
      assert blocks[h][..size] == old(blocks)[h];
      blocks := blocks[tmp := blocks[h][..size]];
      assert blocks == old(blocks)[tmp := old(blocks)[h]];
      return tmp + HEADER;
    }

    /** `arr[i] = v`. */
    method Put(arr: nat, i: nat, v: seq<Byte>)
      requires Holds(arr) && i < LenOf(blocks[arr - HEADER]) && |v| == SztOf(blocks[arr - HEADER])
      modifies this
      ensures Holds(arr) && blocks == old(blocks)[arr - HEADER := WithElem(old(blocks)[arr - HEADER], i, v)]
    {
      WriteChangesOne(blocks[arr - HEADER], i, v);
      blocks := blocks[arr - HEADER := WithElem(blocks[arr - HEADER], i, v)];
    }

    /** `arr[i]`. */
    method Get(arr: nat, i: nat) returns (v: seq<Byte>)
      requires Holds(arr) && i < LenOf(blocks[arr - HEADER])
      ensures v == Elem(blocks[arr - HEADER], i)
    {
      v := Elem(blocks[arr - HEADER], i);
    }
  }
}
