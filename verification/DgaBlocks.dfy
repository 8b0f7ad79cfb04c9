/**
 The blocks of src/dga as bytes: a 24-byte header (len, cap, szt, each a 64-bit
 little-endian word), then the elements.
 */
module DgaBlocks {
  import opened Effects

  const HEADER := 24
  const WORDS := 0x1_0000_0000_0000_0000   // the values of a size_t

  // ---- size_t in memory ----

  function Pow256(n: nat): (r: nat)
    ensures 0 < r
  {
    if n == 0 then 1 else 256 * Pow256(n - 1)
  }

  function Encode(x: nat, n: nat): (s: seq<Byte>)
    ensures |s| == n
  {
    if n == 0 then [] else [x % 256] + Encode(x / 256, n - 1)
  }

  function Decode(s: seq<Byte>): nat {
    if s == [] then 0 else s[0] + 256 * Decode(s[1..])
  }

  lemma {:induction false} DecodeEncode(x: nat, n: nat)
    requires x < Pow256(n)
    ensures Decode(Encode(x, n)) == x
  {
    if n > 0 {
      DecodeEncode(x / 256, n - 1);
      assert Encode(x, n)[1..] == Encode(x / 256, n - 1);
    }
  }

  lemma {:induction false} SizeTWidth()
    ensures Pow256(8) == WORDS
  {
    assert Pow256(2) == 256 * 256;
    assert Pow256(4) == 256 * 256 * Pow256(2);
    assert Pow256(6) == 256 * 256 * Pow256(4);
    assert Pow256(8) == 256 * 256 * Pow256(6);
  }

  // ---- Blocks ----

  function LenOf(b: seq<Byte>): nat
    requires HEADER <= |b|
  {
    Decode(b[0..8])
  }

  function SztOf(b: seq<Byte>): nat
    requires HEADER <= |b|
  {
    Decode(b[16..24])
  }

  /** The block has the size its header speaks of. */
  predicate Good(b: seq<Byte>) {
    HEADER <= |b| && |b| == HEADER + SztOf(b) * LenOf(b)
  }

  /** Where element `i` starts. */
  function Start(szt: nat, i: nat): nat {
    HEADER + szt * i
  }

  lemma {:induction false} MulMono(k: nat, a: nat, b: nat)
    requires a <= b
    ensures k * a <= k * b && k * (a + 1) == k * a + k
  {
  }

  lemma {:induction false} CellsInOrder(k: nat, n: nat, i: nat, j: nat)
    requires i < j < n
    ensures k * i <= k * (i + 1) <= k * j <= k * j + k == k * (j + 1) <= k * n
  {
    MulMono(k, i, i + 1);
    MulMono(k, i + 1, j);
    MulMono(k, j, j);
    MulMono(k, j + 1, n);
  }

  /** Elements lie one after the other, apart, and inside the block. */
  lemma {:induction false} RangesApart(b: seq<Byte>, i: nat, j: nat)
    requires Good(b) && i < j < LenOf(b)
    ensures HEADER <= Start(SztOf(b), i) <= Start(SztOf(b), i + 1) <= Start(SztOf(b), j)
    ensures Start(SztOf(b), i + 1) == Start(SztOf(b), i) + SztOf(b)
    ensures Start(SztOf(b), j) + SztOf(b) == Start(SztOf(b), j + 1) <= |b|
  {
    hide Decode, LenOf, SztOf;
    CellsInOrder(SztOf(b), LenOf(b), i, j);
    MulMono(SztOf(b), i, i);
  }

  lemma InsideBlock(b: seq<Byte>, i: nat)
    requires Good(b) && i < LenOf(b)
    ensures HEADER <= Start(SztOf(b), i) <= Start(SztOf(b), i) + SztOf(b) <= |b|
  {
    hide Decode, LenOf, SztOf;
    MulMono(SztOf(b), i, i);
    MulMono(SztOf(b), i + 1, LenOf(b));
  }

  function Elem(b: seq<Byte>, i: nat): (e: seq<Byte>)
    requires Good(b) && i < LenOf(b)
  {
    InsideBlock(b, i);
    b[Start(SztOf(b), i)..Start(SztOf(b), i) + SztOf(b)]
  }

  /** Four and eight bytes as a number, the low byte first. */
  function FourAt(b: seq<int>, k: nat): int
    requires k + 4 <= |b|
  {
    b[k] + 0x100 * b[k + 1] + 0x1_0000 * b[k + 2] + 0x100_0000 * b[k + 3]
  }

  function EightAt(b: seq<int>, k: nat): int
    requires k + 8 <= |b|
  {
    FourAt(b, k) + 0x1_0000_0000 * FourAt(b, k + 4)
  }

  /** The layout, in numbers: len in bytes 0 to 7, szt in bytes 16 to 23, and element `i`
      from byte 24 + szt * i on. */
  lemma {:induction false} Layout(b: seq<Byte>, i: nat)
    requires HEADER <= |b|
    ensures LenOf(b) == EightAt(b, 0) && SztOf(b) == EightAt(b, 16)
    ensures Good(b) && i < LenOf(b) ==>
      var at := 24 + SztOf(b) * i;
      24 <= at && at + SztOf(b) <= |b| && Elem(b, i) == b[at..at + SztOf(b)]
  {
    EightBytes(b[0..8]);
    EightBytes(b[16..24]);
    hide Decode, LenOf, SztOf, EightAt;
    if Good(b) && i < LenOf(b) {
      InsideBlock(b, i);
    }
  }

  lemma {:induction false} FourBytes(s: seq<Byte>)
    requires 4 <= |s|
    ensures Decode(s) == FourAt(s, 0) + 0x1_0000_0000 * Decode(s[4..])
  {
    assert s[1..][1..] == s[2..] && s[2..][1..] == s[3..] && s[3..][1..] == s[4..];
    assert Decode(s) == s[0] + 256 * Decode(s[1..]);
    assert Decode(s[1..]) == s[1] + 256 * Decode(s[2..]);
    assert Decode(s[2..]) == s[2] + 256 * Decode(s[3..]);
    assert Decode(s[3..]) == s[3] + 256 * Decode(s[4..]);
  }

  lemma {:induction false} EightBytes(s: seq<Byte>)
    requires |s| == 8
    ensures Decode(s) == EightAt(s, 0)
  {
    FourBytes(s);
    FourBytes(s[4..]);
    assert s[4..][4..] == [];
  }

  /** The writes of `_dga_new` into fresh memory. */
  function NewBlock(n: nat, szt: nat, junk: seq<Byte>): (b: seq<Byte>)
    requires |junk| == HEADER + szt * n
    ensures |b| == |junk|
  {
    MulMono(szt, 0, n);
    Encode(n, 8) + junk[8..16] + Encode(szt, 8) + junk[24..]
  }

  /** The write `h->len = n`. */
  function WithLen(b: seq<Byte>, n: nat): (r: seq<Byte>)
    requires HEADER <= |b|
    ensures |r| == |b|
  {
    Encode(n, 8) + b[8..]
  }

  /** realloc: the common part is kept, the rest is `junk`. */
  function Moved(b: seq<Byte>, junk: seq<Byte>): (r: seq<Byte>)
    ensures |r| == |junk|
  {
    if |b| <= |junk| then b + junk[|b|..] else b[..|junk|]
  }

  function WithElem(b: seq<Byte>, i: nat, v: seq<Byte>): (r: seq<Byte>)
    requires Good(b) && i < LenOf(b) && |v| == SztOf(b)
    ensures |r| == |b|
  {
    InsideBlock(b, i);
    b[..Start(SztOf(b), i)] + v + b[Start(SztOf(b), i) + |v|..]
  }

  lemma {:induction false} NewBlockIs(n: nat, szt: nat, junk: seq<Byte>)
    requires n < WORDS && szt < WORDS && |junk| == HEADER + szt * n
    ensures var b := NewBlock(n, szt, junk);
      HEADER <= |b| && Good(b) && LenOf(b) == n && SztOf(b) == szt
  {
    var b := NewBlock(n, szt, junk);
    MulMono(szt, 0, n);
    SizeTWidth();
    DecodeEncode(n, 8);
    DecodeEncode(szt, 8);
    assert b[0..8] == Encode(n, 8);
    assert b[16..24] == Encode(szt, 8);
  }

  lemma {:induction false} WithLenIs(b: seq<Byte>, n: nat)
    requires HEADER <= |b| && n < WORDS
    ensures LenOf(WithLen(b, n)) == n && SztOf(WithLen(b, n)) == SztOf(b)
    ensures WithLen(b, n)[HEADER..] == b[HEADER..]
  {
    var r := WithLen(b, n);
    SizeTWidth();
    DecodeEncode(n, 8);
    assert r[0..8] == Encode(n, 8);
    assert r[16..24] == b[16..24];
  }

  /** A resize that finds memory: the length is as asked, the element size is kept
      and so is every element that both lengths have. */
  lemma {:induction false} ResizeKeeps(b: seq<Byte>, m: nat, junk: seq<Byte>)
    requires Good(b) && m < WORDS && |junk| == HEADER + SztOf(b) * m
    ensures var r := Moved(WithLen(b, m), junk);
      && Good(r) && LenOf(r) == m && SztOf(r) == SztOf(b)
      && forall i | 0 <= i < m && i < LenOf(b) :: Elem(r, i) == Elem(b, i)
  {
    var w := WithLen(b, m);
    var r := Moved(w, junk);
    WithLenIs(b, m);
    MulMono(SztOf(b), 0, m);
    assert r[0..8] == w[0..8];
    assert r[16..24] == w[16..24];
    forall i | 0 <= i < m && i < LenOf(b) ensures Elem(r, i) == Elem(b, i) {
      InsideBlock(b, i);
      InsideBlock(r, i);
      SameTail(b, w, r, Start(SztOf(b), i), SztOf(b));
    }
  }

  lemma SameTail(b: seq<Byte>, w: seq<Byte>, r: seq<Byte>, at: nat, n: nat)
    requires HEADER <= at && at + n <= |b| == |w| && at + n <= |r| && HEADER <= |r|
    requires w[HEADER..] == b[HEADER..]
    requires forall k | 0 <= k < |w| && k < |r| :: r[k] == w[k]
    ensures r[at..at + n] == b[at..at + n]
  {
    forall k | at <= k < at + n ensures r[k] == b[k] {
      assert w[HEADER..][k - HEADER] == b[HEADER..][k - HEADER];
    }
  }

  /** Writing one element changes that element and nothing else. */
  lemma {:induction false} WriteChangesOne(b: seq<Byte>, i: nat, v: seq<Byte>)
    requires Good(b) && i < LenOf(b) && |v| == SztOf(b)
    ensures var r := WithElem(b, i, v);
      && Good(r) && LenOf(r) == LenOf(b) && SztOf(r) == SztOf(b)
      && forall j | 0 <= j < LenOf(b) :: Elem(r, j) == if j == i then v else Elem(b, j)
  {
    var r := WithElem(b, i, v);
    InsideBlock(b, i);
    assert r[0..8] == b[0..8];
    assert r[16..24] == b[16..24];
    forall j | 0 <= j < LenOf(b) ensures Elem(r, j) == if j == i then v else Elem(b, j) {
      InsideBlock(b, j);
      if j < i {
        RangesApart(b, j, i);
      } else if i < j {
        RangesApart(b, i, j);
      }
    }
  }
}
