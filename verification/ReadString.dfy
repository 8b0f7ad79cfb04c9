/**
 read_string of src/libtracer/tracer.c: a C string of the tracee, fetched word
 by word with PTRACE_PEEKTEXT into a buffer that doubles.
 */
module ReadString {
  import opened Effects
  import opened Wrappers

  const WORD := 8
  const ADDRESSES := 0x1_0000_0000_0000_0000
  const FIRST_ALLOC := 4096
  const EIO := 5

  type Address = x: int | 0 <= x < ADDRESSES

  /** The readable bytes of a tracee. */
  type Memory = map<Address, Byte>

  /** The `i`-th word from `addr`, if all its bytes can be read; addresses wrap. */
  function Word(mem: Memory, addr: nat, i: nat): (r: Option<seq<Byte>>)
    ensures r.Some? ==> |r.value| == WORD
  {
    var a := (addr + WORD * i) % ADDRESSES;
    if && a in mem && a + 1 in mem && a + 2 in mem && a + 3 in mem
       && a + 4 in mem && a + 5 in mem && a + 6 in mem && a + 7 in mem
    then Some([mem[a], mem[a + 1], mem[a + 2], mem[a + 3], mem[a + 4], mem[a + 5], mem[a + 6], mem[a + 7]])
    else None
  }

  /** Words before the `k`-th are readable and hold no NUL. */
  ghost predicate Plain(mem: Memory, addr: nat, k: nat) {
    forall i: nat | i < k :: Word(mem, addr, i).Some? && 0 !in Word(mem, addr, i).value
  }

  /** The `k`-th word is the first that is unreadable or holds a NUL. */
  ghost predicate Stops(mem: Memory, addr: nat, k: nat) {
    Plain(mem, addr, k) && (Word(mem, addr, k).Some? ==> 0 in Word(mem, addr, k).value)
  }

  /** The eight bytes from `a` on can be read. */
  ghost predicate Readable(mem: Memory, a: int) {
    forall x: int | a <= x < a + 8 :: x in mem
  }

  ghost predicate Holds(mem: Memory, a: int, c: Byte) {
    a in mem && mem[a] == c
  }

  /** The byte `i` further on, with the eight it is fetched in. */
  ghost predicate InMemory(mem: Memory, addr: nat, i: nat, c: Byte) {
    && Readable(mem, (addr + i / 8 * 8) % ADDRESSES)
    && Holds(mem, (addr + i) % ADDRESSES, c)
  }

  /** Byte for byte, `t` is the string at `addr`: what memory holds from `addr` on, up
      to the first NUL or the first eight bytes that cannot be read together. */
  ghost predicate IsStringAt(mem: Memory, addr: nat, t: seq<Byte>) {
    && 0 !in t
    && (forall i | 0 <= i < |t| :: InMemory(mem, addr, i, t[i]))
    && var end := (addr + |t|) % ADDRESSES;
       if Readable(mem, (addr + |t| / 8 * 8) % ADDRESSES) then Holds(mem, end, 0) else |t| % 8 == 0
  }

  /** The `i`-th byte, as part of a word that can be read. */
  ghost predicate Fetched(mem: Memory, addr: nat, i: nat, c: Byte) {
    Word(mem, addr, i / WORD).Some? && Word(mem, addr, i / WORD).value[i % WORD] == c
  }

  /** The same by words. */
  ghost predicate InWords(mem: Memory, addr: nat, t: seq<Byte>) {
    && 0 !in t
    && (forall i | 0 <= i < |t| :: Fetched(mem, addr, i, t[i]))
    && match Word(mem, addr, |t| / WORD)
       case Some(w) => w[|t| % WORD] == 0
       case None => |t| % WORD == 0
  }

  /** The words PTRACE_PEEKTEXT fetches are the bytes from `addr` on. */
  lemma {:induction false} WordByte(mem: Memory, addr: nat, i: nat)
    ensures Word(mem, addr, i / 8).Some? <==> Readable(mem, (addr + i / 8 * 8) % ADDRESSES)
    ensures Word(mem, addr, i / 8).Some? ==>
      && (addr + i) % ADDRESSES in mem
      && Word(mem, addr, i / 8).value[i % 8] == mem[(addr + i) % ADDRESSES]
  {
    var k, j := i / 8, i % 8;
    var x := addr + k * 8;
    var a := x % ADDRESSES;
    assert WORD * k == k * 8;
    if Word(mem, addr, k).Some? {
      assert a + 7 in mem && a + 7 < ADDRESSES;
      assert addr + i == ADDRESSES * (x / ADDRESSES) + (a + j);
      assert (addr + i) % ADDRESSES == a + j;
    }
  }

  lemma {:induction false} ByWords(mem: Memory, addr: nat, t: seq<Byte>)
    ensures InWords(mem, addr, t) <==> IsStringAt(mem, addr, t)
  {
    hide Word, Readable;
    WordByte(mem, addr, |t|);
    forall i | 0 <= i < |t| ensures Fetched(mem, addr, i, t[i]) <==> InMemory(mem, addr, i, t[i]) {
      WordByte(mem, addr, i);
    }
  }

  lemma {:induction false} StringPrefix(mem: Memory, addr: nat, t: seq<Byte>, u: seq<Byte>)
    requires IsStringAt(mem, addr, t) && IsStringAt(mem, addr, u) && |t| <= |u|
    ensures t == u
  {
    hide Readable;
    forall i | 0 <= i < |t| ensures t[i] == u[i] {
      assert InMemory(mem, addr, i, t[i]) && InMemory(mem, addr, i, u[i]);
    }
    assert |t| < |u| ==> InMemory(mem, addr, |t|, u[|t|]);
  }

  /** There is at most one string at an address. */
  lemma {:induction false} StringIsUnique(mem: Memory, addr: nat, t: seq<Byte>, u: seq<Byte>)
    requires IsStringAt(mem, addr, t) && IsStringAt(mem, addr, u)
    ensures t == u
  {
    if |t| <= |u| {
      StringPrefix(mem, addr, t, u);
    } else {
      StringPrefix(mem, addr, u, t);
    }
  }

  /** Told of memory alone: the string is what lies at `addr`, `addr + 1`, ..., and after
      it comes a NUL, or eight bytes not all readable. */
  lemma {:induction false} StringInMemory(mem: Memory, addr: nat, t: seq<Byte>)
    requires IsStringAt(mem, addr, t)
    ensures forall i | 0 <= i < |t| :: t[i] != 0 && Holds(mem, (addr + i) % ADDRESSES, t[i])
    ensures var end := (addr + |t|) % ADDRESSES;
      Holds(mem, end, 0) || (|t| % 8 == 0 && !Readable(mem, end))
  {
    forall i | 0 <= i < |t| ensures t[i] != 0 && Holds(mem, (addr + i) % ADDRESSES, t[i]) {
      assert InMemory(mem, addr, i, t[i]) && t[i] in t;
    }
    assert |t| % 8 == 0 ==> |t| / 8 * 8 == |t|;
  }

  /** The string ends in the word the reading stops at. */
  lemma {:induction false} StringStops(mem: Memory, addr: nat, t: seq<Byte>)
    requires IsStringAt(mem, addr, t)
    ensures Stops(mem, addr, |t| / WORD)
  {
    hide Word, IsStringAt;
    ByWords(mem, addr, t);
    forall i: nat | i < |t| / WORD ensures Word(mem, addr, i).Some? && 0 !in Word(mem, addr, i).value {
      assert WORD * i / WORD == i && Fetched(mem, addr, WORD * i, t[WORD * i]);
      var w := Word(mem, addr, i).value;
      forall j | 0 <= j < WORD ensures w[j] != 0 {
        assert (WORD * i + j) / WORD == i && (WORD * i + j) % WORD == j;
        assert Fetched(mem, addr, WORD * i + j, t[WORD * i + j]);
      }
    }
  }

  lemma {:induction false} StopNotAfter(mem: Memory, addr: nat, k: nat, m: nat)
    requires Stops(mem, addr, k) && Plain(mem, addr, m)
    ensures m <= k
  {
    if k < m {
      assert false;
    }
  }

  /** The buffer size once `n` bytes have been asked for: doubled until they fit. */
  function Capacity(n: nat): (r: nat)
    ensures n <= r && FIRST_ALLOC <= r
    ensures r <= FIRST_ALLOC || r < 2 * n
  {
    GrownFrom(FIRST_ALLOC, n)
  }

  function GrownFrom(a: nat, n: nat): (r: nat)
    requires 0 < a
    ensures n <= r && a <= r
    ensures r <= a || r < 2 * n
    decreases n - a
  {
    if n <= a then a else GrownFrom(2 * a, n)
  }

  /** `a` is 4096 doubled some times. */
  predicate IsDoubling(a: nat)
  {
    a == FIRST_ALLOC || (a > FIRST_ALLOC && a % 2 == 0 && IsDoubling(a / 2))
  }

  lemma {:induction false} DoublingIsWords(a: nat)
    requires IsDoubling(a)
    ensures a % WORD == 0
  {
    if a != FIRST_ALLOC {
      DoublingIsWords(a / 2);
      var q := a / 2 / WORD;
      assert a / 2 == WORD * q;
      assert a == WORD * (2 * q);
    }
  }

  /** When a full buffer of `a` bytes doubles, it is what one more word needs. */
  lemma {:induction false} CapacityStep(b: nat, a: nat, n: nat)
    requires 0 < b && GrownFrom(b, a) == a && a < n <= 2 * a
    ensures GrownFrom(b, n) == 2 * a
    decreases a - b
  {
    if b < a {
      CapacityStep(2 * b, a, n);
    } else {
      assert b == a;
      assert GrownFrom(2 * a, n) == 2 * a;
    }
  }

  lemma {:induction false} CapacityKeeps(b: nat, n: nat, m: nat)
    requires 0 < b && n <= m <= GrownFrom(b, n)
    ensures GrownFrom(b, m) == GrownFrom(b, n)
    decreases n - b
  {
    if n > b {
      CapacityKeeps(2 * b, n, m);
    }
  }

  /** PTRACE_PEEKTEXT: a word, or all ones with errno set. */
  method Peek(mem: Memory, addr: nat, i: nat) returns (tmp: seq<Byte>, errno: int)
    ensures |tmp| == WORD
    ensures errno == 0 <==> Word(mem, addr, i).Some?
    ensures errno == 0 ==> tmp == Word(mem, addr, i).value
  {
    match Word(mem, addr, i)
    case Some(w) => tmp, errno := w, 0;
    case None => tmp, errno := seq(WORD, _ => 255), EIO;
  }

  /** realloc to `n` bytes; null when the allocator has less than that. */
  method Realloc(val: array<Byte>, n: nat, limit: nat) returns (r: array?<Byte>)
    requires val.Length <= n
    ensures r == null <==> n > limit
    ensures r != null ==> r.Length == n && r[..val.Length] == val[..]
    ensures r != null ==> fresh(r)
  {
    if n > limit {
      return null;
    }
    var a := new Byte[n];
    forall i | 0 <= i < val.Length {
      a[i] := val[i];
    }
    r := a;
  }

  /** The bytes of the first `k` words. */
  ghost function WordsUpTo(mem: Memory, addr: nat, k: nat): seq<Byte>
    requires Plain(mem, addr, k)
  {
    if k == 0 then [] else WordsUpTo(mem, addr, k - 1) + Word(mem, addr, k - 1).value
  }

  lemma {:induction false} WordsAt(mem: Memory, addr: nat, k: nat)
    requires Plain(mem, addr, k)
    ensures var s := WordsUpTo(mem, addr, k);
      |s| == WORD * k && 0 !in s && forall i | 0 <= i < |s| :: Fetched(mem, addr, i, s[i])
  {
    hide Word;
    if k > 0 {
      WordsAt(mem, addr, k - 1);
    }
  }

  /** Where the first NUL of a buffer is: what `char *` code takes for its end. */
  ghost predicate EndsAt(s: seq<Byte>, n: nat) {
    n < |s| && s[n] == 0 && 0 !in s[..n]
  }

  /** What code that is handed `val` as a `char *` reads. */
  method CString(val: array<Byte>) returns (t: seq<Byte>)
    requires exists n: nat :: EndsAt(val[..], n)
    ensures EndsAt(val[..], |t|) && t == val[..|t|]
  {
    var n := 0;
    ghost var end: nat :| EndsAt(val[..], end);
    while val[n] != 0
      invariant n <= end
      invariant 0 !in val[..n]
      decreases end - n
    {
      assert n < end;
      assert val[..n + 1] == val[..n] + [val[n]];
      n := n + 1;
    }
    t := val[..n];
  }

  /** `s` up to its first NUL is what lies in memory from `addr` on, and after that
      comes a NUL, or eight bytes not all readable. */
  ghost predicate CopiedFrom(mem: Memory, addr: nat, s: seq<Byte>) {
    forall n: nat | n < |s| && s[n] == 0 && 0 !in s[..n] ::
      && (forall i | 0 <= i < n :: Holds(mem, (addr + i) % ADDRESSES, s[i]))
      && var end := (addr + n) % ADDRESSES;
         Holds(mem, end, 0) || (n % 8 == 0 && !Readable(mem, end))
  }

  /** The buffer of a string of `n` bytes has 4096, or fewer than twice what it needs. */
  predicate NotTooLarge(s: seq<Byte>) {
    forall n: nat | n < |s| && s[n] == 0 && 0 !in s[..n] :: |s| == 4096 || |s| < 2 * (n + 8)
  }

  lemma {:induction false} BufferInMemory(mem: Memory, addr: nat, s: seq<Byte>, k: nat)
    requires exists n: nat :: EndsAt(s, n) && IsStringAt(mem, addr, s[..n])
    requires Stops(mem, addr, k) && |s| == Capacity(WORD * k + WORD)
    ensures CopiedFrom(mem, addr, s) && NotTooLarge(s)
  {
    hide IsStringAt, Stops;
    var m: nat :| EndsAt(s, m) && IsStringAt(mem, addr, s[..m]);
    StringInMemory(mem, addr, s[..m]);
    StringStops(mem, addr, s[..m]);
    OneStop(mem, addr, k, m / WORD);
    forall n: nat | n < |s| && s[n] == 0 && 0 !in s[..n] ensures n == m {
      assert EndsAt(s, n);
      OneEnd(s, n, m);
    }
    forall i | 0 <= i < m ensures Holds(mem, (addr + i) % ADDRESSES, s[i]) {
      assert s[..m][i] == s[i];
    }
  }

  /** A buffer of twice the string and its NUL, rounded up, is never refused. */
  lemma {:induction false} RefusedBuffer(mem: Memory, addr: nat, limit: nat)
    requires forall k: nat :: Stops(mem, addr, k) ==> Capacity(WORD * k + WORD) > limit
    ensures forall t | IsStringAt(mem, addr, t) :: limit < 4096 || limit < 2 * (|t| + 8)
  {
    hide IsStringAt, Stops;
    forall t | IsStringAt(mem, addr, t) ensures limit < 4096 || limit < 2 * (|t| + 8) {
      StringStops(mem, addr, t);
      var k := |t| / WORD;
      assert Capacity(WORD * k + WORD) > limit;
    }
  }

  lemma OneStop(mem: Memory, addr: nat, k: nat, m: nat)
    requires Stops(mem, addr, k) && Stops(mem, addr, m)
    ensures k == m
  {
    StopNotAfter(mem, addr, k, m);
    StopNotAfter(mem, addr, m, k);
  }

  /** The path read_string hands on, if its buffer can be had. */
  ghost function PathAt(mem: Memory, addr: nat, limit: nat): (r: Option<seq<Byte>>)
    ensures r.Some? ==> IsStringAt(mem, addr, r.value)
    ensures r.Some? <==> exists k: nat :: Stops(mem, addr, k) && Capacity(WORD * k + WORD) <= limit
  {
    if exists k: nat :: Stops(mem, addr, k) && Capacity(WORD * k + WORD) <= limit then
      var k: nat :| Stops(mem, addr, k) && Capacity(WORD * k + WORD) <= limit;
      StringExists(mem, addr, k);
      var t :| IsStringAt(mem, addr, t);
      Some(t)
    else None
  }

  lemma {:induction false} StringExists(mem: Memory, addr: nat, k: nat)
    requires Stops(mem, addr, k)
    ensures exists t :: IsStringAt(mem, addr, t)
  {
    WordsAt(mem, addr, k);
    var u := WordsUpTo(mem, addr, k);
    match Word(mem, addr, k)
    case None =>
      assert (u + [0])[..WORD * k] == u;
      StringEndsUnread(mem, addr, k, u + [0]);
    case Some(w) =>
      assert (u + w)[..WORD * k + WORD] == u + w;
      StringEndsInWord(mem, addr, k, u + w);
      var n: nat :| EndsAt(u + w, n) && IsStringAt(mem, addr, (u + w)[..n]);
  }

  /** What cannot be read is the empty string, once a buffer can be had. */
  lemma {:induction false} EmptyPath(limit: nat)
    requires FIRST_ALLOC <= limit
    ensures PathAt(map[], 0, limit).Some?
  {
    assert Plain(map[], 0, 0) && Stops(map[], 0, 0);
    assert Capacity(WORD * 0 + WORD) == FIRST_ALLOC;
  }

  /** read_string and the reading of its result: the path as a value. */
  method FetchPath(mem: Memory, addr: nat, limit: nat) returns (path: Option<seq<Byte>>)
    ensures path == PathAt(mem, addr, limit)
    ensures path.Some? ==>
      && (forall i | 0 <= i < |path.value| :: path.value[i] != 0 && Holds(mem, (addr + i) % ADDRESSES, path.value[i]))
      && var end := (addr + |path.value|) % ADDRESSES;
         Holds(mem, end, 0) || (|path.value| % 8 == 0 && !Readable(mem, end))
    ensures path.None? ==> forall t | IsStringAt(mem, addr, t) :: limit < 4096 || limit < 2 * (|t| + 8)
  {
    hide Stops, Capacity, IsStringAt, CopiedFrom, NotTooLarge;
    var val, _ := ReadString(mem, addr, limit);
    if val == null {
      return None;
    }
    ghost var n: nat :| EndsAt(val[..], n) && IsStringAt(mem, addr, val[..n]);
    var t := CString(val);
    OneEnd(val[..], n, |t|);
    StringIsUnique(mem, addr, t, PathAt(mem, addr, limit).value);
    StringInMemory(mem, addr, t);
    path := Some(t);
  }

  lemma OneEnd(s: seq<Byte>, n: nat, m: nat)
    requires EndsAt(s, n) && EndsAt(s, m)
    ensures n == m
  {
    NulIn(s, n, m);
    NulIn(s, m, n);
  }

  lemma NulIn(s: seq<Byte>, n: nat, m: nat)
    requires n < |s| && s[n] == 0 && m <= |s|
    ensures n < m ==> 0 in s[..m]
  {
    if n < m {
      var c := s[..m][n];
      assert c in s[..m];
    }
  }

  /** The buffer holds a C string, and it is the one at `addr` in the tracee.  Null
      comes back exactly when the buffer for it cannot be had, or when there is no
      word to stop at. */
  method ReadString(mem: Memory, addr: nat, limit: nat) returns (val: array?<Byte>, ghost copied: nat)
    ensures val != null ==> exists n: nat ::
      EndsAt(val[..], n) && IsStringAt(mem, addr, val[..n])
    ensures val != null ==> exists k: nat ::
      Stops(mem, addr, k) && Capacity(WORD * k + WORD) <= limit && val.Length == Capacity(WORD * k + WORD)
    ensures val != null ==> IsDoubling(val.Length) && copied == val.Length - FIRST_ALLOC
    ensures val == null ==> forall k: nat :: Stops(mem, addr, k) ==> Capacity(WORD * k + WORD) > limit
    // The same without words.
    ensures val != null ==> CopiedFrom(mem, addr, val[..]) && NotTooLarge(val[..])
    ensures val == null ==> forall t | IsStringAt(mem, addr, t) :: limit < 4096 || limit < 2 * (|t| + 8)
  {
    hide IsDoubling, GrownFrom, Capacity, Plain, Stops, IsStringAt, WordsUpTo, EndsAt, Word, CopiedFrom, NotTooLarge;
    copied := 0;
    FirstWord(mem, addr);
    if FIRST_ALLOC > limit {
      NothingFits(mem, addr, 0, limit);
      RefusedBuffer(mem, addr, limit);
      return null, 0;
    }
    var buf := new Byte[FIRST_ALLOC];
    var read := 0;
    while true
      invariant fresh(buf)
      invariant read % WORD == 0 && read <= buf.Length == Capacity(read) <= limit && IsDoubling(buf.Length)
      invariant Plain(mem, addr, read / WORD)
      invariant buf[..read] == WordsUpTo(mem, addr, read / WORD)
      invariant copied == buf.Length - FIRST_ALLOC
      decreases limit - read
    {
      ghost var i := read / WORD;
      var temp, moved := MakeRoom(buf, read, limit);
      if temp == null {
        NothingFits(mem, addr, i, limit);
        RefusedBuffer(mem, addr, limit);
        return null, copied;
      }
      buf := temp;
      copied := copied + moved;
      var done := FetchWord(mem, addr, buf, read);
      if done {
        BufferInMemory(mem, addr, buf[..], i);
        return buf, copied;
      }
      PlainStep(mem, addr, i);
      read := read + WORD;
    }
  }

  /** A full buffer is doubled, once, before the next word. */
  method MakeRoom(buf: array<Byte>, read: nat, limit: nat) returns (r: array?<Byte>, ghost moved: nat)
    requires read % WORD == 0 && read <= buf.Length == Capacity(read) <= limit && IsDoubling(buf.Length)
    ensures r == null <==> Capacity(read + WORD) > limit
    ensures r != null ==>
      && r.Length == Capacity(read + WORD) && read + WORD <= r.Length && IsDoubling(r.Length)
      && r[..read] == buf[..read] && (r == buf || fresh(r)) && moved == r.Length - buf.Length
  {
    hide IsDoubling, GrownFrom, Capacity;
    RoomForWord(buf.Length, read);
    if read + WORD > buf.Length {
      moved := buf.Length;
      r := Realloc(buf, 2 * buf.Length, limit);
    } else {
      r, moved := buf, 0;
    }
  }

  /** The next word goes into the buffer; the loop ends on one that cannot be read or
      that holds a NUL. */
  method FetchWord(mem: Memory, addr: nat, buf: array<Byte>, read: nat) returns (done: bool)
    requires read % WORD == 0 && read + WORD <= buf.Length && Plain(mem, addr, read / WORD)
    requires buf[..read] == WordsUpTo(mem, addr, read / WORD)
    modifies buf
    ensures done <==> Stops(mem, addr, read / WORD)
    ensures done ==> exists n: nat :: EndsAt(buf[..], n) && IsStringAt(mem, addr, buf[..n])
    ensures !done ==>
      && Word(mem, addr, read / WORD).Some? && 0 !in Word(mem, addr, read / WORD).value
      && buf[..read + WORD] == WordsUpTo(mem, addr, read / WORD) + Word(mem, addr, read / WORD).value
  {
    hide Plain, IsStringAt, WordsUpTo, EndsAt, Word;
    var i := read / WORD;
    var tmp, errno := Peek(mem, addr, i);
    if errno != 0 {
      buf[read] := 0;
      StringEndsUnread(mem, addr, i, buf[..]);
      return true;
    }
    CopyWord(buf, read, tmp);
    done := 0 in tmp;
    if done {
      StringEndsInWord(mem, addr, i, buf[..]);
    }
  }

  lemma FirstWord(mem: Memory, addr: nat)
    ensures Plain(mem, addr, 0) && WordsUpTo(mem, addr, 0) == []
    ensures Capacity(0) == FIRST_ALLOC && IsDoubling(FIRST_ALLOC) && Capacity(WORD) == FIRST_ALLOC
  {
  }

  lemma PlainStep(mem: Memory, addr: nat, k: nat)
    requires Plain(mem, addr, k) && Word(mem, addr, k).Some? && 0 !in Word(mem, addr, k).value
    ensures Plain(mem, addr, k + 1)
    ensures WordsUpTo(mem, addr, k + 1) == WordsUpTo(mem, addr, k) + Word(mem, addr, k).value
  {
  }

  /** One doubling always makes room for the next word, and only a full buffer doubles. */
  lemma {:induction false} RoomForWord(size: nat, read: nat)
    requires read % WORD == 0 && read <= size == Capacity(read) && IsDoubling(size)
    ensures read + WORD <= size ==> Capacity(read + WORD) == size
    ensures read + WORD > size ==>
      read == size && Capacity(read + WORD) == 2 * size && IsDoubling(2 * size)
  {
    DoublingIsWords(size);
    if read + WORD <= size {
      CapacityKeeps(FIRST_ALLOC, read, read + WORD);
    } else {
      CapacityStep(FIRST_ALLOC, size, read + WORD);
    }
  }

  /** memcpy of one word. */
  method CopyWord(buf: array<Byte>, at: nat, w: seq<Byte>)
    requires |w| == WORD && at + WORD <= buf.Length
    modifies buf
    ensures buf[..at] == old(buf[..at]) && buf[at..at + WORD] == w
    ensures buf[..at + WORD] == old(buf[..at]) + w
  {
    forall j | 0 <= j < WORD {
      buf[at + j] := w[j];
    }
    assert buf[..at + WORD] == buf[..at] + buf[at..at + WORD];
  }

  lemma {:induction false} CapacityMono(b: nat, n: nat, m: nat)
    requires 0 < b && n <= m
    ensures GrownFrom(b, n) <= GrownFrom(b, m)
    decreases n - b
  {
    if n > b {
      CapacityMono(2 * b, n, m);
    }
  }

  lemma {:induction false} NothingFits(mem: Memory, addr: nat, i: nat, limit: nat)
    requires Plain(mem, addr, i) && Capacity(WORD * i + WORD) > limit
    ensures forall k: nat :: Stops(mem, addr, k) ==> Capacity(WORD * k + WORD) > limit
  {
    forall k: nat | Stops(mem, addr, k) ensures Capacity(WORD * k + WORD) > limit {
      StopNotAfter(mem, addr, k, i);
      CapacityMono(FIRST_ALLOC, WORD * i + WORD, WORD * k + WORD);
    }
  }

  /** The `k`-th word cannot be read: the NUL written in its place ends the string. */
  lemma {:induction false} StringEndsUnread(mem: Memory, addr: nat, k: nat, s: seq<Byte>)
    requires Plain(mem, addr, k) && Word(mem, addr, k).None?
    requires WORD * k < |s| && s[..WORD * k] == WordsUpTo(mem, addr, k) && s[WORD * k] == 0
    ensures EndsAt(s, WORD * k) && IsStringAt(mem, addr, s[..WORD * k]) && Stops(mem, addr, k)
  {
    WordsAt(mem, addr, k);
    ByWords(mem, addr, s[..WORD * k]);
  }

  /** The first NUL of a sequence that has one. */
  ghost function FirstNul(w: seq<Byte>): (n: nat)
    requires 0 in w
    ensures EndsAt(w, n)
  {
    if w[0] == 0 then 0 else
      var n := FirstNul(w[1..]);
      assert w[..n + 1] == [w[0]] + w[1..][..n];
      n + 1
  }

  /** The `k`-th word holds a NUL: the string ends inside it. */
  lemma {:induction false} StringEndsInWord(mem: Memory, addr: nat, k: nat, s: seq<Byte>)
    requires Plain(mem, addr, k) && Word(mem, addr, k).Some? && 0 in Word(mem, addr, k).value
    requires WORD * k + WORD <= |s|
    requires s[..WORD * k + WORD] == WordsUpTo(mem, addr, k) + Word(mem, addr, k).value
    ensures exists n: nat :: EndsAt(s, n) && IsStringAt(mem, addr, s[..n])
    ensures Stops(mem, addr, k)
  {
    var w := Word(mem, addr, k).value;
    var n := FirstNul(w);
    var m := WORD * k + n;
    WordsAt(mem, addr, k);
    var u := WordsUpTo(mem, addr, k) + w;
    assert s[..m] == u[..m] == WordsUpTo(mem, addr, k) + w[..n];
    assert s[m] == u[m] == w[n];
    assert EndsAt(s, m);
    assert m / WORD == k && m % WORD == n;
    assert InWords(mem, addr, s[..m]);
    ByWords(mem, addr, s[..m]);
  }
}
