/**
 The growable output buffer and the term writers over it (include/etf/encode_func.h).
 */
module Buffers {
  import opened BigIntegers
  import opened Bytes
  import opened Encoding
  import opened Sequences
  import opened Tags

  const INITIAL_BUFFER_SIZE: nat := 1024 * 1024

  // --------------------------------------------------------------------------
  // Growth, on numbers alone
  // --------------------------------------------------------------------------

  /** `moved` adds up the sizes of all blocks that `realloc` had to carry over. */
  datatype Shape = Shape(length: nat, capacity: nat, moved: nat)

  /** One `erlpack_buffer_write` of `l` bytes; `granted` is the answer of `realloc`, if it is asked. */
  function Grow(s: Shape, l: nat, granted: bool): Shape {
    if s.length + l <= s.capacity then s.(length := s.length + l)
    else if granted then Shape(s.length + l, (s.length + l) * 2, s.moved + s.capacity)
    else s
  }

  function GrowAll(s: Shape, writes: seq<(nat, bool)>): Shape
    decreases |writes|
  {
    if writes == [] then s else GrowAll(Grow(s, writes[0].0, writes[0].1), writes[1..])
  }

  /** A buffer that has never grown, or has grown to at most twice what it holds. */
  predicate Economical(s: Shape) {
    && s.length <= s.capacity
    && ((s.capacity == INITIAL_BUFFER_SIZE && s.moved == 0)
        || (INITIAL_BUFFER_SIZE < s.capacity <= 2 * s.length && s.moved <= s.capacity))
  }

  lemma GrowKeepsEconomical(s: Shape, l: nat, granted: bool)
    requires Economical(s)
    ensures Economical(Grow(s, l, granted))
  {
  }

  /**
   Over any sequence of writes to a new buffer, with `realloc` refusing whenever it likes, at most two
   bytes are carried over for each byte held, and at most twice the bytes held are reserved.
   */
  lemma {:induction false} AmortisedGrowth(s: Shape, writes: seq<(nat, bool)>)
    requires Economical(s)
    ensures var t := GrowAll(s, writes);
            && Economical(t)
            && t.moved <= 2 * t.length
            && t.capacity <= Max(INITIAL_BUFFER_SIZE, 2 * t.length)
            && t.length >= s.length
    decreases |writes|
  {
    if writes != [] {
      GrowKeepsEconomical(s, writes[0].0, writes[0].1);
      AmortisedGrowth(Grow(s, writes[0].0, writes[0].1), writes[1..]);
    }
  }

  function BytesOf(writes: seq<(nat, bool)>): nat {
    if writes == [] then 0 else writes[0].0 + BytesOf(writes[1..])
  }

  /** As long as the bytes fit the first block, of 2^20 bytes, no other is asked for. */
  lemma {:induction false} FirstBlockServes(s: Shape, writes: seq<(nat, bool)>)
    requires s.length + BytesOf(writes) <= s.capacity
    ensures GrowAll(s, writes) == Shape(s.length + BytesOf(writes), s.capacity, s.moved)
    ensures INITIAL_BUFFER_SIZE == 1048576
    decreases |writes|
  {
    if writes != [] {
      FirstBlockServes(Grow(s, writes[0].0, writes[0].1), writes[1..]);
    }
  }

  // --------------------------------------------------------------------------
  // What a writer does to a buffer
  // --------------------------------------------------------------------------

  /** The contents of a buffer, and how often `realloc` has been asked. */
  datatype Snapshot = Snapshot(contents: seq<byte>, calls: nat)

  /** Every request for memory between the two snapshots was granted. */
  predicate AllGranted(grants: nat -> bool, s: Snapshot, t: Snapshot) {
    forall i: nat | s.calls <= i < t.calls :: grants(i)
  }

  /** The buffer holds what it held before and, behind that, a prefix of `word`. */
  predicate Extends(s: Snapshot, t: Snapshot, word: seq<byte>) {
    && s.calls <= t.calls
    && |s.contents| <= |t.contents| <= |s.contents| + |word|
    && t.contents == s.contents + word[..|t.contents| - |s.contents|]
  }

  /** All of `word` was appended, or memory was refused and only a prefix of it was. */
  predicate Wrote(grants: nat -> bool, s: Snapshot, t: Snapshot, word: seq<byte>, ok: bool) {
    && Extends(s, t, word)
    && (ok ==> t.contents == s.contents + word)
    && (ok <==> AllGranted(grants, s, t))
  }

  lemma {:induction false} ExtendsNothing(s: Snapshot, word: seq<byte>)
    ensures Extends(s, s, word)
  {
    assert s.contents + word[..0] == s.contents;
  }

  /** One write: everything fitted, or the one request for memory was granted. */
  lemma WroteWhole(grants: nat -> bool, s: Snapshot, t: Snapshot, word: seq<byte>)
    requires t.contents == s.contents + word
    requires t.calls == s.calls || (t.calls == s.calls + 1 && grants(s.calls))
    ensures Wrote(grants, s, t, word, true)
  {
    assert word[..|word|] == word;
  }

  /** One write whose request for memory was refused. */
  lemma WroteNothing(grants: nat -> bool, s: Snapshot, t: Snapshot, word: seq<byte>)
    requires t.contents == s.contents && t.calls == s.calls + 1 && !grants(s.calls)
    ensures Wrote(grants, s, t, word, false)
  {
    assert s.contents + word[..0] == s.contents;
    assert !AllGranted(grants, s, t) by {
      assert s.calls <= s.calls < t.calls;
    }
  }

  /** A prefix of `b` behind all of `a` is a prefix of `a + b + c`. */
  lemma ExtendsBehind(s: Snapshot, m: Snapshot, t: Snapshot, a: seq<byte>, b: seq<byte>, c: seq<byte>)
    requires s.calls <= m.calls && m.contents == s.contents + a
    requires Extends(m, t, b)
    ensures Extends(s, t, a + b + c)
  {
    var k := |t.contents| - |m.contents|;
    assert (a + b + c)[..|a| + k] == a + b[..k];
    assert s.contents + (a + b[..k]) == (s.contents + a) + b[..k];
  }

  lemma WroteBoth(grants: nat -> bool, s: Snapshot, m: Snapshot, t: Snapshot, a: seq<byte>, b: seq<byte>, ok: bool)
    requires Wrote(grants, s, m, a, true) && Wrote(grants, m, t, b, ok)
    ensures Wrote(grants, s, t, a + b, ok)
  {
    ExtendsBehind(s, m, t, a, b, []);
    assert a + b + [] == a + b;
    ConcatAssociative(s.contents, a, b);
  }

  lemma WroteFirstOnly(grants: nat -> bool, s: Snapshot, t: Snapshot, a: seq<byte>, b: seq<byte>)
    requires Wrote(grants, s, t, a, false)
    ensures Wrote(grants, s, t, a + b, false)
  {
    var k := |t.contents| - |s.contents|;
    assert (a + b)[..k] == a[..k];
  }

  /** `erlpack_buffer`. The answer of the i-th call of `realloc` is `grants(i)`. */
  class Buffer {
    var buf: array<byte>
    var length: nat
    var allocatedSize: nat
    var calls: nat
    ghost var moved: nat
    const grants: nat -> bool

    ghost predicate Valid()
      reads this, buf
    {
      allocatedSize == buf.Length && Economical(Measure())
    }

    ghost function Measure(): Shape
      reads this
    {
      Shape(length, allocatedSize, moved)
    }

    ghost function State(): Snapshot
      reads this, buf
      requires Valid()
    {
      Snapshot(buf[..length], calls)
    }

    constructor (grants: nat -> bool)
      ensures Valid() && fresh(buf) && this.grants == grants
      ensures State() == Snapshot([], 0)
    {
      buf := new byte[INITIAL_BUFFER_SIZE];
      length := 0;
      allocatedSize := INITIAL_BUFFER_SIZE;
      calls := 0;
      moved := 0;
      this.grants := grants;
    }

    /** `realloc`: null if memory is refused, else a larger block with the contents carried over. */
    method Realloc(newSize: nat) returns (newBuf: array?<byte>)
      requires length <= buf.Length <= newSize
      modifies this`calls
      ensures calls == old(calls) + 1
      ensures newBuf == null <==> !grants(old(calls))
      ensures newBuf != null ==> fresh(newBuf) && newBuf.Length == newSize && newBuf[..length] == buf[..length]
    {
      calls := calls + 1;
      if !grants(calls - 1) {
        return null;
      }
      newBuf := new byte[newSize];
      forall i | 0 <= i < length {
        newBuf[i] := buf[i];
      }
    }

    /** `erlpack_buffer_write`: a refused request leaves the old block and its contents in place. */
    method Write(bytes: seq<byte>) returns (ret: int)
      requires Valid()
      modifies this, buf
      ensures Valid() && (buf == old(buf) || fresh(buf))
      ensures Measure() == Grow(old(Measure()), |bytes|, grants(old(calls)))
      ensures calls == old(calls) + if old(length) + |bytes| <= old(allocatedSize) then 0 else 1
      ensures ret == 0 || (ret == -1 && State().contents == old(State().contents) && buf == old(buf))
      ensures Wrote(grants, old(State()), State(), bytes, ret == 0)
    {
      ghost var before := buf[..length];
      var newBuf, newSize := buf, allocatedSize;
      if length + |bytes| > allocatedSize {
        newSize := (length + |bytes|) * 2;
        var block := Realloc(newSize);
        if block == null {
          WroteNothing(grants, old(State()), State(), bytes);
          return -1;
        }
        newBuf := block;
        moved := moved + allocatedSize;
      }
      CopyInto(newBuf, length, bytes);
      assert newBuf[..length + |bytes|] == before + bytes;
      buf, allocatedSize, length := newBuf, newSize, length + |bytes|;
      WroteWhole(grants, old(State()), State(), bytes);
      return 0;
    }
  }

  /** `memcpy`. */
  method CopyInto(target: array<byte>, at: nat, bytes: seq<byte>)
    requires at + |bytes| <= target.Length
    modifies target
    ensures target[..at] == old(target[..at])
    ensures target[at..at + |bytes|] == bytes
  {
    forall i | 0 <= i < |bytes| {
      target[at + i] := bytes[i];
    }
  }

  // --------------------------------------------------------------------------
  // Term writers
  // --------------------------------------------------------------------------

  /** The macro `erlpack_append`. */
  method Append(b: Buffer, bytes: seq<byte>) returns (ret: int)
    requires b.Valid()
    modifies b, b.buf
    ensures b.Valid() && (b.buf == old(b.buf) || fresh(b.buf))
    ensures ret == 0 || ret == -1
    ensures Wrote(b.grants, old(b.State()), b.State(), bytes, ret == 0)
  {
    ret := b.Write(bytes);
  }

  /** `erlpack_append_binary`: a header, then the bytes; the second write may fail alone. */
  method AppendBinary(b: Buffer, bytes: seq<byte>) returns (ret: int)
    requires b.Valid()
    modifies b, b.buf
    ensures b.Valid() && (b.buf == old(b.buf) || fresh(b.buf))
    ensures ret == 0 || ret == -1
    ensures Wrote(b.grants, old(b.State()), b.State(), Header(BINARY_EXT, |bytes|) + bytes, ret == 0)
  {
    ghost var s := b.State();
    ret := b.Write(Header(BINARY_EXT, |bytes|));
    ghost var m := b.State();
    if ret < 0 {
      WroteFirstOnly(b.grants, s, m, Header(BINARY_EXT, |bytes|), bytes);
      return;
    }
    ret := b.Write(bytes);
    WroteBoth(b.grants, s, m, b.State(), Header(BINARY_EXT, |bytes|), bytes, ret == 0);
  }

  /** The loop both big-integer writers share: the digits of `n` go into `buf` from index 3 on. */
  method StoreDigits(buf: array<byte>, n: u64) returns (bytesEnc: byte)
    requires buf.Length == 11
    modifies buf
    ensures bytesEnc == |Digits(n)| <= 8
    ensures buf[3..3 + bytesEnc] == Digits(n)
    ensures buf[..3] == old(buf[..3])
  {
    PowerValues();
    DigitsLength(n, 8);
    bytesEnc := 0;
    var rest := n;
    assert buf[3..3] + Digits(rest) == Digits(n);
    while rest > 0
      invariant bytesEnc + |Digits(rest)| <= 8
      invariant buf[3..3 + bytesEnc] + Digits(rest) == Digits(n)
      invariant buf[..3] == old(buf[..3])
      decreases rest
    {
      ghost var done := buf[3..3 + bytesEnc];
      buf[3 + bytesEnc] := rest % 0x100;
      assert buf[3..3 + bytesEnc + 1] == done + [rest % 0x100];
      ConcatAssociative(done, [rest % 0x100], Digits(rest / 0x100));
      rest := rest / 0x100;
      bytesEnc := bytesEnc + 1;
    }
  }

  /** `erlpack_append_unsigned_long_long`. */
  method AppendUnsignedLongLong(b: Buffer, d: u64) returns (ret: int)
    requires b.Valid()
    modifies b, b.buf
    ensures b.Valid() && (b.buf == old(b.buf) || fresh(b.buf))
    ensures ret == 0 || ret == -1
    ensures Wrote(b.grants, old(b.State()), b.State(), EncBig(d), ret == 0)
  {
    var buf := new byte[11];
    buf[0] := SMALL_BIG_EXT;
    var bytesEnc := StoreDigits(buf, d);
    buf[1] := bytesEnc;
    buf[2] := 0;
    assert buf[..3 + bytesEnc] == EncBig(d);
    ret := b.Write(buf[..3 + bytesEnc]);
  }

  /** `erlpack_append_long_long`; negating the least 64-bit integer is undefined in C++. */
  method AppendLongLong(b: Buffer, d: int) returns (ret: int)
    requires -0x8000_0000_0000_0000 < d < 0x8000_0000_0000_0000
    requires b.Valid()
    modifies b, b.buf
    ensures b.Valid() && (b.buf == old(b.buf) || fresh(b.buf))
    ensures ret == 0 || ret == -1
    ensures Wrote(b.grants, old(b.State()), b.State(), EncBig(d), ret == 0)
  {
    var buf := new byte[11];
    buf[0] := SMALL_BIG_EXT;
    buf[2] := if d < 0 then 1 else 0;
    var bytesEnc := StoreDigits(buf, if d < 0 then -d else d);
    assert buf[2] == buf[..3][2] == if d < 0 then 1 else 0;
    buf[1] := bytesEnc;
    assert buf[..3 + bytesEnc] == EncBig(d);
    ret := b.Write(buf[..3 + bytesEnc]);
  }
}
