/**
 What the readers of `Decoding` make of bytes that stand at some place in a buffer.
 */
module Reading {
  import opened BigIntegers
  import opened Bytes
  import opened Decoding
  import opened Encoding
  import opened Normal
  import opened Tags
  import opened Terms
  import opened Wrappers

  // --------------------------------------------------------------------------
  // Reading what stands at a position
  // --------------------------------------------------------------------------

  lemma Read8At(src: Source, o: nat, b: byte)
    requires ByteAt(src.bytes, o, b)
    ensures Read8(src, Good(o)) == Step(b, Good(o + 1))
  {
  }

  lemma Read16At(src: Source, o: nat, n: u16)
    requires At(src.bytes, o, Store16(n))
    ensures Read16(src, Good(o)) == Step(n, Good(o + 2))
  {
    AtIsSlice(src.bytes, o, Store16(n));
    LoadStore16(n);
  }

  lemma Read32At(src: Source, o: nat, n: int)
    requires At(src.bytes, o, Store32(n))
    ensures Read32(src, Good(o)) == Step(n % TWO_TO_32, Good(o + 4))
  {
    AtIsSlice(src.bytes, o, Store32(n));
    LoadStore32(n);
  }

  lemma Read64At(src: Source, o: nat, n: u64)
    requires At(src.bytes, o, Store64(n))
    ensures Read64(src, Good(o)) == Step(n, Good(o + 8))
  {
    AtIsSlice(src.bytes, o, Store64(n));
    LoadStore64(n);
  }

  /**
   A read of `k` bytes that gave `value` and `next`: the number whose bytes stand there, and the cursor behind
   them; or an error, without moving, if there are fewer than `k` bytes.
   */
  predicate ReadsNumber(src: Source, c: Cursor, k: nat, value: nat, next: Cursor) {
    if c.offset + k <= |src.bytes| then At(src.bytes, c.offset, Store(value, k)) && next == c.Skip(k)
    else value == 0 && next == c.Throw()
  }

  lemma NumberStands(src: Source, c: Cursor, k: nat)
    requires c.offset + k <= |src.bytes|
    ensures At(src.bytes, c.offset, Store(Load(src.bytes[c.offset..c.offset + k]), k))
  {
    var part := src.bytes[c.offset..c.offset + k];
    StoreLoad(part);
    AtIsSlice(src.bytes, c.offset, part);
  }

  /** All four reads, at any cursor, with or without an error before. */
  lemma FixedWidthReads(src: Source, c: Cursor)
    requires Within(src, c)
    ensures ReadsNumber(src, c, 1, Read8(src, c).value, Read8(src, c).next)
    ensures ReadsNumber(src, c, 2, Read16(src, c).value, Read16(src, c).next)
    ensures ReadsNumber(src, c, 4, Read32(src, c).value, Read32(src, c).next)
    ensures ReadsNumber(src, c, 8, Read64(src, c).value, Read64(src, c).next)
  {
    if c.offset + 1 <= |src.bytes| {
      var b := src.bytes[c.offset];
      assert Store(b, 1) == [b];
      AtSingle(src.bytes, c.offset, b);
    }
    if c.offset + 2 <= |src.bytes| {
      NumberStands(src, c, 2);
    }
    if c.offset + 4 <= |src.bytes| {
      NumberStands(src, c, 4);
    }
    if c.offset + 8 <= |src.bytes| {
      NumberStands(src, c, 8);
    }
  }

  lemma ReadWordAt(src: Source, o: nat, n: u32)
    requires At(src.bytes, o, Store32(n))
    ensures o + 4 <= |src.bytes| && Read32(src, Good(o)) == Step(n, Good(o + 4))
  {
    Read32At(src, o, n);
    AtIsSlice(src.bytes, o, Store32(n));
  }

  lemma ReadHalfAt(src: Source, o: nat, n: u16)
    requires At(src.bytes, o, Store16(n))
    ensures o + 2 <= |src.bytes| && Read16(src, Good(o)) == Step(n, Good(o + 2))
  {
    Read16At(src, o, n);
    AtIsSlice(src.bytes, o, Store16(n));
  }

  lemma UnpackTag(src: Source, o: nat, tag: byte)
    requires ByteAt(src.bytes, o, tag)
    ensures Unpack(src, Good(o)) == Dispatch(src, Good(o + 1), tag)
  {
    Read8At(src, o, tag);
  }

  lemma HeaderAt(src: Source, o: nat, tag: byte, count: nat)
    requires At(src.bytes, o, Header(tag, count)) && count < TWO_TO_32
    ensures ByteAt(src.bytes, o, tag)
    ensures Read32(src, Good(o + 1)) == Step(count, Good(o + 5))
  {
    AtTail(src.bytes, o, tag, Store32(count));
    ReadWordAt(src, o + 1, count);
  }

  lemma ReadStringAt(src: Source, o: nat, s: seq<byte>)
    requires |s| < TWO_TO_32 && At(src.bytes, o, s)
    ensures ReadString(src, Good(o), |s|) == Step(Some(s), Good(o + |s|))
  {
    AtIsSlice(src.bytes, o, s);
  }

  lemma {:induction false} ReadDigitsAt(src: Source, o: nat, ds: seq<byte>)
    requires At(src.bytes, o, ds)
    ensures ReadDigits(src, Good(o), |ds|) == Step(ds, Good(o + |ds|))
  {
    if ds != [] {
      var k := |ds| - 1;
      assert ds == ds[..k] + [ds[k]];
      AtConcat(src.bytes, o, ds[..k], [ds[k]]);
      ReadDigitsAt(src, o, ds[..k]);
      AtSingle(src.bytes, o + k, ds[k]);
      Read8At(src, o + k, ds[k]);
    }
  }

  // --------------------------------------------------------------------------
  // Terms without subterms
  // --------------------------------------------------------------------------

  lemma SmallIntegerAt(src: Source, o: nat, b: byte)
    requires At(src.bytes, o, [SMALL_INTEGER_EXT, b])
    ensures ByteAt(src.bytes, o, SMALL_INTEGER_EXT)
    ensures DecodeSmallInteger(src, Good(o + 1)) == Step(SInt(b), Good(o + 2))
  {
    assert [SMALL_INTEGER_EXT, b] == [SMALL_INTEGER_EXT] + [b];
    AtTail(src.bytes, o, SMALL_INTEGER_EXT, [b]);
    AtSingle(src.bytes, o + 1, b);
    Read8At(src, o + 1, b);
  }

  lemma IntegerAt(src: Source, o: nat, i: i32)
    requires At(src.bytes, o, [INTEGER_EXT] + Store32(i))
    ensures ByteAt(src.bytes, o, INTEGER_EXT)
    ensures DecodeInteger(src, Good(o + 1)) == Step(SInt(i), Good(o + 5))
  {
    AtTail(src.bytes, o, INTEGER_EXT, Store32(i));
    Read32At(src, o + 1, i);
  }

  lemma DoubleAt(src: Source, o: nat, bits: u64)
    requires At(src.bytes, o, [NEW_FLOAT_EXT] + Store64(bits))
    ensures ByteAt(src.bytes, o, NEW_FLOAT_EXT)
    ensures DecodeNewFloat(src, Good(o + 1)) == Step(Double(bits), Good(o + 9))
  {
    AtTail(src.bytes, o, NEW_FLOAT_EXT, Store64(bits));
    Read64At(src, o + 1, bits);
  }

  lemma SmallAtomAt(src: Source, o: nat, name: seq<byte>)
    requires |name| < 0x100 && At(src.bytes, o, SmallAtom(name))
    ensures ByteAt(src.bytes, o, SMALL_ATOM_EXT)
    ensures DecodeSmallAtom(src, Good(o + 1)) == Step(ProcessAtom(Some(name)), Good(o + |SmallAtom(name)|))
  {
    assert SmallAtom(name) == [SMALL_ATOM_EXT] + ([|name|] + name);
    AtTail(src.bytes, o, SMALL_ATOM_EXT, [|name|] + name);
    AtTail(src.bytes, o + 1, |name|, name);
    Read8At(src, o + 1, |name|);
    ReadStringAt(src, o + 2, name);
  }

  lemma StringAt(src: Source, o: nat, s: seq<byte>)
    requires |s| < TWO_TO_32 && At(src.bytes, o, Header(BINARY_EXT, |s|) + s)
    ensures ByteAt(src.bytes, o, BINARY_EXT)
    ensures DecodeBinaryAsString(src, Good(o + 1)) == Step(Str(s), Good(o + 5 + |s|))
  {
    AtConcat(src.bytes, o, Header(BINARY_EXT, |s|), s);
    HeaderAt(src, o, BINARY_EXT, |s|);
    ReadStringAt(src, o + 5, s);
  }

  lemma BigLayout(src: Source, o: nat, d: int)
    requires -TWO_TO_64 < d < TWO_TO_64 && At(src.bytes, o, EncBig(d))
    ensures var ds := Digits(if d < 0 then -d else d);
            && |ds| <= 8 && |EncBig(d)| == 3 + |ds|
            && ByteAt(src.bytes, o, SMALL_BIG_EXT)
            && ByteAt(src.bytes, o + 1, |ds|)
            && ByteAt(src.bytes, o + 2, if d < 0 then 1 else 0)
            && At(src.bytes, o + 3, ds)
  {
    var ds := Digits(if d < 0 then -d else d);
    var sign: byte := if d < 0 then 1 else 0;
    BigDataOfDigits(d);
    var head: seq<byte> := [SMALL_BIG_EXT, |ds|, sign];
    AtConcat(src.bytes, o, head, ds);
    AtIsSlice(src.bytes, o, head);
    assert forall k :: 0 <= k < 3 ==> src.bytes[o..o + 3][k] == head[k];
  }

  lemma DecodeBigAt(src: Source, o: nat, sign: byte, ds: seq<byte>)
    requires |ds| <= 8
    requires ByteAt(src.bytes, o, |ds|) && ByteAt(src.bytes, o + 1, sign) && At(src.bytes, o + 2, ds)
    ensures DecodeSmallBig(src, Good(o)) == Step(BigData(sign, ds), Good(o + 2 + |ds|))
  {
    Read8At(src, o, |ds|);
    Read8At(src, o + 1, sign);
    ReadDigitsAt(src, o + 2, ds);
  }

  /** `decodeSmallBig` on the bytes of any integer the writers can encode. */
  lemma BigAt(src: Source, o: nat, d: int)
    requires -TWO_TO_64 < d < TWO_TO_64 && At(src.bytes, o, EncBig(d))
    ensures ByteAt(src.bytes, o, SMALL_BIG_EXT)
    ensures DecodeSmallBig(src, Good(o + 1)) == Step(BigForm(d), Good(o + |EncBig(d)|))
  {
    BigLayout(src, o, d);
    BigDataOfDigits(d);
    DecodeBigAt(src, o + 1, if d < 0 then 1 else 0, Digits(if d < 0 then -d else d));
  }

  // --------------------------------------------------------------------------
  // Terms with subterms
  // --------------------------------------------------------------------------

  lemma NilAt(src: Source, o: nat)
    requires ByteAt(src.bytes, o, NIL_EXT)
    ensures Unpack(src, Good(o)) == Step(Arr([]), Good(o + 1))
  {
    UnpackTag(src, o, NIL_EXT);
  }

  lemma UnpackMap(src: Source, o: nat, r: Step<Data>)
    requires ByteAt(src.bytes, o, MAP_EXT) && o + 1 <= |src.bytes| && DecodeMap(src, Good(o + 1)) == r
    ensures Unpack(src, Good(o)) == r
  {
    UnpackTag(src, o, MAP_EXT);
  }

  lemma DecodeListAt(src: Source, o: nat, count: u32, items: seq<Data>, end: nat)
    requires o + 4 <= |src.bytes| && Read32(src, Good(o)) == Step(count, Good(o + 4))
    requires DecodeArray(src, Good(o + 4), count, []) == Step(Arr(items), Good(end))
    requires ByteAt(src.bytes, end, NIL_EXT)
    ensures DecodeList(src, Good(o)) == Step(Arr(items), Good(end + 1))
  {
    Read8At(src, end, NIL_EXT);
  }

  lemma DecodeMapAt(src: Source, o: nat, count: u32, pairs: seq<Pair>, end: nat)
    requires o + 4 <= |src.bytes| && Read32(src, Good(o)) == Step(count, Good(o + 4))
    requires ReadPairs(src, Good(o + 4), count, []) == Step(Some(pairs), Good(end))
    ensures DecodeMap(src, Good(o)) == Step(MapOf(pairs), Good(end))
  {
  }
}
