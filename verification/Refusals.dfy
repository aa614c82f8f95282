/** What the decoder refuses, and what it delivers then. */
module Refusals {
  import opened Bytes
  import opened Decoding
  import opened Encoding
  import opened Reading
  import opened Tags
  import opened Terms
  import opened WireForms
  import opened Wrappers

  /** A message is refused at its first byte unless that is 131; then nothing in it is decoded. */
  lemma VersionRefused(src: Source)
    ensures Start(src, false).invalid <==> src.bytes == [] || src.bytes[0] != 131
    ensures !Start(src, false).invalid ==> Start(src, false) == Good(1)
    ensures Start(src, true) == Good(0)
    ensures Start(src, false).invalid ==>
              Unpack(src, Start(src, false)) == Step(Undefined, Start(src, false))
  {
  }

  /** The numbers of the tags that are decoded. */
  predicate IsKnownTag(b: byte) {
    b == 70 || 97 <= b <= 111 || 113 <= b <= 116
  }

  /** Once an error is seen nothing more is read; at the end of the buffer there is nothing to read. */
  lemma NothingToRead(src: Source, c: Cursor)
    requires Within(src, c)
    ensures c.invalid ==> Unpack(src, c) == Step(Undefined, c)
    ensures !c.invalid && c.offset == |src.bytes| ==> Unpack(src, c) == Step(Undefined, c.Throw())
  {
  }

  /** Any other byte in place of a tag is refused; only 80, COMPRESSED, is another matter. */
  lemma TagRefused(src: Source, o: nat, tag: byte)
    requires ByteAt(src.bytes, o, tag) && !IsKnownTag(tag)
    ensures Unpack(src, Good(o)) == Step(Undefined, Cursor(o + 1, true, tag == 80))
  {
    UnpackTag(src, o, tag);
  }

  /** The cursor stands at no tail marker, which is 106: at another byte, or at the end of the buffer. */
  predicate NoTailAt(src: Source, i: nat) {
    i == |src.bytes| || (i < |src.bytes| && src.bytes[i] != 106)
  }

  lemma ListWithoutTail(src: Source, o: nat, ts: seq<Term>)
    requires |ts| < TWO_TO_32 && forall t :: t in ts ==> IsTerm(src.scanFloat, t)
    requires At(src.bytes, o, Header(108, |ts|) + Words(ts)) && NoTailAt(src, o + 5 + |Words(ts)|)
    ensures ByteAt(src.bytes, o, 108)
    ensures var r := DecodeList(src, Good(o + 1));
            r.value == Null && r.next.invalid && !r.next.compressed
  {
    CountedLayout(src, o, 108, ts);
    WordsAt(src, o + 5, ts);
    ListRefused(src, Good(o + 1), Step(|ts|, Good(o + 5)), Step(Arr(Values(ts)), Good(o + 5 + |Words(ts)|)));
  }

  /** The elements of a list without its tail marker are not delivered. */
  lemma TailRefused(src: Source, o: nat, ts: seq<Term>)
    requires |ts| < TWO_TO_32 && forall t :: t in ts ==> IsTerm(src.scanFloat, t)
    requires At(src.bytes, o, Header(108, |ts|) + Words(ts)) && NoTailAt(src, o + 5 + |Words(ts)|)
    ensures var r := Unpack(src, Good(o));
            r.value == Null && r.next.invalid && !r.next.compressed
  {
    ListWithoutTail(src, o, ts);
    UnpackTag(src, o, 108);
  }

  lemma ListRefused(src: Source, c: Cursor, length: Step<u32>, items: Step<Data>)
    requires Within(src, c) && Read32(src, c) == length && DecodeArray(src, length.next, length.value, []) == items
    requires !items.next.invalid && NoTailAt(src, items.next.offset)
    ensures var r := DecodeList(src, c);
            r.value == Null && r.next.invalid && !r.next.compressed
  {
  }

  /** A tuple or a map with an element that fails is not delivered either. */
  lemma {:induction false} PartsRefused(src: Source, c: Cursor, count: nat, filled: seq<Data>)
    requires Within(src, c)
    ensures var r := DecodeArray(src, c, count, filled);
            r.next.invalid && !c.invalid ==> r.value == Undefined
    decreases count
  {
    if count > 0 {
      var item := Unpack(src, c);
      if !item.next.invalid {
        PartsRefused(src, item.next, count - 1, filled + [item.value]);
      }
    }
  }

  lemma {:induction false} PairsRefused(src: Source, c: Cursor, count: nat, read: seq<Pair>)
    requires Within(src, c)
    ensures var r := ReadPairs(src, c, count, read);
            r.next.invalid && !c.invalid ==> r.value == None
    decreases count
  {
    if count > 0 {
      var pair := UnpackPair(src, c);
      if !pair.next.invalid {
        PairsRefused(src, pair.next, count - 1, read + [pair.value]);
      }
    }
  }

  /** A failed SMALL_TUPLE_EXT, LARGE_TUPLE_EXT or MAP_EXT (104, 105, 116) delivers Undefined. */
  lemma CompoundRefused(src: Source, o: nat, tag: byte)
    requires ByteAt(src.bytes, o, tag) && (tag == 104 || tag == 105 || tag == 116)
    requires Unpack(src, Good(o)).next.invalid
    requires tag == 104 ==> !Read8(src, Good(o + 1)).next.invalid
    requires tag != 104 ==> !Read32(src, Good(o + 1)).next.invalid
    ensures Unpack(src, Good(o)).value == Undefined
  {
    UnpackTag(src, o, tag);
    if tag == 104 {
      var length := Read8(src, Good(o + 1));
      PartsRefused(src, length.next, length.value, []);
    } else if tag == 105 {
      var length := Read32(src, Good(o + 1));
      PartsRefused(src, length.next, length.value, []);
    } else {
      var length := Read32(src, Good(o + 1));
      PairsRefused(src, length.next, length.value, []);
    }
  }

  /** A binary (109), an atom (100, 115) or a float (99) that goes past the end of the buffer gives Undefined. */
  lemma ShortRefused(src: Source, o: nat, tag: byte, length: Step<u32>)
    requires ByteAt(src.bytes, o, tag)
    requires || (tag == 109 && o + 5 <= |src.bytes| && Read32(src, Good(o + 1)) == length)
             || (tag == 100 && o + 3 <= |src.bytes| && length == Step(Read16(src, Good(o + 1)).value, Good(o + 3)))
             || (tag == 115 && o + 2 <= |src.bytes| && length == Step(Read8(src, Good(o + 1)).value, Good(o + 2)))
             || (tag == 99 && length == Step(31, Good(o + 1)))
    requires length.next.offset + length.value > |src.bytes|
    ensures Unpack(src, Good(o)) == Step(Undefined, length.next.Throw())
  {
    UnpackTag(src, o, tag);
  }

  /** A big integer of more than eight digits is refused behind its sign. */
  lemma BigRefused(src: Source, c: Cursor, digits: u32)
    requires Within(src, c) && c.offset < |src.bytes| && digits > 8
    ensures DecodeBig(src, c, digits) == Step(Null, c.Skip(1).Throw())
  {
  }

  /** FLOAT_EXT, which is 99: its 31 characters are read as a double, or there is an error. */
  lemma FloatRead(src: Source, o: nat, text: seq<byte>)
    requires ByteAt(src.bytes, o, 99) && |text| == 31 && At(src.bytes, o + 1, text)
    ensures Unpack(src, Good(o))
         == match src.scanFloat(text)
            case Some(bits) => Step(Double(bits), Good(o + 32))
            case None => Step(Null, Cursor(o + 32, true, false))
  {
    UnpackTag(src, o, 99);
    ReadStringAt(src, o + 1, text);
  }
}
