/**
 `Decoder` (include/etf/decoder.h): the reader with its moving offset and sticky flag, method by method
 proved to compute the function of the same name on cursors.
 */
module Decoders {
  import opened BigIntegers
  import opened Bytes
  import opened Decoding
  import opened Normal
  import opened Tags
  import opened Terms
  import opened Wrappers

  class Decoder {
    const data: array<byte>
    const size: nat
    const scanFloat: seq<byte> -> Option<u64>
    var isInvalid: bool
    var offset: nat
    var compressed: bool

    ghost predicate Valid()
      reads this, data
    {
      size <= data.Length && Within(Src(), Cur())
    }

    /** The first `size` bytes of the buffer, which no method changes. */
    ghost function Src(): Source
      reads this, data
      requires size <= data.Length
    {
      Source(data[..size], scanFloat)
    }

    ghost function Cur(): Cursor
      reads this
    {
      Cursor(offset, isInvalid, compressed)
    }

    /** The constructor checks the version byte unless told to skip it. */
    constructor (data: array<byte>, size: nat, skipVersion: bool, scanFloat: seq<byte> -> Option<u64>)
      requires size <= data.Length
      ensures this.data == data && this.size == size && this.scanFloat == scanFloat
      ensures Valid() && Cur() == Start(Src(), skipVersion)
    {
      this.data := data;
      this.size := size;
      this.scanFloat := scanFloat;
      isInvalid := false;
      offset := 0;
      compressed := false;
      new;
      if !skipVersion {
        var version := Read8();
        if version != FORMAT_VERSION {
          isInvalid := true;
        }
      }
    }

    method Read8() returns (val: byte)
      requires Valid()
      modifies this
      ensures Valid() && Step(val, Cur()) == Decoding.Read8(Src(), old(Cur()))
    {
      if offset + 1 > size {
        isInvalid := true;
        return 0;
      }
      val := data[offset];
      offset := offset + 1;
    }

    method Read16() returns (val: u16)
      requires Valid()
      modifies this
      ensures Valid() && Step(val, Cur()) == Decoding.Read16(Src(), old(Cur()))
    {
      if offset + 2 > size {
        isInvalid := true;
        return 0;
      }
      assert data[offset..offset + 2] == Src().bytes[offset..offset + 2];
      val := Load16(data[offset..offset + 2]);
      offset := offset + 2;
    }

    method Read32() returns (val: u32)
      requires Valid()
      modifies this
      ensures Valid() && Step(val, Cur()) == Decoding.Read32(Src(), old(Cur()))
    {
      if offset + 4 > size {
        isInvalid := true;
        return 0;
      }
      assert data[offset..offset + 4] == Src().bytes[offset..offset + 4];
      val := Load32(data[offset..offset + 4]);
      offset := offset + 4;
    }

    method Read64() returns (val: u64)
      requires Valid()
      modifies this
      ensures Valid() && Step(val, Cur()) == Decoding.Read64(Src(), old(Cur()))
    {
      if offset + 8 > size {
        isInvalid := true;
        return 0;
      }
      assert data[offset..offset + 8] == Src().bytes[offset..offset + 8];
      val := Load64(data[offset..offset + 8]);
      offset := offset + 8;
    }

    method ReadString(length: u32) returns (str: Option<seq<byte>>)
      requires Valid()
      modifies this
      ensures Valid() && Step(str, Cur()) == Decoding.ReadString(Src(), old(Cur()), length)
    {
      if offset + length > size {
        isInvalid := true;
        return None;
      }
      assert data[offset..offset + length] == Src().bytes[offset..offset + length];
      str := Some(data[offset..offset + length]);
      offset := offset + length;
    }

    method DecodeSmallInteger() returns (d: Data)
      requires Valid()
      modifies this
      ensures Valid() && Step(d, Cur()) == Decoding.DecodeSmallInteger(Src(), old(Cur()))
    {
      var n := Read8();
      d := SInt(n);
    }

    method DecodeInteger() returns (d: Data)
      requires Valid()
      modifies this
      ensures Valid() && Step(d, Cur()) == Decoding.DecodeInteger(Src(), old(Cur()))
    {
      var n := Read32();
      d := SInt(AsSigned(n));
    }

    method DecodeAtom() returns (d: Data)
      requires Valid()
      modifies this
      ensures Valid() && Step(d, Cur()) == Decoding.DecodeAtom(Src(), old(Cur()))
    {
      var length := Read16();
      var atom := ReadString(length);
      d := ProcessAtom(atom);
    }

    method DecodeSmallAtom() returns (d: Data)
      requires Valid()
      modifies this
      ensures Valid() && Step(d, Cur()) == Decoding.DecodeSmallAtom(Src(), old(Cur()))
    {
      var length := Read8();
      var atom := ReadString(length);
      d := ProcessAtom(atom);
    }

    method DecodeFloat() returns (d: Data)
      requires Valid()
      modifies this
      ensures Valid() && Step(d, Cur()) == Decoding.DecodeFloat(Src(), old(Cur()))
    {
      var floatStr := ReadString(FLOAT_LENGTH);
      if floatStr.None? {
        return Undefined;
      }
      var number := scanFloat(floatStr.value);
      if number.None? {
        isInvalid := true;
        return Null;
      }
      d := Double(number.value);
    }

    method DecodeNewFloat() returns (d: Data)
      requires Valid()
      modifies this
      ensures Valid() && Step(d, Cur()) == Decoding.DecodeNewFloat(Src(), old(Cur()))
    {
      var bits := Read64();
      d := Double(bits);
    }

    method DecodeBig(digits: u32) returns (d: Data)
      requires Valid()
      modifies this
      ensures Valid() && Step(d, Cur()) == Decoding.DecodeBig(Src(), old(Cur()), digits)
    {
      var sign := Read8();
      if digits > 8 {
        isInvalid := true;
        return Null;
      }
      ghost var read;
      var value: u64;
      value, read := ReadMagnitude(digits);
      DigitsFit(read);
      if digits <= 4 {
        if sign == 0 {
          return UInt(value);
        }
        var isSignBitAvailable := value < 0x8000_0000;
        if isSignBitAvailable {
          return SInt(Signed(sign, value));
        }
      }
      d := Str(SignedDecimal(sign, value));
    }

    /**
     The digit loop of `decodeBig`: `value` and `b` are 64-bit registers. The wrap-around of `b` after the
     eighth digit is the only one, and nothing reads it.
     */
    method ReadMagnitude(digits: u32) returns (value: u64, ghost read: seq<byte>)
      requires Valid() && digits <= 8
      modifies this
      ensures Valid() && Step(read, Cur()) == ReadDigits(Src(), old(Cur()), digits)
      ensures value == FromDigits(read)
    {
      read := [];
      value := 0;
      var b: u64 := 1;
      var i := 0;
      while i < digits
        invariant 0 <= i <= digits
        invariant Valid() && Step(read, Cur()) == ReadDigits(Src(), old(Cur()), i)
        invariant value == FromDigits(read)
        invariant b == Power256(i) % TWO_TO_64
      {
        var digit := Read8();
        AccumulateDigit(read, digit, value, b);
        read := read + [digit];
        value := (value + digit * b) % TWO_TO_64;
        b := b * 0x100 % TWO_TO_64;
        i := i + 1;
      }
    }

    method DecodeSmallBig() returns (d: Data)
      requires Valid()
      modifies this
      ensures Valid() && Step(d, Cur()) == Decoding.DecodeSmallBig(Src(), old(Cur()))
    {
      var bytes := Read8();
      d := DecodeBig(bytes);
    }

    method DecodeLargeBig() returns (d: Data)
      requires Valid()
      modifies this
      ensures Valid() && Step(d, Cur()) == Decoding.DecodeLargeBig(Src(), old(Cur()))
    {
      var bytes := Read32();
      d := DecodeBig(bytes);
    }

    method DecodeBinaryAsString() returns (d: Data)
      requires Valid()
      modifies this
      ensures Valid() && Step(d, Cur()) == Decoding.DecodeBinaryAsString(Src(), old(Cur()))
    {
      var length := Read32();
      var str := ReadString(length);
      if str.None? {
        return Undefined;
      }
      d := Str(str.value);
    }

    method DecodeStringAsList() returns (d: Data)
      requires Valid()
      modifies this
      ensures Valid() && Step(d, Cur()) == Decoding.DecodeStringAsList(Src(), old(Cur()))
    {
      var length := Read16();
      if offset + length > size {
        isInvalid := true;
        return Null;
      }
      ghost var start := Cur();
      var items: seq<Data> := [];
      var i := 0;
      while i < length
        invariant 0 <= i <= length && Valid()
        invariant ReadSmallIntegers(Src(), start, length, []) == ReadSmallIntegers(Src(), Cur(), length - i, items)
      {
        var item := DecodeSmallInteger();
        items := items + [item];
        i := i + 1;
      }
      d := Arr(items);
    }

    /** `decodeArray`. */
    method DecodeArray(length: u32) returns (d: Data)
      requires Valid()
      modifies this
      ensures Valid() && Step(d, Cur()) == Decoding.DecodeArray(Src(), old(Cur()), length, [])
      decreases size - offset, 2
    {
      ghost var start := Cur();
      var items: seq<Data> := [];
      var i := 0;
      while i < length
        invariant 0 <= i <= length && Valid() && offset >= start.offset
        invariant Decoding.DecodeArray(Src(), start, length, [])
               == Decoding.DecodeArray(Src(), Cur(), length - i, items)
      {
        var item := Unpack();
        if isInvalid {
          return Undefined;
        }
        items := items + [item];
        i := i + 1;
      }
      d := Arr(items);
    }

    method DecodeSmallTuple() returns (d: Data)
      requires Valid()
      modifies this
      ensures Valid() && Step(d, Cur()) == Decoding.DecodeSmallTuple(Src(), old(Cur()))
      decreases size - offset, 3
    {
      var length := Read8();
      d := DecodeArray(length);
    }

    method DecodeLargeTuple() returns (d: Data)
      requires Valid()
      modifies this
      ensures Valid() && Step(d, Cur()) == Decoding.DecodeLargeTuple(Src(), old(Cur()))
      decreases size - offset, 3
    {
      var length := Read32();
      d := DecodeArray(length);
    }

    method DecodeList() returns (d: Data)
      requires Valid()
      modifies this
      ensures Valid() && Step(d, Cur()) == Decoding.DecodeList(Src(), old(Cur()))
      decreases size - offset, 3
    {
      var length := Read32();
      d := DecodeArray(length);
      var tailMarker := Read8();
      if tailMarker != NIL_EXT {
        isInvalid := true;
        return Null;
      }
    }

    /** `decodeMap`: `map[key] = value` for each pair in turn. */
    method DecodeMap() returns (d: Data)
      requires Valid()
      modifies this
      ensures Valid() && Step(d, Cur()) == Decoding.DecodeMap(Src(), old(Cur()))
      decreases size - offset, 3
    {
      var length := Read32();
      ghost var start := Cur();
      ghost var read: seq<Pair> := [];
      var pairs: seq<Pair> := [];
      var i := 0;
      while i < length
        invariant 0 <= i <= length && Valid() && offset >= start.offset
        invariant ReadPairs(Src(), start, length, []) == ReadPairs(Src(), Cur(), length - i, read)
        invariant pairs == PutAll([], read)
      {
        var key := Unpack();
        var value := Unpack();
        if isInvalid {
          return Undefined;
        }
        PutAllSnoc([], read, Pair(key, value));
        read := read + [Pair(key, value)];
        pairs := Put(pairs, key, value);
        i := i + 1;
      }
      d := Map(pairs);
    }

    method DecodeReference() returns (d: Data)
      requires Valid()
      modifies this
      ensures Valid() && Step(d, Cur()) == Decoding.DecodeReference(Src(), old(Cur()))
      decreases size - offset, 3
    {
      var node := Unpack();
      var reference := Put([], NODE, node);
      ghost var p := Pair(NODE, node);
      FirstPut(p);
      var id := Read32();
      ghost var q := Pair(ID, Arr([UInt(id)]));
      NextPut([p], reference, q, [p, q]);
      reference := Put(reference, ID, Arr([UInt(id)]));
      var creation := Read8();
      ghost var r := Pair(CREATION, SInt(creation));
      NextPut([p, q], reference, r, [p, q, r]);
      reference := Put(reference, CREATION, SInt(creation));
      d := Map(reference);
    }

    method DecodeNewReference() returns (d: Data)
      requires Valid()
      modifies this
      ensures Valid() && Step(d, Cur()) == Decoding.DecodeNewReference(Src(), old(Cur()))
      decreases size - offset, 3
    {
      var length := Read16();
      var node := Unpack();
      var reference := Put([], NODE, node);
      ghost var p := Pair(NODE, node);
      FirstPut(p);
      var creation := Read8();
      ghost var q := Pair(CREATION, SInt(creation));
      NextPut([p], reference, q, [p, q]);
      reference := Put(reference, CREATION, SInt(creation));
      var ids := DecodeIds(length);
      ghost var r := Pair(ID, Arr(ids));
      NextPut([p, q], reference, r, [p, q, r]);
      reference := Put(reference, ID, Arr(ids));
      d := Map(reference);
    }

    /** The id loop of `decodeNewReference`. */
    method DecodeIds(length: u16) returns (ids: seq<Data>)
      requires Valid()
      modifies this
      ensures Valid() && Step(ids, Cur()) == ReadIds(Src(), old(Cur()), length, [])
    {
      ghost var start := Cur();
      ids := [];
      var i := 0;
      while i < length
        invariant 0 <= i <= length && Valid()
        invariant ReadIds(Src(), start, length, []) == ReadIds(Src(), Cur(), length - i, ids)
      {
        var id := Read32();
        ids := ids + [UInt(id)];
        i := i + 1;
      }
    }

    method DecodePort() returns (d: Data)
      requires Valid()
      modifies this
      ensures Valid() && Step(d, Cur()) == Decoding.DecodePort(Src(), old(Cur()))
      decreases size - offset, 3
    {
      var node := Unpack();
      var port := Put([], NODE, node);
      ghost var p := Pair(NODE, node);
      FirstPut(p);
      var id := Read32();
      ghost var q := Pair(ID, UInt(id));
      NextPut([p], port, q, [p, q]);
      port := Put(port, ID, UInt(id));
      var creation := Read8();
      ghost var r := Pair(CREATION, SInt(creation));
      NextPut([p, q], port, r, [p, q, r]);
      port := Put(port, CREATION, SInt(creation));
      d := Map(port);
    }

    method DecodePID() returns (d: Data)
      requires Valid()
      modifies this
      ensures Valid() && Step(d, Cur()) == Decoding.DecodePID(Src(), old(Cur()))
      decreases size - offset, 3
    {
      var node := Unpack();
      var pid := Put([], NODE, node);
      ghost var p := Pair(NODE, node);
      FirstPut(p);
      var id := Read32();
      ghost var q := Pair(ID, UInt(id));
      NextPut([p], pid, q, [p, q]);
      pid := Put(pid, ID, UInt(id));
      var serial := Read32();
      ghost var r := Pair(SERIAL, UInt(serial));
      NextPut([p, q], pid, r, [p, q, r]);
      pid := Put(pid, SERIAL, UInt(serial));
      var creation := Read8();
      ghost var s := Pair(CREATION, SInt(creation));
      NextPut([p, q, r], pid, s, [p, q, r, s]);
      pid := Put(pid, CREATION, SInt(creation));
      d := Map(pid);
    }

    method DecodeExport() returns (d: Data)
      requires Valid()
      modifies this
      ensures Valid() && Step(d, Cur()) == Decoding.DecodeExport(Src(), old(Cur()))
      decreases size - offset, 3
    {
      var mod := Unpack();
      var exp := Put([], MOD, mod);
      ghost var p := Pair(MOD, mod);
      FirstPut(p);
      var fun := Unpack();
      ghost var q := Pair(FUN, fun);
      NextPut([p], exp, q, [p, q]);
      exp := Put(exp, FUN, fun);
      var arity := Unpack();
      ghost var r := Pair(ARITY, arity);
      NextPut([p, q], exp, r, [p, q, r]);
      exp := Put(exp, ARITY, arity);
      d := Map(exp);
    }

    /** `unpack`: terminates on every buffer, since each nested call starts behind a tag that was read. */
    method Unpack() returns (d: Data)
      requires Valid()
      modifies this
      ensures Valid() && Step(d, Cur()) == Decoding.Unpack(Src(), old(Cur()))
      decreases size - offset, 0
    {
      if isInvalid {
        return Undefined;
      }
      if offset >= size {
        isInvalid := true;
        return Undefined;
      }
      var tag := Read8();
      if tag in [SMALL_INTEGER_EXT, INTEGER_EXT, FLOAT_EXT, NEW_FLOAT_EXT, ATOM_EXT, SMALL_ATOM_EXT, STRING_EXT,
                 BINARY_EXT, SMALL_BIG_EXT, LARGE_BIG_EXT] {
        d := DispatchLeaf(tag);
      } else if tag in [SMALL_TUPLE_EXT, LARGE_TUPLE_EXT, LIST_EXT, MAP_EXT, REFERENCE_EXT, NEW_REFERENCE_EXT,
                        PORT_EXT, PID_EXT, EXPORT_EXT] {
        d := DispatchCompound(tag);
      } else if tag == NIL_EXT {
        d := Arr([]);
      } else if tag == COMPRESSED {
        isInvalid := true;
        compressed := true;
        d := Undefined;
      } else {
        isInvalid := true;
        d := Undefined;
      }
    }

    /** The `switch` of `unpack` for the tags of terms without subterms. */
    method DispatchLeaf(tag: byte) returns (d: Data)
      requires Valid()
      requires tag in [SMALL_INTEGER_EXT, INTEGER_EXT, FLOAT_EXT, NEW_FLOAT_EXT, ATOM_EXT, SMALL_ATOM_EXT, STRING_EXT,
                       BINARY_EXT, SMALL_BIG_EXT, LARGE_BIG_EXT]
      modifies this
      ensures Valid() && Step(d, Cur()) == Dispatch(Src(), old(Cur()), tag)
    {
      if tag == SMALL_INTEGER_EXT { d := DecodeSmallInteger(); }
      else if tag == INTEGER_EXT { d := DecodeInteger(); }
      else if tag == FLOAT_EXT { d := DecodeFloat(); }
      else if tag == NEW_FLOAT_EXT { d := DecodeNewFloat(); }
      else if tag == ATOM_EXT { d := DecodeAtom(); }
      else if tag == SMALL_ATOM_EXT { d := DecodeSmallAtom(); }
      else if tag == STRING_EXT { d := DecodeStringAsList(); }
      else if tag == BINARY_EXT { d := DecodeBinaryAsString(); }
      else if tag == SMALL_BIG_EXT { d := DecodeSmallBig(); }
      else { d := DecodeLargeBig(); }
    }

    /** The `switch` of `unpack` for the tags of terms with subterms. */
    method DispatchCompound(tag: byte) returns (d: Data)
      requires Valid()
      requires tag in [SMALL_TUPLE_EXT, LARGE_TUPLE_EXT, LIST_EXT, MAP_EXT, REFERENCE_EXT, NEW_REFERENCE_EXT,
                       PORT_EXT, PID_EXT, EXPORT_EXT]
      modifies this
      ensures Valid() && Step(d, Cur()) == Dispatch(Src(), old(Cur()), tag)
      decreases size - offset, 5
    {
      if tag == SMALL_TUPLE_EXT { d := DecodeSmallTuple(); }
      else if tag == LARGE_TUPLE_EXT { d := DecodeLargeTuple(); }
      else if tag == LIST_EXT { d := DecodeList(); }
      else if tag == MAP_EXT { d := DecodeMap(); }
      else if tag == REFERENCE_EXT || tag == NEW_REFERENCE_EXT { d := DispatchReference(tag); }
      else { d := DispatchIdentifier(tag); }
    }

    /** The same for references of either kind. */
    method DispatchReference(tag: byte) returns (d: Data)
      requires Valid() && (tag == REFERENCE_EXT || tag == NEW_REFERENCE_EXT)
      modifies this
      ensures Valid() && Step(d, Cur()) == Dispatch(Src(), old(Cur()), tag)
      decreases size - offset, 4
    {
      if tag == REFERENCE_EXT {
        d := DecodeReference();
      } else {
        d := DecodeNewReference();
      }
    }

    /** The same for ports, pids and exports. */
    method DispatchIdentifier(tag: byte) returns (d: Data)
      requires Valid()
      requires tag == PORT_EXT || tag == PID_EXT || tag == EXPORT_EXT
      modifies this
      ensures Valid() && Step(d, Cur()) == Dispatch(Src(), old(Cur()), tag)
      decreases size - offset, 4
    {
      if tag == PORT_EXT { d := DecodePort(); }
      else if tag == PID_EXT { d := DecodePID(); }
      else { d := DecodeExport(); }
    }
  }

  /** One assignment after those of `ps`. */
  lemma NextPut(ps: seq<Pair>, m: seq<Pair>, p: Pair, next: seq<Pair>)
    requires m == PutAll([], ps) && next == ps + [p]
    ensures Put(m, p.key, p.value) == PutAll([], next)
  {
    PutAllSnoc([], ps, p);
  }

  lemma FirstPut(p: Pair)
    ensures Put([], p.key, p.value) == PutAll([], [p])
  {
    NextPut([], [], p, [p]);
  }

  /** One turn of the digit loop of `decodeBig` on 64-bit registers. */
  lemma AccumulateDigit(read: seq<byte>, digit: byte, value: u64, b: u64)
    requires |read| < 8 && value == FromDigits(read) && b == Power256(|read|) % TWO_TO_64
    ensures (value + digit * b) % TWO_TO_64 == FromDigits(read + [digit])
    ensures b * 0x100 % TWO_TO_64 == Power256(|read| + 1) % TWO_TO_64
  {
    FromDigitsSnoc(read, digit);
    FromDigitsBound(read + [digit]);
    PowersGrow(|read| + 1, 8);
    PowersGrow(|read|, 7);
    PowerValues();
    assert Power256(8) == 0x100 * Power256(7);
    assert b == Power256(|read|);
  }
}
