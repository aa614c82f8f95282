/**
 A successful run of the decoder depends on the bytes it reads and on nothing else: the same bytes
 at another place in another buffer decode to the same value and take up the same room.
 */
module Embedding {
  import opened Bytes
  import opened Decoding
  import opened Tags
  import opened Terms

  /** The bytes of `s` stand in `t` at position `d`. */
  ghost predicate Embedded(s: Source, t: Source, d: nat) {
    && s.scanFloat == t.scanFloat
    && d + |s.bytes| <= |t.bytes|
    && forall k :: 0 <= k < |s.bytes| ==> s.bytes[k] == t.bytes[d + k]
  }

  /** Where `t` lets the same step end: same value, offset moved by `d`. */
  function Moved<T>(r: Step<T>, d: nat): Step<T> {
    Step(r.value, r.next.Skip(d))
  }

  lemma SameSlice(s: Source, t: Source, d: nat, i: nat, n: nat)
    requires Embedded(s, t, d) && i + n <= |s.bytes|
    ensures s.bytes[i..i + n] == t.bytes[d + i..d + i + n]
  {
    var u := s.bytes[i..i + n];
    var v := t.bytes[d + i..d + i + n];
    forall k | 0 <= k < n ensures u[k] == v[k] {
      assert s.bytes[i + k] == t.bytes[d + (i + k)];
    }
  }

  lemma Read8Moves(s: Source, t: Source, d: nat, c: Cursor)
    requires Embedded(s, t, d) && Within(s, c) && !Read8(s, c).next.invalid
    ensures Read8(t, c.Skip(d)) == Moved(Read8(s, c), d)
  {
  }

  lemma Read16Moves(s: Source, t: Source, d: nat, c: Cursor)
    requires Embedded(s, t, d) && Within(s, c) && !Read16(s, c).next.invalid
    ensures Read16(t, c.Skip(d)) == Moved(Read16(s, c), d)
  {
    SameSlice(s, t, d, c.offset, 2);
  }

  lemma Read32Moves(s: Source, t: Source, d: nat, c: Cursor)
    requires Embedded(s, t, d) && Within(s, c) && !Read32(s, c).next.invalid
    ensures Read32(t, c.Skip(d)) == Moved(Read32(s, c), d)
  {
    SameSlice(s, t, d, c.offset, 4);
  }

  lemma Read64Moves(s: Source, t: Source, d: nat, c: Cursor)
    requires Embedded(s, t, d) && Within(s, c) && !Read64(s, c).next.invalid
    ensures Read64(t, c.Skip(d)) == Moved(Read64(s, c), d)
  {
    SameSlice(s, t, d, c.offset, 8);
  }

  lemma ReadStringMoves(s: Source, t: Source, d: nat, c: Cursor, length: u32)
    requires Embedded(s, t, d) && Within(s, c) && !ReadString(s, c, length).next.invalid
    ensures ReadString(t, c.Skip(d), length) == Moved(ReadString(s, c, length), d)
  {
    SameSlice(s, t, d, c.offset, length);
  }

  lemma {:induction false} ReadDigitsMoves(s: Source, t: Source, d: nat, c: Cursor, count: nat)
    requires Embedded(s, t, d) && Within(s, c) && !ReadDigits(s, c, count).next.invalid
    ensures ReadDigits(t, c.Skip(d), count) == Moved(ReadDigits(s, c, count), d)
  {
    if count > 0 {
      ReadDigitsMoves(s, t, d, c, count - 1);
      Read8Moves(s, t, d, ReadDigits(s, c, count - 1).next);
    }
  }

  lemma {:induction false} ReadSmallIntegersMoves(s: Source, t: Source, d: nat, c: Cursor, count: nat, filled: seq<Data>)
    requires Embedded(s, t, d) && Within(s, c) && !ReadSmallIntegers(s, c, count, filled).next.invalid
    ensures ReadSmallIntegers(t, c.Skip(d), count, filled) == Moved(ReadSmallIntegers(s, c, count, filled), d)
    decreases count
  {
    if count > 0 {
      var item := DecodeSmallInteger(s, c);
      Read8Moves(s, t, d, c);
      ReadSmallIntegersMoves(s, t, d, item.next, count - 1, filled + [item.value]);
    }
  }

  lemma {:induction false} ReadIdsMoves(s: Source, t: Source, d: nat, c: Cursor, count: nat, ids: seq<Data>)
    requires Embedded(s, t, d) && Within(s, c) && !ReadIds(s, c, count, ids).next.invalid
    ensures ReadIds(t, c.Skip(d), count, ids) == Moved(ReadIds(s, c, count, ids), d)
    decreases count
  {
    if count > 0 {
      var id := Read32(s, c);
      Read32Moves(s, t, d, c);
      ReadIdsMoves(s, t, d, id.next, count - 1, ids + [UInt(id.value)]);
    }
  }

  lemma BigMoves(s: Source, t: Source, d: nat, c: Cursor, digits: u32)
    requires Embedded(s, t, d) && Within(s, c) && !DecodeBig(s, c, digits).next.invalid
    ensures DecodeBig(t, c.Skip(d), digits) == Moved(DecodeBig(s, c, digits), d)
  {
    Read8Moves(s, t, d, c);
    if digits <= 8 {
      ReadDigitsMoves(s, t, d, Read8(s, c).next, digits);
    }
  }

  /** A one-byte length, or a two-byte one, followed by that many bytes. */
  lemma AtomMoves(s: Source, t: Source, d: nat, c: Cursor, small: bool)
    requires Embedded(s, t, d) && Within(s, c)
    requires !(if small then DecodeSmallAtom(s, c) else DecodeAtom(s, c)).next.invalid
    ensures if small then DecodeSmallAtom(t, c.Skip(d)) == Moved(DecodeSmallAtom(s, c), d)
            else DecodeAtom(t, c.Skip(d)) == Moved(DecodeAtom(s, c), d)
  {
    if small {
      var length := Read8(s, c);
      Read8Moves(s, t, d, c);
      ReadStringMoves(s, t, d, length.next, length.value);
    } else {
      var length := Read16(s, c);
      Read16Moves(s, t, d, c);
      ReadStringMoves(s, t, d, length.next, length.value);
    }
  }

  lemma BinaryMoves(s: Source, t: Source, d: nat, c: Cursor)
    requires Embedded(s, t, d) && Within(s, c) && !DecodeBinaryAsString(s, c).next.invalid
    ensures DecodeBinaryAsString(t, c.Skip(d)) == Moved(DecodeBinaryAsString(s, c), d)
  {
    var length := Read32(s, c);
    Read32Moves(s, t, d, c);
    ReadStringMoves(s, t, d, length.next, length.value);
  }

  lemma StringAsListMoves(s: Source, t: Source, d: nat, c: Cursor)
    requires Embedded(s, t, d) && Within(s, c) && !DecodeStringAsList(s, c).next.invalid
    ensures DecodeStringAsList(t, c.Skip(d)) == Moved(DecodeStringAsList(s, c), d)
  {
    var length := Read16(s, c);
    if length.next.offset + length.value <= |s.bytes| {
      Read16Moves(s, t, d, c);
      ReadSmallIntegersMoves(s, t, d, length.next, length.value, []);
    }
  }

  lemma {:induction false} UnpackMoves(s: Source, t: Source, d: nat, c: Cursor)
    requires Embedded(s, t, d) && Within(s, c) && !Unpack(s, c).next.invalid
    ensures Unpack(t, c.Skip(d)) == Moved(Unpack(s, c), d)
    decreases Remaining(s, c), 0
  {
    var tag := Read8(s, c);
    Read8Moves(s, t, d, c);
    DispatchMoves(s, t, d, tag.next, tag.value);
  }

  lemma {:induction false} DispatchMoves(s: Source, t: Source, d: nat, c: Cursor, tag: byte)
    requires Embedded(s, t, d) && Within(s, c) && !Dispatch(s, c, tag).next.invalid
    ensures Dispatch(t, c.Skip(d), tag) == Moved(Dispatch(s, c, tag), d)
    decreases Remaining(s, c), 4
  {
    if tag == SMALL_INTEGER_EXT { Read8Moves(s, t, d, c); }
    else if tag == INTEGER_EXT { Read32Moves(s, t, d, c); }
    else if tag == FLOAT_EXT { ReadStringMoves(s, t, d, c, FLOAT_LENGTH); }
    else if tag == NEW_FLOAT_EXT { Read64Moves(s, t, d, c); }
    else if tag == ATOM_EXT || tag == SMALL_ATOM_EXT { AtomMoves(s, t, d, c, tag == SMALL_ATOM_EXT); }
    else if tag == STRING_EXT { StringAsListMoves(s, t, d, c); }
    else if tag == BINARY_EXT { BinaryMoves(s, t, d, c); }
    else if tag == SMALL_BIG_EXT { Read8Moves(s, t, d, c); BigMoves(s, t, d, Read8(s, c).next, Read8(s, c).value); }
    else if tag == LARGE_BIG_EXT { Read32Moves(s, t, d, c); BigMoves(s, t, d, Read32(s, c).next, Read32(s, c).value); }
    else if tag != NIL_EXT { CompoundMoves(s, t, d, c, tag); }
  }

  lemma {:induction false} CompoundMoves(s: Source, t: Source, d: nat, c: Cursor, tag: byte)
    requires Embedded(s, t, d) && Within(s, c) && !Dispatch(s, c, tag).next.invalid
    requires tag in [SMALL_TUPLE_EXT, LARGE_TUPLE_EXT, LIST_EXT, MAP_EXT, REFERENCE_EXT, NEW_REFERENCE_EXT,
                     PORT_EXT, PID_EXT, EXPORT_EXT]
    ensures Dispatch(t, c.Skip(d), tag) == Moved(Dispatch(s, c, tag), d)
    decreases Remaining(s, c), 3
  {
    if tag == SMALL_TUPLE_EXT {
      var length := Read8(s, c);
      Read8Moves(s, t, d, c);
      ArrayMoves(s, t, d, length.next, length.value, []);
    } else if tag == LARGE_TUPLE_EXT {
      var length := Read32(s, c);
      Read32Moves(s, t, d, c);
      ArrayMoves(s, t, d, length.next, length.value, []);
    } else if tag == LIST_EXT {
      var length := Read32(s, c);
      Read32Moves(s, t, d, c);
      ArrayMoves(s, t, d, length.next, length.value, []);
      Read8Moves(s, t, d, DecodeArray(s, length.next, length.value, []).next);
    } else if tag == MAP_EXT {
      var length := Read32(s, c);
      Read32Moves(s, t, d, c);
      PairsMoves(s, t, d, length.next, length.value, []);
    } else {
      IdentifierMoves(s, t, d, c, tag);
    }
  }

  /** References, ports, pids and exports. */
  lemma {:induction false} IdentifierMoves(s: Source, t: Source, d: nat, c: Cursor, tag: byte)
    requires Embedded(s, t, d) && Within(s, c) && !Dispatch(s, c, tag).next.invalid
    requires tag in [REFERENCE_EXT, NEW_REFERENCE_EXT, PORT_EXT, PID_EXT, EXPORT_EXT]
    ensures Dispatch(t, c.Skip(d), tag) == Moved(Dispatch(s, c, tag), d)
    decreases Remaining(s, c), 2
  {
    if tag == NEW_REFERENCE_EXT {
      var length := Read16(s, c);
      var node := Unpack(s, length.next);
      var creation := Read8(s, node.next);
      Read16Moves(s, t, d, c);
      UnpackMoves(s, t, d, length.next);
      Read8Moves(s, t, d, node.next);
      ReadIdsMoves(s, t, d, creation.next, length.value, []);
    } else {
      var first := Unpack(s, c);
      UnpackMoves(s, t, d, c);
      if tag == EXPORT_EXT {
        UnpackMoves(s, t, d, first.next);
        UnpackMoves(s, t, d, Unpack(s, first.next).next);
      } else {
        var id := Read32(s, first.next);
        Read32Moves(s, t, d, first.next);
        if tag == PID_EXT {
          Read32Moves(s, t, d, id.next);
          Read8Moves(s, t, d, Read32(s, id.next).next);
        } else {
          Read8Moves(s, t, d, id.next);
        }
      }
    }
  }

  lemma {:induction false} ArrayMoves(s: Source, t: Source, d: nat, c: Cursor, count: nat, filled: seq<Data>)
    requires Embedded(s, t, d) && Within(s, c) && !DecodeArray(s, c, count, filled).next.invalid
    ensures DecodeArray(t, c.Skip(d), count, filled) == Moved(DecodeArray(s, c, count, filled), d)
    decreases Remaining(s, c), 1, count
  {
    if count > 0 {
      var item := Unpack(s, c);
      UnpackMoves(s, t, d, c);
      ArrayMoves(s, t, d, item.next, count - 1, filled + [item.value]);
    }
  }

  lemma {:induction false} PairMoves(s: Source, t: Source, d: nat, c: Cursor)
    requires Embedded(s, t, d) && Within(s, c) && !UnpackPair(s, c).next.invalid
    ensures UnpackPair(t, c.Skip(d)) == Moved(UnpackPair(s, c), d)
    decreases Remaining(s, c), 1
  {
    UnpackMoves(s, t, d, c);
    UnpackMoves(s, t, d, Unpack(s, c).next);
  }

  lemma {:induction false} PairsMoves(s: Source, t: Source, d: nat, c: Cursor, count: nat, read: seq<Pair>)
    requires Embedded(s, t, d) && Within(s, c) && !ReadPairs(s, c, count, read).next.invalid
    ensures ReadPairs(t, c.Skip(d), count, read) == Moved(ReadPairs(s, c, count, read), d)
    decreases Remaining(s, c), 2, count
  {
    if count > 0 {
      var pair := UnpackPair(s, c);
      PairMoves(s, t, d, c);
      PairsMoves(s, t, d, pair.next, count - 1, read + [pair.value]);
    }
  }

  // --------------------------------------------------------------------------
  // Runs that reach COMPRESSED
  // --------------------------------------------------------------------------

  /** After an error nothing more is unpacked. */
  lemma StoppedArray(s: Source, c: Cursor, count: nat, filled: seq<Data>)
    requires Within(s, c) && c.invalid
    ensures DecodeArray(s, c, count, filled).next == c
  {
  }

  lemma StoppedPairs(s: Source, c: Cursor, count: nat, read: seq<Pair>)
    requires Within(s, c) && c.invalid
    ensures ReadPairs(s, c, count, read).next == c && UnpackPair(s, c).next == c
  {
    assert Unpack(s, c).next == c;
    assert UnpackPair(s, c).next == c;
  }

  /** A run that reaches a COMPRESSED tag reaches it in every buffer that holds the same bytes. */
  lemma {:induction false} CompressedMoves(s: Source, t: Source, d: nat, c: Cursor)
    requires Embedded(s, t, d) && Within(s, c) && !c.compressed && Unpack(s, c).next.compressed
    ensures Unpack(t, c.Skip(d)).next.compressed
    decreases Remaining(s, c), 0
  {
    var tag := Read8(s, c);
    Read8Moves(s, t, d, c);
    DispatchCompressed(s, t, d, tag.next, tag.value);
  }

  lemma {:induction false} DispatchCompressed(s: Source, t: Source, d: nat, c: Cursor, tag: byte)
    requires Embedded(s, t, d) && Within(s, c) && !c.compressed && Dispatch(s, c, tag).next.compressed
    ensures Dispatch(t, c.Skip(d), tag).next.compressed
    decreases Remaining(s, c), 4
  {
    if tag == SMALL_TUPLE_EXT {
      var length := Read8(s, c);
      CountedCompressed(s, t, d, length.next, length.value);
      Read8Moves(s, t, d, c);
    } else if tag == LARGE_TUPLE_EXT || tag == LIST_EXT {
      var length := Read32(s, c);
      CountedCompressed(s, t, d, length.next, length.value);
      Read32Moves(s, t, d, c);
    } else if tag == MAP_EXT {
      MapCompressed(s, t, d, c);
    } else if tag == NEW_REFERENCE_EXT {
      var length := Read16(s, c);
      assert Unpack(s, length.next).next.compressed;
      Read16Moves(s, t, d, c);
      CompressedMoves(s, t, d, length.next);
    } else if tag == EXPORT_EXT {
      ExportCompressed(s, t, d, c);
    } else if tag != COMPRESSED {
      assert tag in [REFERENCE_EXT, PORT_EXT, PID_EXT];
      CompressedMoves(s, t, d, c);
    }
  }

  lemma {:induction false} CountedCompressed(s: Source, t: Source, d: nat, c: Cursor, count: nat)
    requires Embedded(s, t, d) && Within(s, c) && !c.compressed && DecodeArray(s, c, count, []).next.compressed
    ensures !c.invalid && DecodeArray(t, c.Skip(d), count, []).next.compressed
    decreases Remaining(s, c), 2
  {
    if c.invalid {
      StoppedArray(s, c, count, []);
    }
    ArrayCompressed(s, t, d, c, count, []);
  }

  lemma {:induction false} MapCompressed(s: Source, t: Source, d: nat, c: Cursor)
    requires Embedded(s, t, d) && Within(s, c) && !c.compressed && DecodeMap(s, c).next.compressed
    ensures DecodeMap(t, c.Skip(d)).next.compressed
    decreases Remaining(s, c), 3
  {
    var length := Read32(s, c);
    if length.next.invalid {
      StoppedPairs(s, length.next, length.value, []);
    } else {
      Read32Moves(s, t, d, c);
      PairsCompressed(s, t, d, length.next, length.value, []);
    }
  }

  lemma {:induction false} ExportCompressed(s: Source, t: Source, d: nat, c: Cursor)
    requires Embedded(s, t, d) && Within(s, c) && !c.compressed && DecodeExport(s, c).next.compressed
    ensures DecodeExport(t, c.Skip(d)).next.compressed
    decreases Remaining(s, c), 3
  {
    var mod := Unpack(s, c);
    var fun := Unpack(s, mod.next);
    if mod.next.compressed {
      CompressedMoves(s, t, d, c);
    } else {
      UnpackMoves(s, t, d, c);
      if fun.next.compressed {
        CompressedMoves(s, t, d, mod.next);
      } else {
        UnpackMoves(s, t, d, mod.next);
        CompressedMoves(s, t, d, fun.next);
      }
    }
  }

  lemma {:induction false} ArrayCompressed(s: Source, t: Source, d: nat, c: Cursor, count: nat, filled: seq<Data>)
    requires Embedded(s, t, d) && Within(s, c) && !c.compressed && DecodeArray(s, c, count, filled).next.compressed
    ensures DecodeArray(t, c.Skip(d), count, filled).next.compressed
    decreases Remaining(s, c), 1, count
  {
    var item := Unpack(s, c);
    if item.next.compressed {
      CompressedMoves(s, t, d, c);
    } else {
      UnpackMoves(s, t, d, c);
      ArrayCompressed(s, t, d, item.next, count - 1, filled + [item.value]);
    }
  }

  lemma {:induction false} PairsCompressed(s: Source, t: Source, d: nat, c: Cursor, count: nat, read: seq<Pair>)
    requires Embedded(s, t, d) && Within(s, c) && !c.compressed && ReadPairs(s, c, count, read).next.compressed
    ensures ReadPairs(t, c.Skip(d), count, read).next.compressed
    decreases Remaining(s, c), 2, count
  {
    var pair := UnpackPair(s, c);
    if pair.next.compressed {
      PairCompressed(s, t, d, c);
    } else {
      PairMoves(s, t, d, c);
      PairsCompressed(s, t, d, pair.next, count - 1, read + [pair.value]);
    }
  }

  lemma {:induction false} PairCompressed(s: Source, t: Source, d: nat, c: Cursor)
    requires Embedded(s, t, d) && Within(s, c) && !c.compressed && UnpackPair(s, c).next.compressed
    ensures UnpackPair(t, c.Skip(d)).next.compressed
    decreases Remaining(s, c), 1
  {
    var key := Unpack(s, c);
    if key.next.compressed {
      CompressedMoves(s, t, d, c);
    } else {
      assert Unpack(s, key.next).next.compressed;
      UnpackMoves(s, t, d, c);
      CompressedMoves(s, t, d, key.next);
    }
  }
}
