/**
 What `Decoder` means (include/etf/decoder.h): each reader as a function from a cursor to a value and the
 next cursor. `invalid` is the sticky flag `isInvalid`; as in the source, reading goes on after it is set.
 */
module Decoding {
  import opened BigIntegers
  import opened Bytes
  import opened Normal
  import opened Tags
  import opened Terms
  import opened Wrappers

  /** The buffer, and the `sscanf` call of `decodeFloat` as a partial function of its 31 bytes. */
  datatype Source = Source(bytes: seq<byte>, scanFloat: seq<byte> -> Option<u64>)

  /** `compressed` records that a COMPRESSED tag was reached: nothing is claimed of the run from there on. */
  datatype Cursor = Cursor(offset: nat, invalid: bool, compressed: bool) {
    /** The macro `THROW`. */
    function Throw(): Cursor {
      this.(invalid := true)
    }

    function Skip(n: nat): Cursor {
      this.(offset := offset + n)
    }
  }

  datatype Step<T> = Step(value: T, next: Cursor)

  /** A cursor at which nothing has gone wrong. */
  function Good(offset: nat): Cursor {
    Cursor(offset, false, false)
  }

  predicate Within(src: Source, c: Cursor) {
    c.offset <= |src.bytes| && (c.compressed ==> c.invalid)
  }

  /** The offset never moves back or past the end, and no flag is ever cleared. */
  predicate Advances(src: Source, c: Cursor, next: Cursor) {
    && c.offset <= next.offset
    && Within(src, next)
    && (c.invalid ==> next.invalid)
    && (c.compressed ==> next.compressed)
  }

  /** How many bytes are left: the measure of every recursive call below. */
  function Remaining(src: Source, c: Cursor): nat
    requires Within(src, c)
  {
    |src.bytes| - c.offset
  }

  // --------------------------------------------------------------------------
  // Fixed-width reads
  // --------------------------------------------------------------------------

  function Read8(src: Source, c: Cursor): (r: Step<byte>)
    requires Within(src, c)
    ensures Advances(src, c, r.next) && r.next.compressed == c.compressed
    ensures r.next == c.Throw() || r.next == c.Skip(1)
  {
    if c.offset + 1 > |src.bytes| then Step(0, c.Throw())
    else Step(src.bytes[c.offset], c.Skip(1))
  }

  function Read16(src: Source, c: Cursor): (r: Step<u16>)
    requires Within(src, c)
    ensures Advances(src, c, r.next) && r.next.compressed == c.compressed
    ensures r.next == c.Throw() || r.next == c.Skip(2)
  {
    if c.offset + 2 > |src.bytes| then Step(0, c.Throw())
    else Step(Load16(src.bytes[c.offset..c.offset + 2]), c.Skip(2))
  }

  function Read32(src: Source, c: Cursor): (r: Step<u32>)
    requires Within(src, c)
    ensures Advances(src, c, r.next) && r.next.compressed == c.compressed
    ensures r.next == c.Throw() || r.next == c.Skip(4)
  {
    if c.offset + 4 > |src.bytes| then Step(0, c.Throw())
    else Step(Load32(src.bytes[c.offset..c.offset + 4]), c.Skip(4))
  }

  function Read64(src: Source, c: Cursor): (r: Step<u64>)
    requires Within(src, c)
    ensures Advances(src, c, r.next) && r.next.compressed == c.compressed
    ensures r.next == c.Throw() || r.next == c.Skip(8)
  {
    if c.offset + 8 > |src.bytes| then Step(0, c.Throw())
    else Step(Load64(src.bytes[c.offset..c.offset + 8]), c.Skip(8))
  }

  /** `readString`; None stands for NULL. */
  function ReadString(src: Source, c: Cursor, length: u32): (r: Step<Option<seq<byte>>>)
    requires Within(src, c)
    ensures Advances(src, c, r.next) && r.next.compressed == c.compressed
    ensures r.value.None? ==> r.next.invalid
    ensures r.value.Some? ==> r.next == c.Skip(length) && |r.value.value| == length
  {
    if c.offset + length > |src.bytes| then Step(None, c.Throw())
    else Step(Some(src.bytes[c.offset..c.offset + length]), c.Skip(length))
  }

  // --------------------------------------------------------------------------
  // Terms without subterms
  // --------------------------------------------------------------------------

  function DecodeSmallInteger(src: Source, c: Cursor): (r: Step<Data>)
    requires Within(src, c)
    ensures Advances(src, c, r.next) && r.next.compressed == c.compressed
  {
    var n := Read8(src, c);
    Step(SInt(n.value), n.next)
  }

  function DecodeInteger(src: Source, c: Cursor): (r: Step<Data>)
    requires Within(src, c)
    ensures Advances(src, c, r.next) && r.next.compressed == c.compressed
  {
    var n := Read32(src, c);
    Step(SInt(AsSigned(n.value)), n.next)
  }

  function ProcessAtom(atom: Option<seq<byte>>): Data {
    match atom
    case None => Undefined
    case Some(name) =>
      if name == NIL || name == NULL then Null
      else if name == TRUE then Bool(true)
      else if name == FALSE then Bool(false)
      else Str(name)
  }

  function DecodeAtom(src: Source, c: Cursor): (r: Step<Data>)
    requires Within(src, c)
    ensures Advances(src, c, r.next) && r.next.compressed == c.compressed
  {
    var length := Read16(src, c);
    var atom := ReadString(src, length.next, length.value);
    Step(ProcessAtom(atom.value), atom.next)
  }

  function DecodeSmallAtom(src: Source, c: Cursor): (r: Step<Data>)
    requires Within(src, c)
    ensures Advances(src, c, r.next) && r.next.compressed == c.compressed
  {
    var length := Read8(src, c);
    var atom := ReadString(src, length.next, length.value);
    Step(ProcessAtom(atom.value), atom.next)
  }

  const FLOAT_LENGTH: byte := 31

  function DecodeFloat(src: Source, c: Cursor): (r: Step<Data>)
    requires Within(src, c)
    ensures Advances(src, c, r.next) && r.next.compressed == c.compressed
  {
    var text := ReadString(src, c, FLOAT_LENGTH);
    match text.value
    case None => Step(Undefined, text.next)
    case Some(s) =>
      match src.scanFloat(s)
      case None => Step(Null, text.next.Throw())
      case Some(bits) => Step(Double(bits), text.next)
  }

  function DecodeNewFloat(src: Source, c: Cursor): (r: Step<Data>)
    requires Within(src, c)
    ensures Advances(src, c, r.next) && r.next.compressed == c.compressed
  {
    var bits := Read64(src, c);
    Step(Double(bits.value), bits.next)
  }

  /** The digit loop of `decodeBig`; a read past the end yields the digit 0. */
  function ReadDigits(src: Source, c: Cursor, count: nat): (r: Step<seq<byte>>)
    requires Within(src, c)
    ensures Advances(src, c, r.next) && r.next.compressed == c.compressed
    ensures |r.value| == count
  {
    if count == 0 then Step([], c)
    else
      var front := ReadDigits(src, c, count - 1);
      var last := Read8(src, front.next);
      Step(front.value + [last.value], last.next)
  }

  function DecodeBig(src: Source, c: Cursor, digits: u32): (r: Step<Data>)
    requires Within(src, c)
    ensures Advances(src, c, r.next) && r.next.compressed == c.compressed
  {
    var sign := Read8(src, c);
    if digits > 8 then Step(Null, sign.next.Throw())
    else
      var ds := ReadDigits(src, sign.next, digits);
      Step(BigData(sign.value, ds.value), ds.next)
  }

  function DecodeSmallBig(src: Source, c: Cursor): (r: Step<Data>)
    requires Within(src, c)
    ensures Advances(src, c, r.next) && r.next.compressed == c.compressed
  {
    var digits := Read8(src, c);
    DecodeBig(src, digits.next, digits.value)
  }

  function DecodeLargeBig(src: Source, c: Cursor): (r: Step<Data>)
    requires Within(src, c)
    ensures Advances(src, c, r.next) && r.next.compressed == c.compressed
  {
    var digits := Read32(src, c);
    DecodeBig(src, digits.next, digits.value)
  }

  function DecodeBinaryAsString(src: Source, c: Cursor): (r: Step<Data>)
    requires Within(src, c)
    ensures Advances(src, c, r.next) && r.next.compressed == c.compressed
  {
    var length := Read32(src, c);
    var str := ReadString(src, length.next, length.value);
    match str.value
    case None => Step(Undefined, str.next)
    case Some(s) => Step(Str(s), str.next)
  }

  function DecodeStringAsList(src: Source, c: Cursor): (r: Step<Data>)
    requires Within(src, c)
    ensures Advances(src, c, r.next) && r.next.compressed == c.compressed
    ensures var length := Read16(src, c);
            if length.next.offset + length.value > |src.bytes| then r == Step(Null, length.next.Throw())
            else r.next == length.next.Skip(length.value) && r.value.Arr? && |r.value.items| == length.value
  {
    var length := Read16(src, c);
    if length.next.offset + length.value > |src.bytes| then Step(Null, length.next.Throw())
    else
      var items := ReadSmallIntegers(src, length.next, length.value, []);
      Step(Arr(items.value), items.next)
  }

  /** The loop of `decodeStringAsList` with the elements `filled` so far. */
  function ReadSmallIntegers(src: Source, c: Cursor, count: nat, filled: seq<Data>): (r: Step<seq<Data>>)
    requires Within(src, c)
    ensures Advances(src, c, r.next) && r.next.compressed == c.compressed
    ensures c.offset + count <= |src.bytes| ==> r.next == c.Skip(count) && |r.value| == |filled| + count
    decreases count
  {
    if count == 0 then Step(filled, c)
    else
      var item := DecodeSmallInteger(src, c);
      ReadSmallIntegers(src, item.next, count - 1, filled + [item.value])
  }

  // --------------------------------------------------------------------------
  // Terms with subterms
  // --------------------------------------------------------------------------

  function Unpack(src: Source, c: Cursor): (r: Step<Data>)
    requires Within(src, c)
    ensures Advances(src, c, r.next)
    ensures !r.next.invalid ==> r.next.offset > c.offset
    decreases Remaining(src, c), 0
  {
    if c.invalid then Step(Undefined, c)
    else if c.offset >= |src.bytes| then Step(Undefined, c.Throw())
    else
      var tag := Read8(src, c);
      Dispatch(src, tag.next, tag.value)
  }

  /** The `switch` of `unpack`. */
  function Dispatch(src: Source, c: Cursor, tag: byte): (r: Step<Data>)
    requires Within(src, c)
    ensures Advances(src, c, r.next)
    decreases Remaining(src, c), 4
  {
    if tag == SMALL_INTEGER_EXT then DecodeSmallInteger(src, c)
    else if tag == INTEGER_EXT then DecodeInteger(src, c)
    else if tag == FLOAT_EXT then DecodeFloat(src, c)
    else if tag == NEW_FLOAT_EXT then DecodeNewFloat(src, c)
    else if tag == ATOM_EXT then DecodeAtom(src, c)
    else if tag == SMALL_ATOM_EXT then DecodeSmallAtom(src, c)
    else if tag == SMALL_TUPLE_EXT then DecodeSmallTuple(src, c)
    else if tag == LARGE_TUPLE_EXT then DecodeLargeTuple(src, c)
    else if tag == NIL_EXT then Step(Arr([]), c)
    else if tag == STRING_EXT then DecodeStringAsList(src, c)
    else if tag == LIST_EXT then DecodeList(src, c)
    else if tag == MAP_EXT then DecodeMap(src, c)
    else if tag == BINARY_EXT then DecodeBinaryAsString(src, c)
    else if tag == SMALL_BIG_EXT then DecodeSmallBig(src, c)
    else if tag == LARGE_BIG_EXT then DecodeLargeBig(src, c)
    else if tag == REFERENCE_EXT then DecodeReference(src, c)
    else if tag == NEW_REFERENCE_EXT then DecodeNewReference(src, c)
    else if tag == PORT_EXT then DecodePort(src, c)
    else if tag == PID_EXT then DecodePID(src, c)
    else if tag == EXPORT_EXT then DecodeExport(src, c)
    else if tag == COMPRESSED then Step(Undefined, Cursor(c.offset, true, true))
    else Step(Undefined, c.Throw())
  }

  /** `decodeArray` with the elements `filled` so far and `count` elements to come. */
  function DecodeArray(src: Source, c: Cursor, count: nat, filled: seq<Data>): (r: Step<Data>)
    requires Within(src, c)
    ensures Advances(src, c, r.next)
    decreases Remaining(src, c), 2, count
  {
    if count == 0 then Step(Arr(filled), c)
    else
      var item := Unpack(src, c);
      if item.next.invalid then Step(Undefined, item.next)
      else DecodeArray(src, item.next, count - 1, filled + [item.value])
  }

  function DecodeSmallTuple(src: Source, c: Cursor): (r: Step<Data>)
    requires Within(src, c)
    ensures Advances(src, c, r.next)
    decreases Remaining(src, c), 3
  {
    var length := Read8(src, c);
    DecodeArray(src, length.next, length.value, [])
  }

  function DecodeLargeTuple(src: Source, c: Cursor): (r: Step<Data>)
    requires Within(src, c)
    ensures Advances(src, c, r.next)
    decreases Remaining(src, c), 3
  {
    var length := Read32(src, c);
    DecodeArray(src, length.next, length.value, [])
  }

  function DecodeList(src: Source, c: Cursor): (r: Step<Data>)
    requires Within(src, c)
    ensures Advances(src, c, r.next)
    decreases Remaining(src, c), 3
  {
    var length := Read32(src, c);
    var list := DecodeArray(src, length.next, length.value, []);
    var tailMarker := Read8(src, list.next);
    if tailMarker.value != NIL_EXT then Step(Null, tailMarker.next.Throw())
    else Step(list.value, tailMarker.next)
  }

  /** The loop of `decodeMap`: the pairs in the order they come, after those already `read`. */
  function ReadPairs(src: Source, c: Cursor, count: nat, read: seq<Pair>): (r: Step<Option<seq<Pair>>>)
    requires Within(src, c)
    ensures Advances(src, c, r.next)
    ensures r.value.None? ==> r.next.invalid
    decreases Remaining(src, c), 2, count
  {
    if count == 0 then Step(Some(read), c)
    else
      var pair := UnpackPair(src, c);
      if pair.next.invalid then Step(None, pair.next)
      else ReadPairs(src, pair.next, count - 1, read + [pair.value])
  }

  /** The two calls of `unpack` in the loop of `decodeMap`. */
  function UnpackPair(src: Source, c: Cursor): (r: Step<Pair>)
    requires Within(src, c)
    ensures Advances(src, c, r.next)
    ensures !r.next.invalid ==> r.next.offset > c.offset
    decreases Remaining(src, c), 1
  {
    var key := Unpack(src, c);
    var value := Unpack(src, key.next);
    Step(Pair(key.value, value.value), value.next)
  }

  function DecodeMap(src: Source, c: Cursor): (r: Step<Data>)
    requires Within(src, c)
    ensures Advances(src, c, r.next)
    decreases Remaining(src, c), 3
  {
    var length := Read32(src, c);
    var pairs := ReadPairs(src, length.next, length.value, []);
    match pairs.value
    case None => Step(Undefined, pairs.next)
    case Some(ps) => Step(MapOf(ps), pairs.next)
  }

  // Keys of the maps that references, ports, pids and exports turn into, in ASCII.
  const NODE: Data := Str([110, 111, 100, 101])
  const ID: Data := Str([105, 100])
  const CREATION: Data := Str([99, 114, 101, 97, 116, 105, 111, 110])
  const SERIAL: Data := Str([115, 101, 114, 105, 97, 108])
  const MOD: Data := Str([109, 111, 100])
  const FUN: Data := Str([102, 117, 110])
  const ARITY: Data := Str([97, 114, 105, 116, 121])

  function DecodeReference(src: Source, c: Cursor): (r: Step<Data>)
    requires Within(src, c)
    ensures Advances(src, c, r.next)
    decreases Remaining(src, c), 3
  {
    var node := Unpack(src, c);
    var id := Read32(src, node.next);
    var creation := Read8(src, id.next);
    var ids := Arr([UInt(id.value)]);
    Step(MapOf([Pair(NODE, node.value), Pair(ID, ids), Pair(CREATION, SInt(creation.value))]), creation.next)
  }

  /** The id loop of `decodeNewReference` with `ids` filled so far. */
  function ReadIds(src: Source, c: Cursor, count: nat, ids: seq<Data>): (r: Step<seq<Data>>)
    requires Within(src, c)
    ensures Advances(src, c, r.next) && r.next.compressed == c.compressed
    decreases count
  {
    if count == 0 then Step(ids, c)
    else
      var id := Read32(src, c);
      ReadIds(src, id.next, count - 1, ids + [UInt(id.value)])
  }

  function DecodeNewReference(src: Source, c: Cursor): (r: Step<Data>)
    requires Within(src, c)
    ensures Advances(src, c, r.next)
    decreases Remaining(src, c), 3
  {
    var length := Read16(src, c);
    var node := Unpack(src, length.next);
    var creation := Read8(src, node.next);
    var ids := ReadIds(src, creation.next, length.value, []);
    Step(MapOf([Pair(NODE, node.value), Pair(CREATION, SInt(creation.value)), Pair(ID, Arr(ids.value))]), ids.next)
  }

  function DecodePort(src: Source, c: Cursor): (r: Step<Data>)
    requires Within(src, c)
    ensures Advances(src, c, r.next)
    decreases Remaining(src, c), 3
  {
    var node := Unpack(src, c);
    var id := Read32(src, node.next);
    var creation := Read8(src, id.next);
    Step(MapOf([Pair(NODE, node.value), Pair(ID, UInt(id.value)), Pair(CREATION, SInt(creation.value))]), creation.next)
  }

  function DecodePID(src: Source, c: Cursor): (r: Step<Data>)
    requires Within(src, c)
    ensures Advances(src, c, r.next)
    decreases Remaining(src, c), 3
  {
    var node := Unpack(src, c);
    var id := Read32(src, node.next);
    var serial := Read32(src, id.next);
    var creation := Read8(src, serial.next);
    Step(MapOf([Pair(NODE, node.value), Pair(ID, UInt(id.value)), Pair(SERIAL, UInt(serial.value)),
                Pair(CREATION, SInt(creation.value))]), creation.next)
  }

  function DecodeExport(src: Source, c: Cursor): (r: Step<Data>)
    requires Within(src, c)
    ensures Advances(src, c, r.next)
    decreases Remaining(src, c), 3
  {
    var mod := Unpack(src, c);
    var fun := Unpack(src, mod.next);
    var arity := Unpack(src, fun.next);
    Step(MapOf([Pair(MOD, mod.value), Pair(FUN, fun.value), Pair(ARITY, arity.value)]), arity.next)
  }

  /** The constructor: the version byte, unless it is skipped. */
  function Start(src: Source, skipVersion: bool): (c: Cursor)
    ensures Within(src, c)
  {
    if skipVersion then Good(0)
    else
      var version := Read8(src, Good(0));
      if version.value != FORMAT_VERSION then version.next.Throw() else version.next
  }
}
