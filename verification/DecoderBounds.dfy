/**
 What holds of every decoded value, whatever the bytes: its maps are maps, and it is no larger than
 twice the bytes it was read from. And what holds of any number of calls in a row.
 */
module DecoderBounds {
  import opened BigIntegers
  import opened Bytes
  import opened Decoding
  import opened Encoding
  import opened Normal
  import opened Tags
  import opened Terms

  lemma {:induction false} NodesSeqSnoc(ds: seq<Data>, d: Data)
    ensures NodesSeq(ds + [d]) == NodesSeq(ds) + Nodes(d)
  {
    if ds == [] {
      assert [] + [d] == [d];
    } else {
      NodesSeqSnoc(ds[1..], d);
      assert (ds + [d])[1..] == ds[1..] + [d];
    }
  }

  lemma {:induction false} NodesPairsSnoc(ps: seq<Pair>, p: Pair)
    ensures NodesPairs(ps + [p]) == NodesPairs(ps) + NodesPair(p)
  {
    if ps == [] {
      assert [] + [p] == [p];
    } else {
      NodesPairsSnoc(ps[1..], p);
      assert (ps + [p])[1..] == ps[1..] + [p];
    }
  }

  /** An assignment adds at most the new pair: a replaced value only goes away. */
  lemma {:induction false} PutNodes(ps: seq<Pair>, key: Data, value: Data)
    ensures NodesPairs(Put(ps, key, value)) <= NodesPairs(ps) + Nodes(key) + Nodes(value)
  {
    if ps != [] && Less(ps[0].key, key) {
      PutNodes(ps[1..], key, value);
      assert Put(ps, key, value)[1..] == Put(ps[1..], key, value);
    } else if ps != [] && Less(key, ps[0].key) {
      assert Put(ps, key, value)[1..] == ps;
    } else if ps != [] {
      assert Put(ps, key, value)[1..] == ps[1..];
    }
  }

  lemma {:induction false} PutAllNodes(acc: seq<Pair>, ps: seq<Pair>)
    ensures NodesPairs(PutAll(acc, ps)) <= NodesPairs(acc) + NodesPairs(ps)
    decreases |ps|
  {
    if ps != [] {
      PutNodes(acc, ps[0].key, ps[0].value);
      PutAllNodes(Put(acc, ps[0].key, ps[0].value), ps[1..]);
    }
  }

  /** A value that can have come over the wire: its maps are maps, its strings have lengths of 32 bits. */
  ghost predicate Proper(d: Data) {
    WellFormed(d) && StringsFit(d)
  }

  ghost predicate ProperPair(p: Pair) {
    Proper(p.key) && Proper(p.value)
  }

  /** Sorted keys and proper entries: what makes `Map(ps)` proper. */
  ghost predicate GoodPairs(ps: seq<Pair>) {
    Sorted(ps) && forall p :: p in ps ==> ProperPair(p)
  }

  lemma GoodPairsAreProper(ps: seq<Pair>)
    requires GoodPairs(ps)
    ensures Proper(Map(ps))
  {
    forall p | p in ps ensures WellFormedPair(p) && PairStringsFit(p) {
      assert ProperPair(p);
    }
  }

  lemma {:induction false} PutGood(ps: seq<Pair>, key: Data, value: Data)
    requires GoodPairs(ps) && Proper(key) && Proper(value)
    ensures GoodPairs(Put(ps, key, value))
    ensures NodesPairs(Put(ps, key, value)) <= NodesPairs(ps) + Nodes(key) + Nodes(value)
  {
    PutSorted(ps, key, value);
    PutMembers(ps, key, value);
    PutNodes(ps, key, value);
  }

  lemma {:induction false} PutAllGood(acc: seq<Pair>, ps: seq<Pair>)
    requires GoodPairs(acc) && forall p :: p in ps ==> ProperPair(p)
    ensures GoodPairs(PutAll(acc, ps))
    decreases |ps|
  {
    if ps != [] {
      assert ps[0] in ps;
      PutGood(acc, ps[0].key, ps[0].value);
      PutAllGood(Put(acc, ps[0].key, ps[0].value), ps[1..]);
    }
  }

  /** The value of a step is proper and, if nothing went wrong, at most `slack` nodes over twice its bytes. */
  ghost predicate Bounded(c: Cursor, r: Step<Data>, slack: int) {
    Proper(r.value) && (!r.next.invalid ==> Nodes(r.value) <= 2 * (r.next.offset - c.offset) + slack)
  }

  /** A sequence of values read from `c` on, added to `filled`. */
  ghost predicate BoundedSeq(c: Cursor, next: Cursor, filled: seq<Data>, all: seq<Data>) {
    && (forall x :: x in all ==> Proper(x))
    && (!next.invalid ==> NodesSeq(all) <= NodesSeq(filled) + 2 * (next.offset - c.offset))
  }

  lemma {:induction false} SmallIntegersBounded(src: Source, c: Cursor, count: nat, filled: seq<Data>)
    requires Within(src, c) && forall x :: x in filled ==> Proper(x)
    ensures var r := ReadSmallIntegers(src, c, count, filled);
            BoundedSeq(c, r.next, filled, r.value)
    decreases count
  {
    if count > 0 {
      var item := DecodeSmallInteger(src, c);
      NodesSeqSnoc(filled, item.value);
      SmallIntegersBounded(src, item.next, count - 1, filled + [item.value]);
    }
  }

  lemma {:induction false} IdsBounded(src: Source, c: Cursor, count: nat, ids: seq<Data>)
    requires Within(src, c) && forall x :: x in ids ==> Proper(x)
    ensures var r := ReadIds(src, c, count, ids);
            BoundedSeq(c, r.next, ids, r.value)
    decreases count
  {
    if count > 0 {
      var id := Read32(src, c);
      NodesSeqSnoc(ids, UInt(id.value));
      IdsBounded(src, id.next, count - 1, ids + [UInt(id.value)]);
    }
  }

  lemma BigBounded(src: Source, c: Cursor, digits: u32)
    requires Within(src, c)
    ensures var r := DecodeBig(src, c, digits);
            Proper(r.value) && Nodes(r.value) == 1
  {
    var sign := Read8(src, c);
    if digits <= 8 {
      BigDataDenotes(sign.value, ReadDigits(src, sign.next, digits).value);
    }
  }

  lemma AtomBounded(src: Source, c: Cursor, length: u16)
    requires Within(src, c)
    ensures var d := ProcessAtom(ReadString(src, c, length).value);
            Proper(d) && Nodes(d) == 1
  {
  }

  /** Terms without subterms, but for strings as lists. */
  lemma LeafBounded(src: Source, c: Cursor, tag: byte)
    requires Within(src, c)
    requires tag in [SMALL_INTEGER_EXT, INTEGER_EXT, FLOAT_EXT, NEW_FLOAT_EXT, ATOM_EXT, SMALL_ATOM_EXT, BINARY_EXT,
                     SMALL_BIG_EXT, LARGE_BIG_EXT]
    ensures var r := Dispatch(src, c, tag);
            Proper(r.value) && Nodes(r.value) == 1
  {
    if tag == SMALL_BIG_EXT { BigBounded(src, Read8(src, c).next, Read8(src, c).value); }
    else if tag == LARGE_BIG_EXT { BigBounded(src, Read32(src, c).next, Read32(src, c).value); }
    else if tag == ATOM_EXT { AtomBounded(src, Read16(src, c).next, Read16(src, c).value); }
    else if tag == SMALL_ATOM_EXT { AtomBounded(src, Read8(src, c).next, Read8(src, c).value); }
  }

  lemma StringAsListBounded(src: Source, c: Cursor)
    requires Within(src, c)
    ensures Bounded(c, DecodeStringAsList(src, c), 1)
  {
    var length := Read16(src, c);
    if length.next.offset + length.value <= |src.bytes| {
      SmallIntegersBounded(src, length.next, length.value, []);
    }
  }

  /**
   The size bound: a term read without error from n bytes has at most 2n - 1 nodes, map keys included.
   Every decoded value is proper, whether or not something went wrong: its maps can be handed to code that
   expects `std::map`s, and no string in it is longer than a length field can say.
   */
  lemma {:induction false} UnpackBounded(src: Source, c: Cursor)
    requires Within(src, c)
    ensures Bounded(c, Unpack(src, c), -1)
    decreases Remaining(src, c), 0
  {
    if !c.invalid && c.offset < |src.bytes| {
      var tag := Read8(src, c);
      DispatchBounded(src, tag.next, tag.value);
    }
  }

  lemma {:induction false} DispatchBounded(src: Source, c: Cursor, tag: byte)
    requires Within(src, c)
    ensures Bounded(c, Dispatch(src, c, tag), 1)
    decreases Remaining(src, c), 4
  {
    if tag == STRING_EXT { StringAsListBounded(src, c); }
    else if tag == SMALL_TUPLE_EXT || tag == LARGE_TUPLE_EXT { TupleBounded(src, c, tag == LARGE_TUPLE_EXT); }
    else if tag == LIST_EXT { ListBounded(src, c); }
    else if tag == MAP_EXT { MapBounded(src, c); }
    else if tag == REFERENCE_EXT { ReferenceBounded(src, c); }
    else if tag == NEW_REFERENCE_EXT { NewReferenceBounded(src, c); }
    else if tag == PORT_EXT { PortBounded(src, c); }
    else if tag == PID_EXT { PIDBounded(src, c); }
    else if tag == EXPORT_EXT { ExportBounded(src, c); }
    else if tag != NIL_EXT && tag != COMPRESSED { LeafOrErrorBounded(src, c, tag); }
  }

  lemma LeafOrErrorBounded(src: Source, c: Cursor, tag: byte)
    requires Within(src, c)
    requires tag !in [SMALL_TUPLE_EXT, LARGE_TUPLE_EXT, LIST_EXT, MAP_EXT, REFERENCE_EXT, NEW_REFERENCE_EXT, PORT_EXT,
                      PID_EXT, EXPORT_EXT, STRING_EXT, NIL_EXT, COMPRESSED]
    ensures Bounded(c, Dispatch(src, c, tag), 1)
  {
    if tag in [SMALL_INTEGER_EXT, INTEGER_EXT, FLOAT_EXT, NEW_FLOAT_EXT, ATOM_EXT, SMALL_ATOM_EXT, BINARY_EXT,
               SMALL_BIG_EXT, LARGE_BIG_EXT] {
      LeafBounded(src, c, tag);
    }
  }

  lemma {:induction false} ArrayBounded(src: Source, c: Cursor, count: nat, filled: seq<Data>)
    requires Within(src, c) && forall x :: x in filled ==> Proper(x)
    ensures var r := DecodeArray(src, c, count, filled);
            Bounded(c, r, 1 + NodesSeq(filled))
    decreases Remaining(src, c), 2, count
  {
    if count > 0 {
      var item := Unpack(src, c);
      UnpackBounded(src, c);
      NodesSeqSnoc(filled, item.value);
      if !item.next.invalid {
        ArrayBounded(src, item.next, count - 1, filled + [item.value]);
      }
    }
  }

  lemma {:induction false} TupleBounded(src: Source, c: Cursor, large: bool)
    requires Within(src, c)
    ensures Bounded(c, if large then DecodeLargeTuple(src, c) else DecodeSmallTuple(src, c), 1)
    decreases Remaining(src, c), 3
  {
    if large {
      var length := Read32(src, c);
      ArrayBounded(src, length.next, length.value, []);
    } else {
      var length := Read8(src, c);
      ArrayBounded(src, length.next, length.value, []);
    }
  }

  lemma {:induction false} ListBounded(src: Source, c: Cursor)
    requires Within(src, c)
    ensures Bounded(c, DecodeList(src, c), 1)
    decreases Remaining(src, c), 3
  {
    var length := Read32(src, c);
    ArrayBounded(src, length.next, length.value, []);
  }

  lemma {:induction false} PairsBounded(src: Source, c: Cursor, count: nat, read: seq<Pair>)
    requires Within(src, c) && forall p :: p in read ==> ProperPair(p)
    ensures var r := ReadPairs(src, c, count, read);
            r.value.Some? ==>
              && (forall p :: p in r.value.value ==> ProperPair(p))
              && (!r.next.invalid ==> NodesPairs(r.value.value) <= NodesPairs(read) + 2 * (r.next.offset - c.offset))
    decreases Remaining(src, c), 2, count
  {
    if count > 0 {
      var pair := UnpackPair(src, c);
      var key := Unpack(src, c);
      UnpackBounded(src, c);
      UnpackBounded(src, key.next);
      NodesPairsSnoc(read, pair.value);
      if !pair.next.invalid {
        PairsBounded(src, pair.next, count - 1, read + [pair.value]);
      }
    }
  }

  lemma {:induction false} MapBounded(src: Source, c: Cursor)
    requires Within(src, c)
    ensures Bounded(c, DecodeMap(src, c), 1)
    decreases Remaining(src, c), 3
  {
    var length := Read32(src, c);
    PairsBounded(src, length.next, length.value, []);
    var pairs := ReadPairs(src, length.next, length.value, []);
    if pairs.value.Some? {
      MapOfBounded(pairs.value.value);
    }
  }

  /** A map built by assignments from nothing is proper and no larger than what was assigned. */
  lemma MapOfBounded(ps: seq<Pair>)
    requires forall p :: p in ps ==> ProperPair(p)
    ensures Proper(MapOf(ps)) && Nodes(MapOf(ps)) <= 1 + NodesPairs(ps)
  {
    PutAllGood([], ps);
    PutAllNodes([], ps);
    GoodPairsAreProper(PutAll([], ps));
  }

  lemma NodesThreePairs(p: Pair, q: Pair, r: Pair)
    ensures NodesPairs([p, q, r]) == NodesPair(p) + NodesPair(q) + NodesPair(r)
  {
    NodesPairsSnoc([], p);
    NodesPairsSnoc([p], q);
    NodesPairsSnoc([p, q], r);
    assert [] + [p] == [p] && [p] + [q] == [p, q] && [p, q] + [r] == [p, q, r];
  }

  lemma MapOfThreeBounded(p: Pair, q: Pair, r: Pair)
    requires ProperPair(p) && ProperPair(q) && ProperPair(r)
    ensures Proper(MapOf([p, q, r])) && Nodes(MapOf([p, q, r])) <= 1 + NodesPair(p) + NodesPair(q) + NodesPair(r)
  {
    NodesThreePairs(p, q, r);
    MapOfBounded([p, q, r]);
  }

  lemma MapOfFourBounded(p: Pair, q: Pair, r: Pair, s: Pair)
    requires ProperPair(p) && ProperPair(q) && ProperPair(r) && ProperPair(s)
    ensures Proper(MapOf([p, q, r, s]))
    ensures Nodes(MapOf([p, q, r, s])) <= 1 + NodesPair(p) + NodesPair(q) + NodesPair(r) + NodesPair(s)
  {
    NodesThreePairs(p, q, r);
    NodesPairsSnoc([p, q, r], s);
    assert [p, q, r] + [s] == [p, q, r, s];
    MapOfBounded([p, q, r, s]);
  }

  lemma SingleId(id: u32)
    ensures Proper(Arr([UInt(id)])) && Nodes(Arr([UInt(id)])) == 2
  {
    NodesSeqSnoc([], UInt(id));
    assert [] + [UInt(id)] == [UInt(id)];
  }

  lemma {:induction false} ReferenceBounded(src: Source, c: Cursor)
    requires Within(src, c)
    ensures Bounded(c, DecodeReference(src, c), 1)
    decreases Remaining(src, c), 3
  {
    var node := Unpack(src, c);
    var id := Read32(src, node.next);
    var creation := Read8(src, id.next);
    UnpackBounded(src, c);
    var ids := Arr([UInt(id.value)]);
    SingleId(id.value);
    MapOfThreeBounded(Pair(NODE, node.value), Pair(ID, ids), Pair(CREATION, SInt(creation.value)));
  }

  lemma {:induction false} NewReferenceBounded(src: Source, c: Cursor)
    requires Within(src, c)
    ensures Bounded(c, DecodeNewReference(src, c), 1)
    decreases Remaining(src, c), 3
  {
    var length := Read16(src, c);
    var node := Unpack(src, length.next);
    var creation := Read8(src, node.next);
    var ids := ReadIds(src, creation.next, length.value, []);
    UnpackBounded(src, length.next);
    IdsBounded(src, creation.next, length.value, []);
    MapOfThreeBounded(Pair(NODE, node.value), Pair(CREATION, SInt(creation.value)), Pair(ID, Arr(ids.value)));
  }

  lemma {:induction false} PortBounded(src: Source, c: Cursor)
    requires Within(src, c)
    ensures Bounded(c, DecodePort(src, c), 1)
    decreases Remaining(src, c), 3
  {
    var node := Unpack(src, c);
    var id := Read32(src, node.next);
    var creation := Read8(src, id.next);
    UnpackBounded(src, c);
    MapOfThreeBounded(Pair(NODE, node.value), Pair(ID, UInt(id.value)), Pair(CREATION, SInt(creation.value)));
  }

  lemma {:induction false} PIDBounded(src: Source, c: Cursor)
    requires Within(src, c)
    ensures Bounded(c, DecodePID(src, c), 1)
    decreases Remaining(src, c), 3
  {
    var node := Unpack(src, c);
    var id := Read32(src, node.next);
    var serial := Read32(src, id.next);
    var creation := Read8(src, serial.next);
    UnpackBounded(src, c);
    PIDMapBounded(node.value, id.value, serial.value, creation.value);
  }

  lemma PIDMapBounded(node: Data, id: u32, serial: u32, creation: byte)
    requires Proper(node)
    ensures var d := MapOf([Pair(NODE, node), Pair(ID, UInt(id)), Pair(SERIAL, UInt(serial)), Pair(CREATION, SInt(creation))]);
            Proper(d) && Nodes(d) <= Nodes(node) + 8
  {
    MapOfFourBounded(Pair(NODE, node), Pair(ID, UInt(id)), Pair(SERIAL, UInt(serial)), Pair(CREATION, SInt(creation)));
  }

  lemma {:induction false} ExportBounded(src: Source, c: Cursor)
    requires Within(src, c)
    ensures Bounded(c, DecodeExport(src, c), 1)
    decreases Remaining(src, c), 3
  {
    var mod := Unpack(src, c);
    var fun := Unpack(src, mod.next);
    var arity := Unpack(src, fun.next);
    UnpackBounded(src, c);
    UnpackBounded(src, mod.next);
    UnpackBounded(src, fun.next);
    MapOfThreeBounded(Pair(MOD, mod.value), Pair(FUN, fun.value), Pair(ARITY, arity.value));
  }

  // --------------------------------------------------------------------------
  // Any number of calls
  // --------------------------------------------------------------------------

  /** The cursor after `n` calls of `unpack` in a row. */
  function AfterCalls(src: Source, c: Cursor, n: nat): Cursor
    requires Within(src, c)
    decreases n
  {
    if n == 0 then c else AfterCalls(src, Unpack(src, c).next, n - 1)
  }

  /**
   However often `unpack` is called, the offset moves forward only and never past the end, an error once
   seen stays and stops everything, and no more calls succeed than there are bytes.
   */
  lemma {:induction false} CallsStayInside(src: Source, c: Cursor, n: nat)
    requires Within(src, c)
    ensures var r := AfterCalls(src, c, n);
            && c.offset <= r.offset <= |src.bytes|
            && (c.invalid ==> r == c)
            && (!r.invalid ==> !c.invalid && c.offset + n <= r.offset)
    decreases n
  {
    if n > 0 {
      CallsStayInside(src, Unpack(src, c).next, n - 1);
    }
  }
}
