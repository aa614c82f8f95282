/**
 Terms that only other encoders write: atoms and big integers in either size, references, ports, pids and
 exports, each from its layout in the External Term Format to what the receiver can look up.
 */
module Identifiers {
  import opened Atoms
  import opened BigIntegers
  import opened Bytes
  import opened Decoding
  import opened Encoding
  import opened Normal
  import opened Reading
  import opened Tags
  import opened Terms
  import opened WireForms
  import opened Wrappers

  // --------------------------------------------------------------------------
  // Atoms and big integers
  // --------------------------------------------------------------------------

  lemma LongAtomAt(src: Source, o: nat, name: seq<byte>)
    requires |name| < 0x1_0000 && At(src.bytes, o, [ATOM_EXT] + (Store16(|name|) + name))
    ensures Unpack(src, Good(o)) == Step(ProcessAtom(Some(name)), Good(o + 3 + |name|))
  {
    AtTail(src.bytes, o, ATOM_EXT, Store16(|name|) + name);
    AtConcat(src.bytes, o + 1, Store16(|name|), name);
    Read16At(src, o + 1, |name|);
    ReadStringAt(src, o + 3, name);
    UnpackTag(src, o, ATOM_EXT);
  }

  lemma ShortAtomAt(src: Source, o: nat, name: seq<byte>)
    requires |name| < 0x100 && At(src.bytes, o, SmallAtom(name))
    ensures Unpack(src, Good(o)) == Step(ProcessAtom(Some(name)), Good(o + 2 + |name|))
  {
    SmallAtomAt(src, o, name);
    UnpackTag(src, o, SMALL_ATOM_EXT);
  }

  /** A name decodes alike as an ATOM_EXT and, if it is short enough, as a SMALL_ATOM_EXT: to what it means. */
  lemma AtomDecodes(src: Source, o: nat, name: seq<byte>)
    requires |name| < 0x1_0000 && At(src.bytes, o, [ATOM_EXT] + (Store16(|name|) + name))
    ensures Unpack(src, Good(o)) == Step(ProcessAtom(Some(name)), Good(o + 3 + |name|))
    ensures Means(name, Unpack(src, Good(o)).value)
  {
    LongAtomAt(src, o, name);
    ProcessedMeans(name);
  }

  lemma SmallAtomDecodes(src: Source, o: nat, name: seq<byte>)
    requires |name| < 0x100 && At(src.bytes, o, SmallAtom(name))
    ensures Unpack(src, Good(o)) == Step(ProcessAtom(Some(name)), Good(o + 2 + |name|))
    ensures Means(name, Unpack(src, Good(o)).value)
  {
    ShortAtomAt(src, o, name);
    ProcessedMeans(name);
  }

  /** The number of digits, behind SMALL_BIG_EXT (110) in one byte or behind LARGE_BIG_EXT (111) in four. */
  function BigHeader(large: bool, digits: nat): (bs: seq<byte>)
    requires digits < if large then TWO_TO_32 else 0x100
    ensures |bs| == if large then 5 else 2
  {
    if large then [111] + Store32(digits) else [110] + [digits]
  }

  lemma BigHeaderAt(src: Source, o: nat, large: bool, digits: nat)
    requires digits < if large then TWO_TO_32 else 0x100
    requires At(src.bytes, o, BigHeader(large, digits))
    ensures var next := o + |BigHeader(large, digits)|;
            next <= |src.bytes| && Unpack(src, Good(o)) == DecodeBig(src, Good(next), digits)
  {
    if large {
      LargeBigAt(src, o, digits);
    } else {
      SmallBigAt(src, o, digits);
    }
  }

  lemma LargeBigAt(src: Source, o: nat, digits: u32)
    requires At(src.bytes, o, [LARGE_BIG_EXT] + Store32(digits))
    ensures o + 5 <= |src.bytes| && Unpack(src, Good(o)) == DecodeBig(src, Good(o + 5), digits)
  {
    AtTail(src.bytes, o, LARGE_BIG_EXT, Store32(digits));
    ReadWordAt(src, o + 1, digits);
    UnpackTag(src, o, LARGE_BIG_EXT);
  }

  lemma SmallBigAt(src: Source, o: nat, digits: byte)
    requires At(src.bytes, o, [SMALL_BIG_EXT] + [digits])
    ensures o + 2 <= |src.bytes| && Unpack(src, Good(o)) == DecodeBig(src, Good(o + 2), digits)
  {
    AtTail(src.bytes, o, SMALL_BIG_EXT, [digits]);
    Read8At(src, o + 1, digits);
    UnpackTag(src, o, SMALL_BIG_EXT);
  }

  lemma SignAndDigitsAt(src: Source, o: nat, sign: byte, digits: seq<byte>)
    requires |digits| < TWO_TO_32 && At(src.bytes, o, [sign] + digits)
    ensures o <= |src.bytes|
    ensures var r := DecodeBig(src, Good(o), |digits|);
            if |digits| > 8 then r.next.invalid
            else r.next == Good(o + 1 + |digits|) && Denoted(r.value) == Some(Signed(sign, FromDigits(digits)))
  {
    AtTail(src.bytes, o, sign, digits);
    Read8At(src, o, sign);
    if |digits| <= 8 {
      ReadDigitsAt(src, o + 1, digits);
      BigDataDenotes(sign, digits);
    }
  }

  /**
   A big integer of either size with any sign byte and any digits, minimal or not: with at most eight digits
   it decodes to exactly the integer it stands for; with more, decoding fails.
   */
  lemma BigDecodes(src: Source, o: nat, large: bool, sign: byte, digits: seq<byte>)
    requires |digits| < if large then TWO_TO_32 else 0x100
    requires At(src.bytes, o, BigHeader(large, |digits|) + ([sign] + digits))
    ensures var r := Unpack(src, Good(o));
            if |digits| > 8 then r.next.invalid
            else r.next == Good(o + |BigHeader(large, |digits|)| + 1 + |digits|)
                 && Denoted(r.value) == Some(Signed(sign, FromDigits(digits)))
  {
    var header := BigHeader(large, |digits|);
    AtConcat(src.bytes, o, header, [sign] + digits);
    BigHeaderAt(src, o, large, |digits|);
    SignAndDigitsAt(src, o + |header|, sign, digits);
  }

  lemma BigRead(src: Source, o: nat, large: bool, sign: byte, digits: seq<byte>)
    requires |digits| <= 8 && At(src.bytes, o, BigHeader(large, |digits|) + ([sign] + digits))
    ensures Unpack(src, Good(o)).value == BigData(sign, digits)
  {
    var header := BigHeader(large, |digits|);
    AtConcat(src.bytes, o, header, [sign] + digits);
    BigHeaderAt(src, o, large, |digits|);
    SignAndDigitsRead(src, o + |header|, sign, digits);
  }

  /**
   In which form: unsigned with at most four digits and a plus; signed with at most four digits, a minus and
   31 bits; otherwise the decimal string, behind a minus (45) if there is one.
   */
  lemma BigDelivered(src: Source, o: nat, large: bool, sign: byte, digits: seq<byte>)
    requires |digits| <= 8 && At(src.bytes, o, BigHeader(large, |digits|) + ([sign] + digits))
    ensures var n, v := FromDigits(digits), Unpack(src, Good(o)).value;
            if |digits| <= 4 && sign == 0 then v.UInt? && v.uint == n
            else if |digits| <= 4 && n < 0x8000_0000 then v.SInt? && v.sint == 0 - n
            else v == Str(if sign == 0 then Decimal(n) else [45] + Decimal(n))
  {
    BigRead(src, o, large, sign, digits);
    DigitsFit(digits);
  }

  lemma SignAndDigitsRead(src: Source, o: nat, sign: byte, digits: seq<byte>)
    requires |digits| <= 8 && At(src.bytes, o, [sign] + digits)
    ensures o <= |src.bytes| && DecodeBig(src, Good(o), |digits|).value == BigData(sign, digits)
  {
    AtTail(src.bytes, o, sign, digits);
    Read8At(src, o, sign);
    ReadDigitsAt(src, o + 1, digits);
  }

  // --------------------------------------------------------------------------
  // Records
  // --------------------------------------------------------------------------

  /** A map that finds exactly these fields. */
  ghost predicate Record(d: Data, fields: seq<Pair>) {
    && d.Map?
    && Sorted(d.pairs)
    && (forall p :: p in fields ==> Find(d.pairs, p.key) == Some(p))
    && (forall q :: (forall p :: p in fields ==> !Equivalent(p.key, q)) ==> Find(d.pairs, q) == None)
  }

  ghost predicate Distinct(ps: seq<Pair>) {
    forall i, j :: 0 <= i < j < |ps| ==> !Equivalent(ps[i].key, ps[j].key)
  }

  lemma MapOfIsRecord(ps: seq<Pair>)
    requires Distinct(ps)
    ensures Record(MapOf(ps), ps)
  {
    BuiltSorted([], ps);
    forall p | p in ps ensures Find(MapOf(ps).pairs, p.key) == Some(p) {
      var i :| 0 <= i < |ps| && ps[i] == p;
      Trichotomy(p.key, p.key);
      MapOfFinds(ps, p.key, i, i);
    }
    forall q | forall p :: p in ps ==> !Equivalent(p.key, q) ensures Find(MapOf(ps).pairs, q) == None {
      BuiltMisses(ps, q);
    }
  }

  lemma KeysDiffer(a: seq<byte>, b: seq<byte>)
    requires a != b
    ensures !Equivalent(Str(a), Str(b))
  {
    Trichotomy(Str(a), Str(b));
  }

  /** Under the keys of a reference or a port the receiver finds its fields, and under no other key anything. */
  lemma NodeIdCreation(node: Data, id: Data, creation: Data)
    ensures var fields := [Pair(NODE, node), Pair(ID, id), Pair(CREATION, creation)];
            Record(MapOf(fields), fields)
  {
    KeysDiffer(NODE.str, ID.str);
    KeysDiffer(NODE.str, CREATION.str);
    KeysDiffer(ID.str, CREATION.str);
    MapOfIsRecord([Pair(NODE, node), Pair(ID, id), Pair(CREATION, creation)]);
  }

  /** The same for a new reference. */
  lemma NodeCreationId(node: Data, creation: Data, id: Data)
    ensures var fields := [Pair(NODE, node), Pair(CREATION, creation), Pair(ID, id)];
            Record(MapOf(fields), fields)
  {
    KeysDiffer(NODE.str, CREATION.str);
    KeysDiffer(NODE.str, ID.str);
    KeysDiffer(CREATION.str, ID.str);
    MapOfIsRecord([Pair(NODE, node), Pair(CREATION, creation), Pair(ID, id)]);
  }

  /** The same for a pid. */
  lemma NodeIdSerialCreation(node: Data, id: Data, serial: Data, creation: Data)
    ensures var fields := [Pair(NODE, node), Pair(ID, id), Pair(SERIAL, serial), Pair(CREATION, creation)];
            Record(MapOf(fields), fields)
  {
    KeysDiffer(NODE.str, ID.str);
    KeysDiffer(NODE.str, SERIAL.str);
    KeysDiffer(NODE.str, CREATION.str);
    KeysDiffer(ID.str, SERIAL.str);
    KeysDiffer(ID.str, CREATION.str);
    KeysDiffer(SERIAL.str, CREATION.str);
    MapOfIsRecord([Pair(NODE, node), Pair(ID, id), Pair(SERIAL, serial), Pair(CREATION, creation)]);
  }

  /** The same for an export. */
  lemma ModFunArity(mod: Data, fun: Data, arity: Data)
    ensures var fields := [Pair(MOD, mod), Pair(FUN, fun), Pair(ARITY, arity)];
            Record(MapOf(fields), fields)
  {
    assert MOD.str[0] != FUN.str[0];
    KeysDiffer(MOD.str, FUN.str);
    KeysDiffer(MOD.str, ARITY.str);
    KeysDiffer(FUN.str, ARITY.str);
    MapOfIsRecord([Pair(MOD, mod), Pair(FUN, fun), Pair(ARITY, arity)]);
  }

  // --------------------------------------------------------------------------
  // References, ports, pids, exports: their parts stand one after the other
  // --------------------------------------------------------------------------

  lemma ReferenceOf(src: Source, c: Cursor, node: Step<Data>, id: Step<u32>, creation: Step<byte>)
    requires Within(src, c) && Unpack(src, c) == node
    requires Read32(src, node.next) == id && Read8(src, id.next) == creation
    ensures DecodeReference(src, c)
         == Step(MapOf([Pair(NODE, node.value), Pair(ID, Arr([UInt(id.value)])), Pair(CREATION, SInt(creation.value))]),
                 creation.next)
  {
  }

  lemma PortOf(src: Source, c: Cursor, node: Step<Data>, id: Step<u32>, creation: Step<byte>)
    requires Within(src, c) && Unpack(src, c) == node
    requires Read32(src, node.next) == id && Read8(src, id.next) == creation
    ensures DecodePort(src, c)
         == Step(MapOf([Pair(NODE, node.value), Pair(ID, UInt(id.value)), Pair(CREATION, SInt(creation.value))]),
                 creation.next)
  {
  }

  lemma PIDOf(src: Source, c: Cursor, node: Step<Data>, id: Step<u32>, serial: Step<u32>, creation: Step<byte>)
    requires Within(src, c) && Unpack(src, c) == node
    requires Read32(src, node.next) == id && Read32(src, id.next) == serial && Read8(src, serial.next) == creation
    ensures DecodePID(src, c)
         == Step(MapOf([Pair(NODE, node.value), Pair(ID, UInt(id.value)), Pair(SERIAL, UInt(serial.value)),
                        Pair(CREATION, SInt(creation.value))]),
                 creation.next)
  {
  }

  lemma ExportOf(src: Source, c: Cursor, mod: Step<Data>, fun: Step<Data>, arity: Step<Data>)
    requires Within(src, c) && Unpack(src, c) == mod
    requires Unpack(src, mod.next) == fun && Unpack(src, fun.next) == arity
    ensures DecodeExport(src, c)
         == Step(MapOf([Pair(MOD, mod.value), Pair(FUN, fun.value), Pair(ARITY, arity.value)]), arity.next)
  {
  }

  lemma NewReferenceOf(src: Source, c: Cursor, length: Step<u16>, node: Step<Data>, creation: Step<byte>,
                       ids: Step<seq<Data>>)
    requires Within(src, c) && Read16(src, c) == length && Unpack(src, length.next) == node
    requires Read8(src, node.next) == creation && ReadIds(src, creation.next, length.value, []) == ids
    ensures DecodeNewReference(src, c)
         == Step(MapOf([Pair(NODE, node.value), Pair(CREATION, SInt(creation.value)), Pair(ID, Arr(ids.value))]), ids.next)
  {
  }

  /** A term at `i` that ends at `end`. */
  ghost predicate TermEnds(src: Source, i: nat, t: Term, end: nat) {
    IsTerm(src.scanFloat, t) && At(src.bytes, i, t.word) && end == i + |t.word|
  }

  lemma ReadTerm(src: Source, i: nat, t: Term, end: nat)
    requires TermEnds(src, i, t, end)
    ensures i <= end <= |src.bytes| && Unpack(src, Good(i)) == Step(t.value, Good(end))
  {
    TermAt(src, i, t);
    AtIsSlice(src.bytes, i, t.word);
  }

  // The tags: REFERENCE_EXT is 101, PORT_EXT 102, PID_EXT 103, EXPORT_EXT 113 and NEW_REFERENCE_EXT 114.

  lemma ReferenceDecodes(src: Source, o: nat, node: Term, i: nat, id: u32, creation: byte)
    requires ByteAt(src.bytes, o, 101) && TermEnds(src, o + 1, node, i)
    requires At(src.bytes, i, Store32(id)) && ByteAt(src.bytes, i + 4, creation)
    ensures Unpack(src, Good(o))
         == Step(MapOf([Pair(NODE, node.value), Pair(ID, Arr([UInt(id)])), Pair(CREATION, SInt(creation))]), Good(i + 5))
  {
    ReadTerm(src, o + 1, node, i);
    ReadWordAt(src, i, id);
    Read8At(src, i + 4, creation);
    ReferenceOf(src, Good(o + 1), Step(node.value, Good(i)), Step(id, Good(i + 4)), Step(creation, Good(i + 5)));
    UnpackTag(src, o, REFERENCE_EXT);
  }

  lemma PortDecodes(src: Source, o: nat, node: Term, i: nat, id: u32, creation: byte)
    requires ByteAt(src.bytes, o, 102) && TermEnds(src, o + 1, node, i)
    requires At(src.bytes, i, Store32(id)) && ByteAt(src.bytes, i + 4, creation)
    ensures Unpack(src, Good(o))
         == Step(MapOf([Pair(NODE, node.value), Pair(ID, UInt(id)), Pair(CREATION, SInt(creation))]), Good(i + 5))
  {
    ReadTerm(src, o + 1, node, i);
    ReadWordAt(src, i, id);
    Read8At(src, i + 4, creation);
    PortOf(src, Good(o + 1), Step(node.value, Good(i)), Step(id, Good(i + 4)), Step(creation, Good(i + 5)));
    UnpackTag(src, o, PORT_EXT);
  }

  lemma PIDDecodes(src: Source, o: nat, node: Term, i: nat, id: u32, serial: u32, creation: byte)
    requires ByteAt(src.bytes, o, 103) && TermEnds(src, o + 1, node, i)
    requires At(src.bytes, i, Store32(id)) && At(src.bytes, i + 4, Store32(serial))
    requires ByteAt(src.bytes, i + 8, creation)
    ensures Unpack(src, Good(o))
         == Step(MapOf([Pair(NODE, node.value), Pair(ID, UInt(id)), Pair(SERIAL, UInt(serial)),
                        Pair(CREATION, SInt(creation))]), Good(i + 9))
  {
    ReadTerm(src, o + 1, node, i);
    ReadWordAt(src, i, id);
    ReadWordAt(src, i + 4, serial);
    Read8At(src, i + 8, creation);
    PIDOf(src, Good(o + 1), Step(node.value, Good(i)), Step(id, Good(i + 4)), Step(serial, Good(i + 8)),
          Step(creation, Good(i + 9)));
    UnpackTag(src, o, PID_EXT);
  }

  lemma ExportDecodes(src: Source, o: nat, mod: Term, i: nat, fun: Term, j: nat, arity: Term, end: nat)
    requires ByteAt(src.bytes, o, 113) && TermEnds(src, o + 1, mod, i)
    requires TermEnds(src, i, fun, j) && TermEnds(src, j, arity, end)
    ensures Unpack(src, Good(o))
         == Step(MapOf([Pair(MOD, mod.value), Pair(FUN, fun.value), Pair(ARITY, arity.value)]), Good(end))
  {
    ReadTerm(src, o + 1, mod, i);
    ReadTerm(src, i, fun, j);
    ReadTerm(src, j, arity, end);
    ExportOf(src, Good(o + 1), Step(mod.value, Good(i)), Step(fun.value, Good(j)), Step(arity.value, Good(end)));
    UnpackTag(src, o, EXPORT_EXT);
  }

  function IdWords(ids: seq<u32>): seq<byte> {
    if ids == [] then [] else Store32(ids[0]) + IdWords(ids[1..])
  }

  function IdValues(ids: seq<u32>): (vs: seq<Data>)
    ensures |vs| == |ids| && forall k :: 0 <= k < |ids| ==> vs[k] == UInt(ids[k])
  {
    if ids == [] then [] else [UInt(ids[0])] + IdValues(ids[1..])
  }

  lemma {:induction false} ReadIdsAt(src: Source, o: nat, ids: seq<u32>, filled: seq<Data>)
    requires At(src.bytes, o, IdWords(ids))
    ensures ReadIds(src, Good(o), |ids|, filled) == Step(filled + IdValues(ids), Good(o + |IdWords(ids)|))
    decreases |ids|
  {
    if ids == [] {
      assert filled + IdValues(ids) == filled;
    } else {
      AtConcat(src.bytes, o, Store32(ids[0]), IdWords(ids[1..]));
      ReadWordAt(src, o, ids[0]);
      ReadIdsAt(src, o + 4, ids[1..], filled + [UInt(ids[0])]);
      assert filled + [UInt(ids[0])] + IdValues(ids[1..]) == filled + IdValues(ids);
    }
  }

  /** Ids at `i` that end at `end`. */
  ghost predicate IdsEnd(src: Source, i: nat, ids: seq<u32>, end: nat) {
    |ids| < 0x1_0000 && At(src.bytes, i, IdWords(ids)) && end == i + |IdWords(ids)|
  }

  lemma ReadAllIds(src: Source, i: nat, ids: seq<u32>, end: nat)
    requires IdsEnd(src, i, ids, end)
    ensures i <= end <= |src.bytes| && ReadIds(src, Good(i), |ids|, []) == Step(IdValues(ids), Good(end))
  {
    var values := IdValues(ids);
    assert [] + values == values;
    assert i <= end <= |src.bytes| by {
      AtIsSlice(src.bytes, i, IdWords(ids));
    }
    ReadIdsAt(src, i, ids, []);
  }

  lemma NewReferenceFields(src: Source, o: nat, node: Term, i: nat, creation: byte, ids: seq<u32>, end: nat)
    requires IdsEnd(src, i + 1, ids, end) && At(src.bytes, o, Store16(|ids|))
    requires TermEnds(src, o + 2, node, i) && ByteAt(src.bytes, i, creation)
    ensures o <= |src.bytes|
    ensures DecodeNewReference(src, Good(o))
         == Step(MapOf([Pair(NODE, node.value), Pair(CREATION, SInt(creation)), Pair(ID, Arr(IdValues(ids)))]), Good(end))
  {
    ReadHalfAt(src, o, |ids|);
    ReadTerm(src, o + 2, node, i);
    Read8At(src, i, creation);
    ReadAllIds(src, i + 1, ids, end);
    NewReferenceOf(src, Good(o), Step(|ids|, Good(o + 2)), Step(node.value, Good(i)), Step(creation, Good(i + 1)),
                   Step(IdValues(ids), Good(end)));
  }

  lemma NewReferenceDecodes(src: Source, o: nat, node: Term, i: nat, creation: byte, ids: seq<u32>, end: nat)
    requires ByteAt(src.bytes, o, 114) && IdsEnd(src, i + 1, ids, end)
    requires At(src.bytes, o + 1, Store16(|ids|)) && TermEnds(src, o + 3, node, i) && ByteAt(src.bytes, i, creation)
    ensures Unpack(src, Good(o))
         == Step(MapOf([Pair(NODE, node.value), Pair(CREATION, SInt(creation)), Pair(ID, Arr(IdValues(ids)))]), Good(end))
  {
    NewReferenceFields(src, o + 1, node, i, creation, ids, end);
    UnpackTag(src, o, NEW_REFERENCE_EXT);
  }
}
