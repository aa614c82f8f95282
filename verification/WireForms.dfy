/**
 Terms, the byte strings the decoder accepts as a whole, and what can be built from them.
 */
module WireForms {
  import opened Bytes
  import opened Decoding
  import opened Embedding
  import opened Encoding
  import opened Normal
  import opened Reading
  import opened Tags
  import opened Terms
  import opened Wrappers

  type FloatScan = seq<byte> -> Option<u64>

  datatype Term = Term(word: seq<byte>, value: Data)

  ghost predicate IsTerm(scan: FloatScan, t: Term) {
    Unpack(Source(t.word, scan), Good(0)) == Step(t.value, Good(|t.word|))
  }

  /** A term decodes to the same value wherever it stands. */
  lemma TermAt(src: Source, o: nat, t: Term)
    requires IsTerm(src.scanFloat, t) && At(src.bytes, o, t.word)
    ensures Unpack(src, Good(o)) == Step(t.value, Good(o + |t.word|))
  {
    AtIsSlice(src.bytes, o, t.word);
    var s := Source(t.word, src.scanFloat);
    forall k | 0 <= k < |t.word| ensures s.bytes[k] == src.bytes[o + k] {
      assert src.bytes[o..o + |t.word|][k] == t.word[k];
    }
    UnpackMoves(s, src, o, Good(0));
  }

  /** No accepted byte string, from whatever encoder, is a proper prefix of another. */
  lemma TermsArePrefixFree(scan: FloatScan, t: Term, u: Term)
    requires IsTerm(scan, t) && IsTerm(scan, u) && t.word <= u.word
    ensures t == u
  {
    AtIsSlice(u.word, 0, t.word);
    TermAt(Source(u.word, scan), 0, t);
  }

  /** Cutting a term short anywhere makes decoding fail, and for no other reason than the bytes that are missing. */
  lemma TruncationIsDetected(scan: FloatScan, t: Term, n: nat)
    requires IsTerm(scan, t) && n < |t.word|
    ensures var next := Unpack(Source(t.word[..n], scan), Good(0)).next;
            next.invalid && !next.compressed
  {
    var s := Source(t.word[..n], scan);
    if Unpack(s, Good(0)).next.compressed {
      CompressedMoves(s, Source(t.word, scan), 0, Good(0));
    } else if !Unpack(s, Good(0)).next.invalid {
      UnpackMoves(s, Source(t.word, scan), 0, Good(0));
    }
  }

  function Words(ts: seq<Term>): seq<byte> {
    if ts == [] then [] else ts[0].word + Words(ts[1..])
  }

  function Values(ts: seq<Term>): (vs: seq<Data>)
    ensures |vs| == |ts|
  {
    if ts == [] then [] else [ts[0].value] + Values(ts[1..])
  }

  lemma {:induction false} TermsAt(src: Source, o: nat, ts: seq<Term>, filled: seq<Data>)
    requires forall t :: t in ts ==> IsTerm(src.scanFloat, t)
    requires At(src.bytes, o, Words(ts))
    ensures DecodeArray(src, Good(o), |ts|, filled) == Step(Arr(filled + Values(ts)), Good(o + |Words(ts)|))
    decreases |ts|
  {
    if ts == [] {
      assert filled + Values(ts) == filled;
    } else {
      AtConcat(src.bytes, o, ts[0].word, Words(ts[1..]));
      assert ts[0] in ts;
      TermAt(src, o, ts[0]);
      TermsAt(src, o + |ts[0].word|, ts[1..], filled + [ts[0].value]);
      assert filled + [ts[0].value] + Values(ts[1..]) == filled + Values(ts);
    }
  }

  function ListForm(ts: seq<Term>): seq<byte> {
    Header(LIST_EXT, |ts|) + Words(ts) + [NIL_EXT]
  }

  function SmallTupleForm(ts: seq<Term>): seq<byte>
    requires |ts| < 0x100
  {
    [SMALL_TUPLE_EXT] + [|ts|] + Words(ts)
  }

  function LargeTupleForm(ts: seq<Term>): seq<byte> {
    Header(LARGE_TUPLE_EXT, |ts|) + Words(ts)
  }

  function StringForm(bs: seq<byte>): seq<byte> {
    [STRING_EXT] + Store16(|bs|) + bs
  }

  lemma CountedLayout(src: Source, o: nat, tag: byte, ts: seq<Term>)
    requires |ts| < TWO_TO_32 && At(src.bytes, o, Header(tag, |ts|) + Words(ts))
    ensures ByteAt(src.bytes, o, tag) && At(src.bytes, o + 5, Words(ts))
    ensures o + 1 <= |src.bytes| && Read32(src, Good(o + 1)) == Step(|ts|, Good(o + 5))
  {
    AtConcat(src.bytes, o, Header(tag, |ts|), Words(ts));
    HeaderAt(src, o, tag, |ts|);
  }

  lemma WordsAt(src: Source, o: nat, ts: seq<Term>)
    requires forall t :: t in ts ==> IsTerm(src.scanFloat, t)
    requires At(src.bytes, o, Words(ts))
    ensures DecodeArray(src, Good(o), |ts|, []) == Step(Arr(Values(ts)), Good(o + |Words(ts)|))
  {
    TermsAt(src, o, ts, []);
    assert [] + Values(ts) == Values(ts);
  }

  lemma ListFormAt(src: Source, o: nat, ts: seq<Term>)
    requires |ts| < TWO_TO_32 && forall t :: t in ts ==> IsTerm(src.scanFloat, t)
    requires At(src.bytes, o, ListForm(ts))
    ensures ByteAt(src.bytes, o, LIST_EXT)
    ensures DecodeList(src, Good(o + 1)) == Step(Arr(Values(ts)), Good(o + |ListForm(ts)|))
  {
    AtConcat(src.bytes, o, Header(LIST_EXT, |ts|) + Words(ts), [NIL_EXT]);
    AtSingle(src.bytes, o + 5 + |Words(ts)|, NIL_EXT);
    CountedLayout(src, o, LIST_EXT, ts);
    WordsAt(src, o + 5, ts);
    DecodeListAt(src, o + 1, |ts|, Values(ts), o + 5 + |Words(ts)|);
  }

  lemma SmallTupleFormAt(src: Source, o: nat, ts: seq<Term>)
    requires |ts| < 0x100 && forall t :: t in ts ==> IsTerm(src.scanFloat, t)
    requires At(src.bytes, o, SmallTupleForm(ts))
    ensures ByteAt(src.bytes, o, SMALL_TUPLE_EXT)
    ensures DecodeSmallTuple(src, Good(o + 1)) == Step(Arr(Values(ts)), Good(o + |SmallTupleForm(ts)|))
  {
    AtConcat(src.bytes, o, [SMALL_TUPLE_EXT] + [|ts|], Words(ts));
    AtTail(src.bytes, o, SMALL_TUPLE_EXT, [|ts|]);
    AtSingle(src.bytes, o + 1, |ts|);
    Read8At(src, o + 1, |ts|);
    WordsAt(src, o + 2, ts);
  }

  /** Each byte as a SMALL_INTEGER_EXT term. */
  function ByteTerms(bs: seq<byte>): (ts: seq<Term>)
    ensures |ts| == |bs|
  {
    if bs == [] then [] else [Term([SMALL_INTEGER_EXT, bs[0]], SInt(bs[0]))] + ByteTerms(bs[1..])
  }

  lemma ByteIsTerm(scan: FloatScan, b: byte)
    ensures IsTerm(scan, Term([SMALL_INTEGER_EXT, b], SInt(b)))
  {
    var src := Source([SMALL_INTEGER_EXT, b], scan);
    AtIsSlice(src.bytes, 0, [SMALL_INTEGER_EXT, b]);
    SmallIntegerAt(src, 0, b);
    UnpackTag(src, 0, SMALL_INTEGER_EXT);
  }

  lemma {:induction false} ByteTermsAreTerms(scan: FloatScan, bs: seq<byte>)
    ensures forall t :: t in ByteTerms(bs) ==> IsTerm(scan, t)
  {
    if bs != [] {
      ByteIsTerm(scan, bs[0]);
      ByteTermsAreTerms(scan, bs[1..]);
    }
  }

  lemma {:induction false} SmallIntegersAt(src: Source, o: nat, bs: seq<byte>, filled: seq<Data>)
    requires At(src.bytes, o, bs)
    ensures ReadSmallIntegers(src, Good(o), |bs|, filled) == Step(filled + Values(ByteTerms(bs)), Good(o + |bs|))
    decreases |bs|
  {
    if bs == [] {
      assert filled + Values(ByteTerms(bs)) == filled;
    } else {
      var ts := ByteTerms(bs);
      SmallIntegersAt(src, o + 1, bs[1..], filled + [SInt(bs[0])]);
      assert ts[0].value == SInt(bs[0]) && ts[1..] == ByteTerms(bs[1..]);
      assert filled + [SInt(bs[0])] + Values(ts[1..]) == filled + Values(ts);
    }
  }

  lemma StringLayout(src: Source, o: nat, bs: seq<byte>)
    requires |bs| < 0x1_0000 && At(src.bytes, o, StringForm(bs))
    ensures ByteAt(src.bytes, o, STRING_EXT)
    ensures o + 1 <= |src.bytes| && Read16(src, Good(o + 1)) == Step(|bs|, Good(o + 3))
    ensures At(src.bytes, o + 3, bs) && o + 3 + |bs| <= |src.bytes|
  {
    AtConcat(src.bytes, o, [STRING_EXT] + Store16(|bs|), bs);
    AtTail(src.bytes, o, STRING_EXT, Store16(|bs|));
    Read16At(src, o + 1, |bs|);
    AtIsSlice(src.bytes, o + 3, bs);
  }

  lemma StringFormAt(src: Source, o: nat, bs: seq<byte>)
    requires |bs| < 0x1_0000 && At(src.bytes, o, StringForm(bs))
    ensures ByteAt(src.bytes, o, STRING_EXT)
    ensures DecodeStringAsList(src, Good(o + 1)) == Step(Arr(Values(ByteTerms(bs))), Good(o + 3 + |bs|))
  {
    StringLayout(src, o, bs);
    SmallIntegersAt(src, o + 3, bs, []);
    assert [] + Values(ByteTerms(bs)) == Values(ByteTerms(bs));
  }

  /** The ways to write down the list of the terms `ts`. */
  ghost predicate Spells(form: seq<byte>, ts: seq<Term>) {
    || form == ListForm(ts)
    || form == LargeTupleForm(ts)
    || (|ts| < 0x100 && form == SmallTupleForm(ts))
    || (ts == [] && form == [NIL_EXT])
    || exists bs :: SpellsBytes(form, ts, bs)
  }

  ghost predicate SpellsBytes(form: seq<byte>, ts: seq<Term>, bs: seq<byte>) {
    |bs| < 0x1_0000 && ts == ByteTerms(bs) && form == StringForm(bs)
  }

  /**
   All spellings mean the same: a sequence of terms decodes alike as a list and as a tuple, a list of
   bytes alike as a STRING_EXT, as a list of small integers and as a tuple of them.
   */
  lemma WireFormsAgree(src: Source, o: nat, form: seq<byte>, ts: seq<Term>)
    requires |ts| < TWO_TO_32 && forall t :: t in ts ==> IsTerm(src.scanFloat, t)
    requires Spells(form, ts) && At(src.bytes, o, form)
    ensures Unpack(src, Good(o)) == Step(Arr(Values(ts)), Good(o + |form|))
  {
    if form == ListForm(ts) {
      ListDecodes(src, o, ts);
    } else if form == LargeTupleForm(ts) {
      LargeTupleDecodes(src, o, ts);
    } else if |ts| < 0x100 && form == SmallTupleForm(ts) {
      SmallTupleDecodes(src, o, ts);
    } else if ts == [] && form == [NIL_EXT] {
      NilAt(src, o);
    } else {
      var bs :| SpellsBytes(form, ts, bs);
      StringDecodes(src, o, bs);
    }
  }

  lemma ListDecodes(src: Source, o: nat, ts: seq<Term>)
    requires |ts| < TWO_TO_32 && forall t :: t in ts ==> IsTerm(src.scanFloat, t)
    requires At(src.bytes, o, ListForm(ts))
    ensures Unpack(src, Good(o)) == Step(Arr(Values(ts)), Good(o + |ListForm(ts)|))
  {
    ListFormAt(src, o, ts);
    UnpackTag(src, o, LIST_EXT);
  }

  lemma LargeTupleDecodes(src: Source, o: nat, ts: seq<Term>)
    requires |ts| < TWO_TO_32 && forall t :: t in ts ==> IsTerm(src.scanFloat, t)
    requires At(src.bytes, o, LargeTupleForm(ts))
    ensures Unpack(src, Good(o)) == Step(Arr(Values(ts)), Good(o + |LargeTupleForm(ts)|))
  {
    CountedLayout(src, o, LARGE_TUPLE_EXT, ts);
    WordsAt(src, o + 5, ts);
    UnpackTag(src, o, LARGE_TUPLE_EXT);
  }

  lemma SmallTupleDecodes(src: Source, o: nat, ts: seq<Term>)
    requires |ts| < 0x100 && forall t :: t in ts ==> IsTerm(src.scanFloat, t)
    requires At(src.bytes, o, SmallTupleForm(ts))
    ensures Unpack(src, Good(o)) == Step(Arr(Values(ts)), Good(o + |SmallTupleForm(ts)|))
  {
    SmallTupleFormAt(src, o, ts);
    UnpackTag(src, o, SMALL_TUPLE_EXT);
  }

  lemma StringDecodes(src: Source, o: nat, bs: seq<byte>)
    requires |bs| < 0x1_0000 && At(src.bytes, o, StringForm(bs))
    ensures Unpack(src, Good(o)) == Step(Arr(Values(ByteTerms(bs))), Good(o + |StringForm(bs)|))
  {
    StringFormAt(src, o, bs);
    UnpackTag(src, o, STRING_EXT);
  }

  // --------------------------------------------------------------------------
  // Maps
  // --------------------------------------------------------------------------

  datatype PairTerm = PairTerm(key: Term, value: Term)

  ghost predicate IsPairTerm(scan: FloatScan, t: PairTerm) {
    IsTerm(scan, t.key) && IsTerm(scan, t.value)
  }

  function PairWords(ts: seq<PairTerm>): seq<byte> {
    if ts == [] then [] else (ts[0].key.word + ts[0].value.word) + PairWords(ts[1..])
  }

  function PairValues(ts: seq<PairTerm>): (ps: seq<Pair>)
    ensures |ps| == |ts|
  {
    if ts == [] then [] else [Pair(ts[0].key.value, ts[0].value.value)] + PairValues(ts[1..])
  }

  function MapForm(ts: seq<PairTerm>): seq<byte> {
    Header(MAP_EXT, |ts|) + PairWords(ts)
  }

  lemma PairTermAt(src: Source, o: nat, t: PairTerm)
    requires IsPairTerm(src.scanFloat, t) && At(src.bytes, o, t.key.word + t.value.word)
    ensures o <= |src.bytes|
    ensures UnpackPair(src, Good(o))
         == Step(Pair(t.key.value, t.value.value), Good(o + |t.key.word + t.value.word|))
  {
    AtConcat(src.bytes, o, t.key.word, t.value.word);
    AtIsSlice(src.bytes, o, t.key.word);
    TermAt(src, o, t.key);
    TermAt(src, o + |t.key.word|, t.value);
  }

  lemma {:induction false} PairTermsAt(src: Source, o: nat, ts: seq<PairTerm>, read: seq<Pair>)
    requires forall t :: t in ts ==> IsPairTerm(src.scanFloat, t)
    requires At(src.bytes, o, PairWords(ts))
    ensures ReadPairs(src, Good(o), |ts|, read) == Step(Some(read + PairValues(ts)), Good(o + |PairWords(ts)|))
    decreases |ts|
  {
    if ts == [] {
      assert read + PairValues(ts) == read;
    } else {
      var word, p := ts[0].key.word + ts[0].value.word, Pair(ts[0].key.value, ts[0].value.value);
      AtConcat(src.bytes, o, word, PairWords(ts[1..]));
      assert ts[0] in ts;
      PairTermAt(src, o, ts[0]);
      PairTermsAt(src, o + |word|, ts[1..], read + [p]);
      assert read + [p] + PairValues(ts[1..]) == read + PairValues(ts);
    }
  }

  lemma MapLayout(src: Source, o: nat, ts: seq<PairTerm>)
    requires |ts| < TWO_TO_32 && At(src.bytes, o, MapForm(ts))
    ensures ByteAt(src.bytes, o, MAP_EXT) && At(src.bytes, o + 5, PairWords(ts))
    ensures o + 5 <= |src.bytes| && Read32(src, Good(o + 1)) == Step(|ts|, Good(o + 5))
  {
    AtConcat(src.bytes, o, Header(MAP_EXT, |ts|), PairWords(ts));
    HeaderAt(src, o, MAP_EXT, |ts|);
  }

  /** A map is built from its pairs in the order they come. */
  lemma MapDecodes(src: Source, o: nat, ts: seq<PairTerm>)
    requires |ts| < TWO_TO_32 && forall t :: t in ts ==> IsPairTerm(src.scanFloat, t)
    requires At(src.bytes, o, MapForm(ts))
    ensures Unpack(src, Good(o)) == Step(MapOf(PairValues(ts)), Good(o + |MapForm(ts)|))
  {
    MapLayout(src, o, ts);
    PairTermsAt(src, o + 5, ts, []);
    assert [] + PairValues(ts) == PairValues(ts);
    DecodeMapAt(src, o + 1, |ts|, PairValues(ts), o + 5 + |PairWords(ts)|);
    UnpackMap(src, o, Step(MapOf(PairValues(ts)), Good(o + 5 + |PairWords(ts)|)));
  }
}
