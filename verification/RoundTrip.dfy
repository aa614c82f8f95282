/**
 Decoding undoes encoding up to `Norm`, anywhere in a buffer and whatever follows.
 */
module RoundTrip {
  import opened Bytes
  import opened Decoding
  import opened Encoding
  import opened Normal
  import opened Reading
  import opened Tags
  import opened Terms
  import opened WireForms

  lemma DecodeEncodedInteger(src: Source, o: nat, d: Data)
    requires (d.SInt? || d.UInt?) && At(src.bytes, o, Enc(d))
    ensures Unpack(src, Good(o)) == Step(Norm(d), Good(o + |Enc(d)|))
  {
    var n := if d.SInt? then d.sint else d.uint;
    if 0 <= n <= 255 {
      SmallIntegerAt(src, o, n);
      UnpackTag(src, o, SMALL_INTEGER_EXT);
    } else if d.SInt? {
      IntegerAt(src, o, n);
      UnpackTag(src, o, INTEGER_EXT);
    } else {
      BigAt(src, o, n);
      UnpackTag(src, o, SMALL_BIG_EXT);
    }
  }

  lemma DecodeEncodedAtom(src: Source, o: nat, d: Data)
    requires (d.Undefined? || d.Null? || d.Bool?) && At(src.bytes, o, Enc(d))
    ensures Unpack(src, Good(o)) == Step(Norm(d), Good(o + |Enc(d)|))
  {
    SmallAtomAt(src, o, if d == Bool(true) then TRUE else if d == Bool(false) then FALSE else NIL);
    UnpackTag(src, o, SMALL_ATOM_EXT);
  }

  lemma DecodeEncodedBytes(src: Source, o: nat, d: Data)
    requires (d.Double? || d.Str?) && Encodable(d) && At(src.bytes, o, Enc(d))
    ensures Unpack(src, Good(o)) == Step(Norm(d), Good(o + |Enc(d)|))
  {
    if d.Double? {
      DoubleAt(src, o, d.bits);
      UnpackTag(src, o, NEW_FLOAT_EXT);
    } else {
      StringAt(src, o, d.str);
      UnpackTag(src, o, BINARY_EXT);
    }
  }

  /** Each element with its bytes. */
  function TermsOf(ds: seq<Data>): (ts: seq<Term>)
    ensures |ts| == |ds|
  {
    if ds == [] then [] else [Term(Enc(ds[0]), Norm(ds[0]))] + TermsOf(ds[1..])
  }

  function PairTermsOf(ps: seq<Pair>): (ts: seq<PairTerm>)
    ensures |ts| == |ps|
  {
    if ps == [] then []
    else
      var p := ps[0];
      [PairTerm(Term(Enc(p.key), Norm(p.key)), Term(Enc(p.value), Norm(p.value)))] + PairTermsOf(ps[1..])
  }

  lemma {:induction false} TermsOfSpell(ds: seq<Data>)
    ensures Words(TermsOf(ds)) == EncSeq(ds) && Values(TermsOf(ds)) == NormSeq(ds)
  {
    if ds != [] {
      TermsOfSpell(ds[1..]);
      assert TermsOf(ds)[1..] == TermsOf(ds[1..]);
    }
  }

  lemma {:induction false} PairTermsOfSpell(ps: seq<Pair>)
    ensures PairWords(PairTermsOf(ps)) == EncPairs(ps) && PairValues(PairTermsOf(ps)) == NormPairs(ps)
  {
    if ps != [] {
      PairTermsOfSpell(ps[1..]);
      assert PairTermsOf(ps)[1..] == PairTermsOf(ps[1..]);
    }
  }

  /** What `pack` writes is a term for the normal form. */
  lemma {:induction false} EncodedIsTerm(scan: FloatScan, d: Data)
    requires Encodable(d)
    ensures IsTerm(scan, Term(Enc(d), Norm(d)))
    decreases d, 1
  {
    var src := Source(Enc(d), scan);
    AtIsSlice(Enc(d), 0, Enc(d));
    if d.Arr? {
      EncodedArrayIsTerm(scan, d);
    } else if d.Map? {
      EncodedMapIsTerm(scan, d);
    } else if d.SInt? || d.UInt? {
      DecodeEncodedInteger(src, 0, d);
    } else if d.Double? || d.Str? {
      DecodeEncodedBytes(src, 0, d);
    } else {
      DecodeEncodedAtom(src, 0, d);
    }
  }

  lemma {:induction false} EncodedArrayIsTerm(scan: FloatScan, d: Data)
    requires d.Arr? && Encodable(d)
    ensures IsTerm(scan, Term(Enc(d), Norm(d)))
    decreases d, 0
  {
    var src, ts := Source(Enc(d), scan), TermsOf(d.items);
    AtIsSlice(Enc(d), 0, Enc(d));
    if d.items == [] {
      AtSingle(src.bytes, 0, NIL_EXT);
      NilAt(src, 0);
    } else {
      TermsOfSpell(d.items);
      TermsOfAreTerms(scan, d.items);
      ListDecodes(src, 0, ts);
    }
  }

  lemma {:induction false} TermsOfAreTerms(scan: FloatScan, ds: seq<Data>)
    requires forall x :: x in ds ==> Encodable(x)
    ensures forall t :: t in TermsOf(ds) ==> IsTerm(scan, t)
    decreases ds
  {
    if ds != [] {
      EncodedIsTerm(scan, ds[0]);
      TermsOfAreTerms(scan, ds[1..]);
    }
  }

  lemma {:induction false} EncodedMapIsTerm(scan: FloatScan, d: Data)
    requires d.Map? && Encodable(d)
    ensures IsTerm(scan, Term(Enc(d), Norm(d)))
    decreases d, 0
  {
    var src, ts := Source(Enc(d), scan), PairTermsOf(d.pairs);
    AtIsSlice(Enc(d), 0, Enc(d));
    assert forall p :: p in d.pairs ==> PairCountsFit(p) && PairStringsFit(p);
    PairTermsOfSpell(d.pairs);
    PairTermsOfAreTerms(scan, d.pairs);
    MapDecodes(src, 0, ts);
  }

  lemma {:induction false} EncodedPairIsTerm(scan: FloatScan, p: Pair)
    requires PairCountsFit(p) && PairStringsFit(p)
    ensures IsPairTerm(scan, PairTerm(Term(Enc(p.key), Norm(p.key)), Term(Enc(p.value), Norm(p.value))))
    decreases p
  {
    EncodedIsTerm(scan, p.key);
    EncodedIsTerm(scan, p.value);
  }

  lemma {:induction false} PairTermsOfAreTerms(scan: FloatScan, ps: seq<Pair>)
    requires forall p :: p in ps ==> PairCountsFit(p) && PairStringsFit(p)
    ensures forall t :: t in PairTermsOf(ps) ==> IsPairTerm(scan, t)
    decreases ps
  {
    if ps != [] {
      EncodedPairIsTerm(scan, ps[0]);
      PairTermsOfAreTerms(scan, ps[1..]);
    }
  }

  /**
   Wherever the bytes of an encodable value stand, `unpack` returns its normal form, consumes exactly
   those bytes and leaves `isInvalid` false.
   */
  lemma DecodeEncoded(src: Source, o: nat, d: Data)
    requires Encodable(d) && At(src.bytes, o, Enc(d))
    ensures Unpack(src, Good(o)) == Step(Norm(d), Good(o + |Enc(d)|))
  {
    EncodedIsTerm(src.scanFloat, d);
    TermAt(src, o, Term(Enc(d), Norm(d)));
  }
}
