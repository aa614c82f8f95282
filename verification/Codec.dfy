/**
 The laws of the codec: decoding undoes encoding, encodings are prefix-free, truncated messages are rejected.
 */
module Codec {
  import opened BigIntegers
  import opened Bytes
  import opened DecoderBounds
  import opened Decoding
  import opened Embedding
  import opened Encoding
  import opened Normal
  import opened Reading
  import opened RoundTrip
  import opened Tags
  import opened Terms
  import opened WireForms
  import opened Wrappers

  /** What `Encoder().pack(d)` leaves in the buffer. */
  function Message(d: Data): seq<byte> {
    [FORMAT_VERSION] + Enc(d)
  }

  lemma AtOfParts(before: seq<byte>, part: seq<byte>, after: seq<byte>)
    ensures At(before + part + after, |before|, part)
  {
    var whole := before + part + after;
    assert whole[|before|..|before| + |part|] == part;
    AtIsSlice(whole, |before|, part);
  }

  /**
   The round trip: a message followed by anything passes the version check, decodes to the normal form
   of the value sent, and leaves the cursor just behind the message.
   */
  lemma MessageRoundTrip(scan: FloatScan, d: Data, trailing: seq<byte>)
    requires Encodable(d)
    ensures var src := Source(Message(d) + trailing, scan);
            && Start(src, false) == Good(1)
            && Unpack(src, Good(1)) == Step(Norm(d), Good(|Message(d)|))
  {
    var src := Source(Message(d) + trailing, scan);
    AtOfParts([FORMAT_VERSION], Enc(d), trailing);
    assert src.bytes[0] == FORMAT_VERSION;
    DecodeEncoded(src, 1, d);
  }

  /**
   Of everything `pack` completes on, the value received is the value sent exactly when it has no Undefined,
   no UINT below 256, real maps, and no string too long for its length field.
   */
  lemma MessageSurvivesIff(scan: FloatScan, d: Data, trailing: seq<byte>)
    requires CountsFit(d)
    ensures Unpack(Source(Message(d) + trailing, scan), Good(1)).value == d
       <==> Canonical(d) && WellFormed(d) && StringsFit(d)
  {
    if StringsFit(d) {
      MessageRoundTrip(scan, d, trailing);
      NormIsProjection(d);
    } else {
      UnpackBounded(Source(Message(d) + trailing, scan), Good(1));
    }
  }

  /** Two values whose encodings start at the same place are encoded and decoded alike. */
  lemma SamePlace(src: Source, o: nat, v: Data, w: Data)
    requires Encodable(v) && Encodable(w) && At(src.bytes, o, Enc(v)) && At(src.bytes, o, Enc(w))
    ensures |Enc(v)| == |Enc(w)| && Norm(v) == Norm(w)
  {
    DecodeEncoded(src, o, v);
    DecodeEncoded(src, o, w);
  }

  /** No encoding is a proper prefix of another, and equal encodings come from values alike after a round trip. */
  lemma PrefixFree(v: Data, w: Data)
    requires Encodable(v) && Encodable(w) && Enc(v) <= Enc(w)
    ensures Enc(v) == Enc(w) && Norm(v) == Norm(w)
  {
    AtIsSlice(Enc(w), 0, Enc(v));
    AtIsSlice(Enc(w), 0, Enc(w));
    SamePlace(Source(Enc(w), _ => None), 0, v, w);
  }

  /** The length field of a binary has 32 bits and the writer does not check: this is where the round trip ends. */
  lemma StringRoundTripIff(scan: FloatScan, s: seq<byte>)
    ensures Unpack(Source(Enc(Str(s)), scan), Good(0)) == Step(Str(s), Good(|Enc(Str(s))|)) <==> |s| < TWO_TO_32
  {
    var bytes := Enc(Str(s));
    var src := Source(bytes, scan);
    AtIsSlice(bytes, 0, bytes);
    if |s| < TWO_TO_32 {
      DecodeEncoded(src, 0, Str(s));
    } else {
      AtConcat(bytes, 0, Header(BINARY_EXT, |s|), s);
      AtTail(bytes, 0, BINARY_EXT, Store32(|s|));
      UnpackTag(src, 0, BINARY_EXT);
      Read32At(src, 1, |s|);
    }
  }

  /** The writers' big integers: every unsigned 64-bit and every signed one but the least comes back exactly. */
  lemma BigRoundTrip(src: Source, o: nat, d: int)
    requires -TWO_TO_64 < d < TWO_TO_64 && At(src.bytes, o, EncBig(d))
    ensures Unpack(src, Good(o)) == Step(BigForm(d), Good(o + |EncBig(d)|))
    ensures Denoted(BigForm(d)) == Some(d)
    ensures |EncBig(d)| <= 11 && (|EncBig(d)| > 3 ==> EncBig(d)[|EncBig(d)| - 1] != 0)
  {
    BigAt(src, o, d);
    UnpackTag(src, o, SMALL_BIG_EXT);
    BigFormDenotes(d);
  }

  lemma BigFormDenotes(d: int)
    requires -TWO_TO_64 < d < TWO_TO_64
    ensures Denoted(BigForm(d)) == Some(d)
    ensures |EncBig(d)| <= 11 && (|EncBig(d)| > 3 ==> EncBig(d)[|EncBig(d)| - 1] != 0)
  {
    var n: int := if d < 0 then -d else d;
    BigDataOfDigits(d);
    DigitsDenote(n);
    BigDataDenotes(if d < 0 then 1 else 0, Digits(n));
  }

  /** No proper prefix of a message is accepted, the empty one included, and none reaches a COMPRESSED tag. */
  lemma TruncatedMessageIsRejected(scan: FloatScan, d: Data, n: nat)
    requires Encodable(d) && n < |Message(d)|
    ensures var src := Source(Message(d)[..n], scan);
            var next := Unpack(src, Start(src, false)).next;
            next.invalid && !next.compressed
  {
    var s, t := Source(Message(d)[..n], scan), Source(Message(d), scan);
    assert Message(d) + [] == Message(d);
    MessageRoundTrip(scan, d, []);
    if n > 0 {
      if Unpack(s, Good(1)).next.compressed {
        CompressedMoves(s, t, 0, Good(1));
      } else if !Unpack(s, Good(1)).next.invalid {
        UnpackMoves(s, t, 0, Good(1));
      }
    }
  }
}
