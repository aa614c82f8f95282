/** Which bytes each value is sent as, told byte by byte and with the numbers of the External Term Format. */
module WireBytes {
  import opened Atoms
  import opened BigIntegers
  import opened Bytes
  import opened Codec
  import opened Encoders
  import opened Encoding
  import opened Sequences
  import opened Terms
  import opened WireForms

  /** An integer, signed or not, that is sent in one byte. */
  predicate IsByte(d: Data) {
    (d.SInt? && 0 <= d.sint <= 255) || (d.UInt? && d.uint <= 255)
  }

  /** The first byte of a value says of what kind it is; the first byte of a message is the version. */
  lemma FirstByte(d: Data)
    ensures Enc(d) != [] && Message(d)[0] == 131 && Message(d)[1..] == Enc(d)
    ensures Enc(d)[0] == 108 <==> d.Arr? && d.items != []
    ensures Enc(d)[0] == 106 <==> d.Arr? && d.items == []
    ensures Enc(d)[0] == 116 <==> d.Map?
    ensures Enc(d)[0] == 109 <==> d.Str?
    ensures Enc(d)[0] == 70 <==> d.Double?
    ensures Enc(d)[0] == 97 <==> IsByte(d)
    ensures Enc(d)[0] == 98 <==> d.SInt? && !IsByte(d)
    ensures Enc(d)[0] == 110 <==> d.UInt? && !IsByte(d)
    ensures Enc(d)[0] == 115 <==> d.Null? || d.Undefined? || d.Bool?
  {
  }

  /** A short atom of this name. */
  function AtomBytes(name: string): seq<byte>
    requires |name| < 0x100 && forall k :: 0 <= k < |name| ==> name[k] as int < 0x80
  {
    [115, |name|] + Ascii(name)
  }

  lemma AtomsSent()
    ensures Enc(Null) == AtomBytes("nil") && Enc(Undefined) == AtomBytes("nil")
    ensures Enc(Bool(true)) == AtomBytes("true") && Enc(Bool(false)) == AtomBytes("false")
  {
    NamesSpelled();
  }

  /** `w` holds, from `i` on, the `k` bytes of `n`, most significant first. */
  predicate BigEndian(w: seq<byte>, i: nat, n: int, k: nat) {
    i + k <= |w| && forall j :: i <= j < i + k ==> w[j] == n / Power256(i + k - 1 - j) % 0x100
  }

  lemma StoreIsBigEndian(n: int, k: nat)
    ensures BigEndian(Store(n, k), 0, n, k)
  {
    forall j | 0 <= j < k ensures Store(n, k)[j] == n / Power256(k - 1 - j) % 0x100 {
      StoredByte(n, k, j);
    }
  }

  /** Numbers stored behind a tag, and whatever follows. */
  lemma BehindTag(tag: byte, n: int, k: nat, rest: seq<byte>)
    ensures BigEndian([tag] + Store(n, k) + rest, 1, n, k)
  {
    StoreIsBigEndian(n, k);
    var w := [tag] + Store(n, k) + rest;
    forall j | 1 <= j < 1 + k ensures w[j] == n / Power256(k - j) % 0x100 {
      assert w[j] == Store(n, k)[j - 1];
    }
  }

  /** Integers: one byte, or four in two's complement. */
  lemma SignedSent(i: i32)
    ensures 0 <= i <= 255 ==> Enc(SInt(i)) == [97, i]
    ensures !(0 <= i <= 255) ==> |Enc(SInt(i))| == 5 && BigEndian(Enc(SInt(i)), 1, i, 4)
  {
    if !(0 <= i <= 255) {
      BehindTag(98, i, 4, []);
      assert Enc(SInt(i)) == [98] + Store(i, 4) + [];
    }
  }

  /** A big integer: a count, a sign, and that many digits, least significant first, none too many. */
  lemma BigSent(d: int)
    requires -TWO_TO_64 < d < TWO_TO_64
    ensures var w, n := EncBig(d), if d < 0 then -d else d;
            && 3 <= |w| <= 11 && w[0] == 110 && w[1] == |w| - 3 && w[2] == (if d < 0 then 1 else 0)
            && (|w| > 3 ==> w[|w| - 1] != 0)
            && (|w| - 3 <= 4 <==> n < 0x1_0000_0000)
            && forall j :: 3 <= j < |w| ==> w[j] == n / Power256(j - 3) % 0x100
  {
    var n := if d < 0 then -d else d;
    BigDataOfDigits(d);
    PowerValues();
    DigitsLength(n, 4);
    DigitsDenote(n);
    DigitsBehind([110, |Digits(n)|, if d < 0 then 1 else 0], n);
  }

  lemma DigitsBehind(head: seq<byte>, n: nat)
    requires |head| == 3
    ensures var w := head + Digits(n);
            forall j :: 3 <= j < |w| ==> w[j] == n / Power256(j - 3) % 0x100
  {
    forall j | 0 <= j < |Digits(n)| ensures Digits(n)[j] == n / Power256(j) % 0x100 {
      DigitAt(n, j);
    }
  }

  /** Unsigned numbers: one byte, or a big integer. */
  lemma UnsignedSent(u: u32)
    ensures Enc(UInt(u)) == if u <= 255 then [97, u] else EncBig(u)
  {
  }

  lemma DoubleSent(bits: u64)
    ensures |Enc(Double(bits))| == 9 && BigEndian(Enc(Double(bits)), 1, bits, 8)
  {
    BehindTag(70, bits, 8, []);
    assert Enc(Double(bits)) == [70] + Store(bits, 8) + [];
  }

  lemma StringSent(s: seq<byte>)
    ensures var w := Enc(Str(s));
            |w| == 5 + |s| && BigEndian(w, 1, |s|, 4) && w[5..] == s
  {
    BehindTag(109, |s|, 4, s);
  }

  // --------------------------------------------------------------------------
  // Lists and maps: where each element stands
  // --------------------------------------------------------------------------

  /** How many bytes the values take together. */
  function TotalLength(ds: seq<Data>): nat {
    if ds == [] then 0 else TotalLength(Front(ds)) + |Enc(Last(ds))|
  }

  function PairLength(p: Pair): nat {
    |Enc(p.key)| + |Enc(p.value)|
  }

  function TotalPairLength(ps: seq<Pair>): nat {
    if ps == [] then 0 else TotalPairLength(Front(ps)) + PairLength(Last(ps))
  }

  /** `part` stands in `w` from `i` on. */
  predicate Holds(w: seq<byte>, i: nat, part: seq<byte>) {
    i + |part| <= |w| && w[i..i + |part|] == part
  }

  lemma HoldsInside(a: seq<byte>, part: seq<byte>, c: seq<byte>)
    ensures Holds(a + part + c, |a|, part)
  {
    assert (a + part + c)[|a|..|a| + |part|] == part;
  }

  lemma {:induction false} ElementsLength(ds: seq<Data>)
    ensures |EncSeq(ds)| == TotalLength(ds)
  {
    if ds != [] {
      FrontLast(ds);
      EncSeqSplit(Front(ds), [Last(ds)]);
      assert EncSeq([Last(ds)]) == Enc(Last(ds));
      ElementsLength(Front(ds));
    }
  }

  lemma {:induction false} PairsLength(ps: seq<Pair>)
    ensures |EncPairs(ps)| == TotalPairLength(ps)
  {
    if ps != [] {
      FrontLast(ps);
      EncPairsSplit(Front(ps), [Last(ps)]);
      assert EncPairs([Last(ps)]) == EncPair(Last(ps));
      PairsLength(Front(ps));
    }
  }

  /** A list: count, elements, and the tail marker, which is the empty list. */
  lemma ListSent(items: seq<Data>)
    requires items != []
    ensures var w := Enc(Arr(items));
            |w| == 6 + TotalLength(items) && w[|w| - 1] == 106 && BigEndian(w, 1, |items|, 4)
    ensures Enc(Arr([])) == [106]
  {
    var body := EncSeq(items);
    ElementsLength(items);
    BehindTag(108, |items|, 4, body + [106]);
    assert Enc(Arr(items)) == [108] + Store(|items|, 4) + (body + [106]);
  }

  lemma HoldsInMiddle(header: seq<byte>, a: seq<byte>, b: seq<byte>, c: seq<byte>, tail: seq<byte>)
    ensures Holds(header + (a + b + c) + tail, |header| + |a|, b)
  {
    HoldsInside(header + a, b, c + tail);
    assert header + (a + b + c) + tail == (header + a) + b + (c + tail);
  }

  /** Each element stands behind those before it. */
  lemma ElementSent(items: seq<Data>, k: nat)
    requires k < |items|
    ensures Holds(Enc(Arr(items)), 5 + TotalLength(items[..k]), Enc(items[k]))
  {
    SplitAt(items, k);
    EncSeqAround(items[..k], items[k], items[k + 1..]);
    ElementsLength(items[..k]);
    HoldsInMiddle(Header(108, |items|), EncSeq(items[..k]), Enc(items[k]), EncSeq(items[k + 1..]), [106]);
  }

  lemma MapSent(pairs: seq<Pair>)
    ensures var w := Enc(Map(pairs));
            |w| == 5 + TotalPairLength(pairs) && BigEndian(w, 1, |pairs|, 4)
  {
    PairsLength(pairs);
    BehindTag(116, |pairs|, 4, EncPairs(pairs));
  }

  /** Each key stands behind the pairs before it, and its value behind it. */
  lemma PairSent(pairs: seq<Pair>, k: nat)
    requires k < |pairs|
    ensures Holds(Enc(Map(pairs)), 5 + TotalPairLength(pairs[..k]), Enc(pairs[k].key) + Enc(pairs[k].value))
  {
    SplitAt(pairs, k);
    EncPairsAround(pairs[..k], pairs[k], pairs[k + 1..]);
    PairsLength(pairs[..k]);
    var header := Header(116, |pairs|);
    HoldsInMiddle(header, EncPairs(pairs[..k]), EncPair(pairs[k]), EncPairs(pairs[k + 1..]), []);
    assert header + EncPairs(pairs) + [] == Enc(Map(pairs));
  }

  // --------------------------------------------------------------------------
  // The forms that only other encoders write
  // --------------------------------------------------------------------------

  /** Tags and counts of the ways to write down a list of terms. */
  lemma FormsSpelled(ts: seq<Term>, us: seq<PairTerm>, bs: seq<byte>)
    ensures ListForm(ts)[0] == 108 && BigEndian(ListForm(ts), 1, |ts|, 4) && Last(ListForm(ts)) == 106
    ensures LargeTupleForm(ts)[0] == 105 && BigEndian(LargeTupleForm(ts), 1, |ts|, 4)
    ensures MapForm(us)[0] == 116 && BigEndian(MapForm(us), 1, |us|, 4)
    ensures |ts| < 0x100 ==> SmallTupleForm(ts)[0] == 104 && SmallTupleForm(ts)[1] == |ts|
    ensures StringForm(bs)[0] == 107 && BigEndian(StringForm(bs), 1, |bs|, 2) && StringForm(bs)[3..] == bs
  {
    BehindTag(108, |ts|, 4, Words(ts) + [106]);
    assert ListForm(ts) == [108] + Store(|ts|, 4) + (Words(ts) + [106]);
    BehindTag(105, |ts|, 4, Words(ts));
    BehindTag(116, |us|, 4, PairWords(us));
    BehindTag(107, |bs|, 2, bs);
  }
}
