/**
 What `Encoder::pack` means: the bytes of a value, and how a call with a nesting limit ends.
 */
module Encoding {
  import opened BigIntegers
  import opened Bytes
  import opened Sequences
  import opened Tags
  import opened Terms

  /** The largest element count `pack` lets into a list or map header. */
  const MAX_COUNT: int := TWO_TO_32 - 2

  function SmallAtom(name: seq<byte>): seq<byte>
    requires |name| < 0x100
  {
    [SMALL_ATOM_EXT, |name|] + name
  }

  /** A tag followed by a 32-bit count; a count that does not fit is cut off by `_erlpack_store32`. */
  function Header(tag: byte, count: nat): (bs: seq<byte>)
    ensures |bs| == 5
  {
    [tag] + Store32(count)
  }

  /** SMALL_BIG_EXT with the minimal digits of `d`. */
  function EncBig(d: int): seq<byte>
    requires -TWO_TO_64 < d < TWO_TO_64
  {
    var n := if d < 0 then -d else d;
    BigDataOfDigits(d);
    [SMALL_BIG_EXT, |Digits(n)|, if d < 0 then 1 else 0] + Digits(n)
  }

  /** The term bytes of a value, without the version byte. */
  function Enc(d: Data): seq<byte> {
    match d
    case SInt(i) => if 0 <= i <= 255 then [SMALL_INTEGER_EXT, i] else [INTEGER_EXT] + Store32(i)
    case UInt(u) => if u <= 255 then [SMALL_INTEGER_EXT, u] else EncBig(u)
    case Double(bits) => [NEW_FLOAT_EXT] + Store64(bits)
    case Null => SmallAtom(NIL)
    case Undefined => SmallAtom(NIL)
    case Bool(b) => if b then SmallAtom(TRUE) else SmallAtom(FALSE)
    case Str(s) => Header(BINARY_EXT, |s|) + s
    case Arr(items) =>
      if items == [] then [NIL_EXT]
      else Header(LIST_EXT, |items|) + EncSeq(items) + [NIL_EXT]
    case Map(pairs) => Header(MAP_EXT, |pairs|) + EncPairs(pairs)
  }

  function EncSeq(ds: seq<Data>): seq<byte> {
    if ds == [] then [] else Enc(ds[0]) + EncSeq(ds[1..])
  }

  function EncPair(p: Pair): seq<byte> {
    Enc(p.key) + Enc(p.value)
  }

  function EncPairs(ps: seq<Pair>): seq<byte> {
    if ps == [] then [] else EncPair(ps[0]) + EncPairs(ps[1..])
  }

  /** How many `pack` calls stand on the stack above the first one. */
  function Height(d: Data): nat {
    match d
    case Arr(items) => if items == [] then 0 else 1 + HeightSeq(items)
    case Map(pairs) => if pairs == [] then 0 else 1 + HeightPairs(pairs)
    case _ => 0
  }

  function Max(a: nat, b: nat): nat {
    if a < b then b else a
  }

  function HeightSeq(ds: seq<Data>): nat {
    if ds == [] then 0 else Max(Height(ds[0]), HeightSeq(ds[1..]))
  }

  function HeightPair(p: Pair): nat {
    Max(Height(p.key), Height(p.value))
  }

  function HeightPairs(ps: seq<Pair>): nat {
    if ps == [] then 0 else Max(HeightPair(ps[0]), HeightPairs(ps[1..]))
  }

  /** Every list and map is small enough for `pack` to accept it. */
  predicate CountsFit(d: Data) {
    match d
    case Arr(items) => |items| <= MAX_COUNT && forall x | x in items :: CountsFit(x)
    case Map(pairs) => |pairs| <= MAX_COUNT && forall p | p in pairs :: PairCountsFit(p)
    case _ => true
  }

  predicate PairCountsFit(p: Pair) {
    CountsFit(p.key) && CountsFit(p.value)
  }

  /** Every string length survives the 32-bit length field. */
  predicate StringsFit(d: Data) {
    match d
    case Str(s) => |s| < TWO_TO_32
    case Arr(items) => forall x | x in items :: StringsFit(x)
    case Map(pairs) => forall p | p in pairs :: PairStringsFit(p)
    case _ => true
  }

  predicate PairStringsFit(p: Pair) {
    StringsFit(p.key) && StringsFit(p.value)
  }

  /** All lengths fit their length fields. */
  predicate Encodable(d: Data) {
    CountsFit(d) && StringsFit(d)
  }

  /** How a call of `pack` ends: 0 returned, a non-zero code returned, or one of its three exceptions. */
  datatype PackResult = Done | WriteFailed | RecursionLimit | ListTooLarge | MapTooLarge

  /** The end of a call during which every write succeeds. */
  function PackOutcome(d: Data, nestLimit: int): PackResult {
    if nestLimit < 0 then RecursionLimit
    else
      match d
      case Arr(items) => if |items| > MAX_COUNT then ListTooLarge else PackOutcomeSeq(items, nestLimit - 1)
      case Map(pairs) => if |pairs| > MAX_COUNT then MapTooLarge else PackOutcomePairs(pairs, nestLimit - 1)
      case _ => Done
  }

  function PackOutcomeSeq(ds: seq<Data>, nestLimit: int): PackResult {
    if ds == [] then Done
    else if !PackOutcome(ds[0], nestLimit).Done? then PackOutcome(ds[0], nestLimit)
    else PackOutcomeSeq(ds[1..], nestLimit)
  }

  function PackOutcomePair(p: Pair, nestLimit: int): PackResult {
    if !PackOutcome(p.key, nestLimit).Done? then PackOutcome(p.key, nestLimit)
    else PackOutcome(p.value, nestLimit)
  }

  function PackOutcomePairs(ps: seq<Pair>, nestLimit: int): PackResult {
    if ps == [] then Done
    else if !PackOutcomePair(ps[0], nestLimit).Done? then PackOutcomePair(ps[0], nestLimit)
    else PackOutcomePairs(ps[1..], nestLimit)
  }

  /** With every write succeeding, `pack` completes exactly on the values no higher than its limit. */
  lemma {:induction false} CompletesIffLowEnough(d: Data, nestLimit: int)
    ensures PackOutcome(d, nestLimit).Done? <==> Height(d) <= nestLimit && CountsFit(d)
  {
    if nestLimit >= 0 {
      match d
      case Arr(items) => CompletesIffLowEnoughSeq(items, nestLimit - 1);
      case Map(pairs) => CompletesIffLowEnoughPairs(pairs, nestLimit - 1);
      case _ =>
    }
  }

  lemma {:induction false} CompletesIffLowEnoughSeq(ds: seq<Data>, nestLimit: int)
    ensures PackOutcomeSeq(ds, nestLimit).Done?
       <==> (ds == [] || HeightSeq(ds) <= nestLimit) && forall x :: x in ds ==> CountsFit(x)
  {
    if ds != [] {
      CompletesIffLowEnough(ds[0], nestLimit);
      CompletesIffLowEnoughSeq(ds[1..], nestLimit);
      assert ds == [ds[0]] + ds[1..];
    }
  }

  lemma {:induction false} CompletesIffLowEnoughPair(p: Pair, nestLimit: int)
    ensures PackOutcomePair(p, nestLimit).Done? <==> HeightPair(p) <= nestLimit && PairCountsFit(p)
  {
    CompletesIffLowEnough(p.key, nestLimit);
    CompletesIffLowEnough(p.value, nestLimit);
  }

  lemma {:induction false} CompletesIffLowEnoughPairs(ps: seq<Pair>, nestLimit: int)
    ensures PackOutcomePairs(ps, nestLimit).Done?
       <==> (ps == [] || HeightPairs(ps) <= nestLimit) && forall p :: p in ps ==> PairCountsFit(p)
  {
    if ps != [] {
      CompletesIffLowEnoughPair(ps[0], nestLimit);
      CompletesIffLowEnoughPairs(ps[1..], nestLimit);
      assert ps == [ps[0]] + ps[1..];
    }
  }

  lemma {:induction false} HeightSeqMeans(ds: seq<Data>)
    ensures forall x :: x in ds ==> Height(x) <= HeightSeq(ds)
    ensures ds != [] ==> exists x :: x in ds && Height(x) == HeightSeq(ds)
  {
    if ds != [] {
      HeightSeqMeans(ds[1..]);
      assert ds[0] in ds && forall x :: x in ds[1..] ==> x in ds;
    }
  }

  lemma {:induction false} HeightPairsMeans(ps: seq<Pair>)
    ensures forall p :: p in ps ==> Height(p.key) <= HeightPairs(ps) && Height(p.value) <= HeightPairs(ps)
    ensures ps != [] ==> exists p :: p in ps && (Height(p.key) == HeightPairs(ps) || Height(p.value) == HeightPairs(ps))
  {
    if ps != [] {
      HeightPairsMeans(ps[1..]);
      assert ps[0] in ps && forall p :: p in ps[1..] ==> p in ps;
    }
  }

  /** One more than the highest element, key or value has; 0 if there is none. */
  lemma HeightMeans(d: Data)
    ensures d.Arr? ==> forall x :: x in d.items ==> Height(x) < Height(d)
    ensures d.Map? ==> forall p :: p in d.pairs ==> Height(p.key) < Height(d) && Height(p.value) < Height(d)
    ensures Height(d) > 0 ==>
              || (d.Arr? && exists x :: x in d.items && Height(x) == Height(d) - 1)
              || (d.Map? && exists p :: p in d.pairs && (Height(p.key) == Height(d) - 1 || Height(p.value) == Height(d) - 1))
  {
    match d
    case Arr(items) => HeightSeqMeans(items);
    case Map(pairs) => HeightPairsMeans(pairs);
    case _ =>
  }

  /** A list with 2^32 - 1 elements or more somewhere inside. */
  predicate HasLongList(d: Data) {
    match d
    case Arr(items) => |items| >= 0xFFFF_FFFF || exists x | x in items :: HasLongList(x)
    case Map(pairs) => exists p | p in pairs :: HasLongList(p.key) || HasLongList(p.value)
    case _ => false
  }

  predicate HasLongMap(d: Data) {
    match d
    case Arr(items) => exists x | x in items :: HasLongMap(x)
    case Map(pairs) => |pairs| >= 0xFFFF_FFFF || exists p | p in pairs :: HasLongMap(p.key) || HasLongMap(p.value)
    case _ => false
  }

  lemma {:induction false} CountsFitMeans(d: Data)
    ensures CountsFit(d) <==> !HasLongList(d) && !HasLongMap(d)
  {
    match d
    case Arr(items) =>
      forall x | x in items ensures CountsFit(x) <==> !HasLongList(x) && !HasLongMap(x) {
        CountsFitMeans(x);
      }
    case Map(pairs) =>
      forall p | p in pairs
        ensures PairCountsFit(p) <==> !HasLongList(p.key) && !HasLongList(p.value) && !HasLongMap(p.key) && !HasLongMap(p.value)
      {
        CountsFitMeans(p.key);
        CountsFitMeans(p.value);
      }
    case _ =>
  }

  /** The exception says what is wrong with the value. */
  ghost predicate Explains(r: PackResult, d: Data, nestLimit: int) {
    match r
    case Done => true
    case WriteFailed => false
    case RecursionLimit => Height(d) > nestLimit
    case ListTooLarge => HasLongList(d)
    case MapTooLarge => HasLongMap(d)
  }

  /** Whatever end `pack` comes to without a failed write, there is a reason for it in the value. */
  lemma {:induction false} EndsForAReason(d: Data, nestLimit: int)
    ensures Explains(PackOutcome(d, nestLimit), d, nestLimit)
  {
    if nestLimit >= 0 {
      match d
      case Arr(items) => if |items| <= MAX_COUNT { var x := SeqEndsForAReason(items, nestLimit - 1); }
      case Map(pairs) => if |pairs| <= MAX_COUNT { var p, x := PairsEndForAReason(pairs, nestLimit - 1); }
      case _ =>
    }
  }

  lemma {:induction false} SeqEndsForAReason(ds: seq<Data>, nestLimit: int) returns (x: Data)
    ensures var r := PackOutcomeSeq(ds, nestLimit);
            !r.Done? ==> x in ds && HeightSeq(ds) >= Height(x) && Explains(r, x, nestLimit)
  {
    x := Null;
    if ds != [] {
      x := ds[0];
      EndsForAReason(ds[0], nestLimit);
      if PackOutcome(ds[0], nestLimit).Done? {
        x := SeqEndsForAReason(ds[1..], nestLimit);
      }
    }
  }

  lemma {:induction false} PairsEndForAReason(ps: seq<Pair>, nestLimit: int) returns (p: Pair, x: Data)
    ensures var r := PackOutcomePairs(ps, nestLimit);
            !r.Done? ==> p in ps && (x == p.key || x == p.value) && HeightPairs(ps) >= Height(x) && Explains(r, x, nestLimit)
  {
    p, x := Pair(Null, Null), Null;
    if ps != [] {
      p := ps[0];
      x := PairEndsForAReason(p, nestLimit);
      if PackOutcomePair(ps[0], nestLimit).Done? {
        p, x := PairsEndForAReason(ps[1..], nestLimit);
      }
    }
  }

  lemma {:induction false} PairEndsForAReason(p: Pair, nestLimit: int) returns (x: Data)
    ensures var r := PackOutcomePair(p, nestLimit);
            !r.Done? ==> (x == p.key || x == p.value) && HeightPair(p) >= Height(x) && Explains(r, x, nestLimit)
  {
    EndsForAReason(p.key, nestLimit);
    EndsForAReason(p.value, nestLimit);
    x := if PackOutcome(p.key, nestLimit).Done? then p.value else p.key;
  }

  // Splitting the bytes of a sequence at an element.

  lemma {:induction false} EncSeqSplit(xs: seq<Data>, ys: seq<Data>)
    ensures EncSeq(xs + ys) == EncSeq(xs) + EncSeq(ys)
  {
    if xs == [] {
      assert xs + ys == ys;
    } else {
      EncSeqSplit(xs[1..], ys);
      ConcatAssociative(Enc(xs[0]), EncSeq(xs[1..]), EncSeq(ys));
      assert (xs + ys)[1..] == xs[1..] + ys;
    }
  }

  lemma {:induction false} EncPairsSplit(ps: seq<Pair>, qs: seq<Pair>)
    ensures EncPairs(ps + qs) == EncPairs(ps) + EncPairs(qs)
  {
    if ps == [] {
      assert ps + qs == qs;
    } else {
      EncPairsSplit(ps[1..], qs);
      ConcatAssociative(EncPair(ps[0]), EncPairs(ps[1..]), EncPairs(qs));
      assert (ps + qs)[1..] == ps[1..] + qs;
    }
  }
}
