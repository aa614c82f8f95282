/**
 `Encoder` (include/etf/encoder.h): the recursive writer with a nesting limit, proved to append the bytes
 `Enc` gives.
 */
module Encoders {
  import opened Buffers
  import opened Bytes
  import opened Encoding
  import opened Sequences
  import opened Tags
  import opened Terms

  const DEFAULT_RECURSE_LIMIT: int := 256

  /**
   How a call of `pack` may change the buffer: `Done` leaves all of `word`, any other end a prefix of it;
   the end is `expected` unless memory was refused on the way.
   */
  predicate Packed(grants: nat -> bool, s: Snapshot, t: Snapshot, word: seq<byte>, r: PackResult, expected: PackResult) {
    && Extends(s, t, word)
    && (r.Done? ==> t.contents == s.contents + word)
    && r == if AllGranted(grants, s, t) then expected else WriteFailed
  }

  lemma PackedByWriter(grants: nat -> bool, s: Snapshot, t: Snapshot, word: seq<byte>, ok: bool)
    requires Wrote(grants, s, t, word, ok)
    ensures Packed(grants, s, t, word, if ok then Done else WriteFailed, Done)
  {
  }

  /** A part `b` of `word` that did not complete ends the whole, behind the part `a` already written. */
  lemma PackedInside(grants: nat -> bool, s: Snapshot, m: Snapshot, t: Snapshot, word: seq<byte>,
                     a: seq<byte>, b: seq<byte>, c: seq<byte>, r: PackResult, part: PackResult, whole: PackResult)
    requires word == a + b + c
    requires s.calls <= m.calls && AllGranted(grants, s, m) && m.contents == s.contents + a
    requires Packed(grants, m, t, b, r, part)
    requires !r.Done? && (part.Done? || whole == part)
    ensures Packed(grants, s, t, word, r, whole)
  {
    ExtendsBehind(s, m, t, a, b, c);
    assert AllGranted(grants, m, t) <==> AllGranted(grants, s, t);
  }

  // --------------------------------------------------------------------------
  // A loop that packs parts one after the other
  // --------------------------------------------------------------------------

  /** All of `done` has been written since `s`, and everything asked for was granted. */
  predicate Progress(grants: nat -> bool, s: Snapshot, m: Snapshot, done: seq<byte>) {
    s.calls <= m.calls && AllGranted(grants, s, m) && m.contents == s.contents + done
  }

  lemma ProgressStep(grants: nat -> bool, s: Snapshot, m: Snapshot, t: Snapshot, done: seq<byte>, part: seq<byte>)
    requires Progress(grants, s, m, done)
    requires m.calls <= t.calls && AllGranted(grants, m, t) && t.contents == m.contents + part
    ensures Progress(grants, s, t, done + part)
  {
    ConcatAssociative(s.contents, done, part);
  }

  lemma ProgressEnd(grants: nat -> bool, s: Snapshot, t: Snapshot, word: seq<byte>)
    requires Progress(grants, s, t, word)
    ensures Packed(grants, s, t, word, Done, Done)
  {
    assert word[..|word|] == word;
  }

  lemma EncSeqAround(xs: seq<Data>, x: Data, ys: seq<Data>)
    ensures EncSeq(xs + [x]) == EncSeq(xs) + Enc(x)
    ensures EncSeq(xs + [x] + ys) == EncSeq(xs) + Enc(x) + EncSeq(ys)
  {
    EncSeqSplit(xs, [x]);
    assert EncSeq([x]) == Enc(x);
    EncSeqSplit(xs + [x], ys);
  }

  lemma EncPairsAround(xs: seq<Pair>, x: Pair, ys: seq<Pair>)
    ensures EncPairs(xs + [x]) == EncPairs(xs) + EncPair(x)
    ensures EncPairs(xs + [x] + ys) == EncPairs(xs) + EncPair(x) + EncPairs(ys)
  {
    EncPairsSplit(xs, [x]);
    assert EncPairs([x]) == EncPair(x);
    EncPairsSplit(xs + [x], ys);
  }

  lemma SplitAt<T>(xs: seq<T>, i: nat)
    requires i < |xs|
    ensures xs[..i + 1] == xs[..i] + [xs[i]]
    ensures xs == xs[..i] + [xs[i]] + xs[i + 1..]
    ensures xs[i..][0] == xs[i] && xs[i..][1..] == xs[i + 1..]
  {
  }

  /** How the bytes of a sequence and the outcome of packing it split at an element. */
  lemma ElementAt(items: seq<Data>, i: nat, nestLimit: int)
    requires i < |items|
    ensures EncSeq(items[..i + 1]) == EncSeq(items[..i]) + Enc(items[i])
    ensures EncSeq(items) == EncSeq(items[..i]) + Enc(items[i]) + EncSeq(items[i + 1..])
    ensures PackOutcomeSeq(items[i..], nestLimit)
         == if PackOutcome(items[i], nestLimit).Done? then PackOutcomeSeq(items[i + 1..], nestLimit)
            else PackOutcome(items[i], nestLimit)
  {
    SplitAt(items, i);
    EncSeqAround(items[..i], items[i], items[i + 1..]);
  }

  lemma PairAt(pairs: seq<Pair>, i: nat, nestLimit: int)
    requires i < |pairs|
    ensures EncPairs(pairs[..i + 1]) == EncPairs(pairs[..i]) + EncPair(pairs[i])
    ensures EncPairs(pairs) == EncPairs(pairs[..i]) + EncPair(pairs[i]) + EncPairs(pairs[i + 1..])
    ensures PackOutcomePairs(pairs[i..], nestLimit)
         == if PackOutcomePair(pairs[i], nestLimit).Done? then PackOutcomePairs(pairs[i + 1..], nestLimit)
            else PackOutcomePair(pairs[i], nestLimit)
  {
    SplitAt(pairs, i);
    EncPairsAround(pairs[..i], pairs[i], pairs[i + 1..]);
  }

  lemma ElementsStart(grants: nat -> bool, s: Snapshot, items: seq<Data>, nestLimit: int)
    ensures Progress(grants, s, s, EncSeq(items[..0]))
    ensures PackOutcomeSeq(items[0..], nestLimit) == PackOutcomeSeq(items, nestLimit)
  {
    assert items[0..] == items && s.contents + EncSeq(items[..0]) == s.contents;
  }

  lemma ElementsEnd(grants: nat -> bool, s: Snapshot, t: Snapshot, items: seq<Data>, nestLimit: int)
    requires Progress(grants, s, t, EncSeq(items[..|items|]))
    ensures Packed(grants, s, t, EncSeq(items), Done, PackOutcomeSeq(items[|items|..], nestLimit))
  {
    assert items[..|items|] == items;
    ProgressEnd(grants, s, t, EncSeq(items));
  }

  /** The loop over elements after one more of them. */
  lemma ElementDone(grants: nat -> bool, s: Snapshot, m: Snapshot, t: Snapshot, items: seq<Data>, i: nat, nestLimit: int)
    requires i < |items| && Progress(grants, s, m, EncSeq(items[..i]))
    requires Packed(grants, m, t, Enc(items[i]), Done, PackOutcome(items[i], nestLimit))
    ensures Progress(grants, s, t, EncSeq(items[..i + 1]))
    ensures PackOutcomeSeq(items[i..], nestLimit) == PackOutcomeSeq(items[i + 1..], nestLimit)
  {
    ElementAt(items, i, nestLimit);
    ProgressStep(grants, s, m, t, EncSeq(items[..i]), Enc(items[i]));
  }

  /** The loop over elements at one that does not complete. */
  lemma ElementStops(grants: nat -> bool, s: Snapshot, m: Snapshot, t: Snapshot, items: seq<Data>, i: nat, nestLimit: int,
               r: PackResult)
    requires i < |items| && Progress(grants, s, m, EncSeq(items[..i])) && !r.Done?
    requires Packed(grants, m, t, Enc(items[i]), r, PackOutcome(items[i], nestLimit))
    ensures Packed(grants, s, t, EncSeq(items), r, PackOutcomeSeq(items[i..], nestLimit))
  {
    ElementAt(items, i, nestLimit);
    PackedInside(grants, s, m, t, EncSeq(items), EncSeq(items[..i]), Enc(items[i]), EncSeq(items[i + 1..]),
                 r, PackOutcome(items[i], nestLimit), PackOutcomeSeq(items[i..], nestLimit));
  }

  lemma PairsStart(grants: nat -> bool, s: Snapshot, pairs: seq<Pair>, nestLimit: int)
    ensures Progress(grants, s, s, EncPairs(pairs[..0]))
    ensures PackOutcomePairs(pairs[0..], nestLimit) == PackOutcomePairs(pairs, nestLimit)
  {
    assert pairs[0..] == pairs && s.contents + EncPairs(pairs[..0]) == s.contents;
  }

  lemma PairsEnd(grants: nat -> bool, s: Snapshot, t: Snapshot, pairs: seq<Pair>, nestLimit: int)
    requires Progress(grants, s, t, EncPairs(pairs[..|pairs|]))
    ensures Packed(grants, s, t, EncPairs(pairs), Done, PackOutcomePairs(pairs[|pairs|..], nestLimit))
  {
    assert pairs[..|pairs|] == pairs;
    ProgressEnd(grants, s, t, EncPairs(pairs));
  }

  /** The loop over pairs after one more of them. */
  lemma PairDone(grants: nat -> bool, s: Snapshot, m: Snapshot, t: Snapshot, pairs: seq<Pair>, i: nat, nestLimit: int)
    requires i < |pairs| && Progress(grants, s, m, EncPairs(pairs[..i]))
    requires Packed(grants, m, t, EncPair(pairs[i]), Done, PackOutcomePair(pairs[i], nestLimit))
    ensures Progress(grants, s, t, EncPairs(pairs[..i + 1]))
    ensures PackOutcomePairs(pairs[i..], nestLimit) == PackOutcomePairs(pairs[i + 1..], nestLimit)
  {
    PairAt(pairs, i, nestLimit);
    ProgressStep(grants, s, m, t, EncPairs(pairs[..i]), EncPair(pairs[i]));
  }

  /** The loop over pairs at one that does not complete. */
  lemma PairStops(grants: nat -> bool, s: Snapshot, m: Snapshot, t: Snapshot, pairs: seq<Pair>, i: nat, nestLimit: int,
               r: PackResult)
    requires i < |pairs| && Progress(grants, s, m, EncPairs(pairs[..i])) && !r.Done?
    requires Packed(grants, m, t, EncPair(pairs[i]), r, PackOutcomePair(pairs[i], nestLimit))
    ensures Packed(grants, s, t, EncPairs(pairs), r, PackOutcomePairs(pairs[i..], nestLimit))
  {
    PairAt(pairs, i, nestLimit);
    PackedInside(grants, s, m, t, EncPairs(pairs), EncPairs(pairs[..i]), EncPair(pairs[i]), EncPairs(pairs[i + 1..]),
                 r, PackOutcomePair(pairs[i], nestLimit), PackOutcomePairs(pairs[i..], nestLimit));
  }

  // --------------------------------------------------------------------------
  // Three parts, the middle one by a loop: how a header, elements and a tail marker can end
  // --------------------------------------------------------------------------

  lemma FirstFails(grants: nat -> bool, s: Snapshot, m: Snapshot, a: seq<byte>, b: seq<byte>, c: seq<byte>,
                   expected: PackResult)
    requires Wrote(grants, s, m, a, false)
    ensures Packed(grants, s, m, a + b + c, WriteFailed, expected)
  {
    WroteFirstOnly(grants, s, m, a, b + c);
    ConcatAssociative(a, b, c);
  }

  lemma MiddleStops(grants: nat -> bool, s: Snapshot, m: Snapshot, n: Snapshot, a: seq<byte>, b: seq<byte>, c: seq<byte>,
                    r: PackResult, expected: PackResult)
    requires Wrote(grants, s, m, a, true) && Packed(grants, m, n, b, r, expected) && !r.Done?
    ensures Packed(grants, s, n, a + b + c, r, expected)
  {
    PackedInside(grants, s, m, n, a + b + c, a, b, c, r, expected, expected);
  }

  lemma LastWritten(grants: nat -> bool, s: Snapshot, m: Snapshot, n: Snapshot, t: Snapshot, a: seq<byte>, b: seq<byte>,
                    c: seq<byte>, ok: bool, expected: PackResult)
    requires Wrote(grants, s, m, a, true) && Packed(grants, m, n, b, Done, expected) && Wrote(grants, n, t, c, ok)
    ensures Packed(grants, s, t, a + b + c, if ok then Done else WriteFailed, expected)
  {
    ProgressStep(grants, s, m, n, a, b);
    ProgressEnd(grants, s, n, a + b);
    WroteBoth(grants, s, n, t, a + b, c, ok);
  }

  class Encoder {
    var ret: int
    const pk: Buffer

    /** The constructor writes the version byte; the initial block is taken to be granted. */
    constructor (grants: nat -> bool)
      ensures pk.Valid() && fresh(pk) && fresh(pk.buf) && pk.grants == grants
      ensures pk.State() == Snapshot([FORMAT_VERSION], 0)
    {
      var buffer := new Buffer(grants);
      pk := buffer;
      ret := 0;
      new;
      ret := pk.Write([FORMAT_VERSION]);
    }

    /** `release`: the block itself, and how much of it is in use. */
    method Release() returns (buf: array<byte>, length: nat)
      requires pk.Valid()
      ensures length <= buf.Length && buf == pk.buf && buf[..length] == pk.State().contents
    {
      buf, length := pk.buf, pk.length;
    }

    /**
     `pack`: with every request for memory granted it ends as `PackOutcome` says, with all of `Enc(value)`
     appended if it completes; however it ends, a prefix of `Enc(value)` has been appended.
     */
    method Pack(value: Data, nestLimit: int) returns (r: PackResult)
      requires pk.Valid()
      modifies this, pk, pk.buf
      ensures pk.Valid() && (pk.buf == old(pk.buf) || fresh(pk.buf))
      ensures Packed(pk.grants, old(pk.State()), pk.State(), Enc(value), r, PackOutcome(value, nestLimit))
      ensures r.Done? ==> ret == 0
      ensures r.WriteFailed? ==> ret == -1
      decreases value, 1
    {
      ret := 0;
      ghost var s := pk.State();
      if nestLimit < 0 {
        ExtendsNothing(s, Enc(value));
        return RecursionLimit;
      }
      match value {
        case Arr(items) => if items != [] { r := PackList(items, nestLimit); } else { r := PackScalar(value, nestLimit); }
        case Map(pairs) => r := PackMap(pairs, nestLimit);
        case SInt(_) => r := PackInteger(value, nestLimit);
        case UInt(_) => r := PackInteger(value, nestLimit);
        case _ => r := PackScalar(value, nestLimit);
      }
    }

    /** The branch of `pack` for integers; an unsigned number beyond 31 bits counts as negative. */
    method PackInteger(value: Data, nestLimit: int) returns (r: PackResult)
      requires pk.Valid() && nestLimit >= 0 && (value.SInt? || value.UInt?)
      modifies this, pk, pk.buf
      ensures pk.Valid() && (pk.buf == old(pk.buf) || fresh(pk.buf))
      ensures Packed(pk.grants, old(pk.State()), pk.State(), Enc(value), r, PackOutcome(value, nestLimit))
      ensures r.Done? ==> ret == 0
      ensures r.WriteFailed? ==> ret == -1
      decreases value, 0
    {
      ghost var s := pk.State();
      var number := if value.SInt? then value.sint else AsSigned(value.uint);
      if 0 <= number <= 255 {
        ret := Append(pk, [SMALL_INTEGER_EXT, number]);
      } else if value.SInt? {
        ret := Append(pk, [INTEGER_EXT] + Store32(number));
      } else {
        ret := AppendUnsignedLongLong(pk, value.uint);
      }
      PackedByWriter(pk.grants, s, pk.State(), Enc(value), ret == 0);
      r := if ret == 0 then Done else WriteFailed;
    }

    /** The other branches of `pack` that call one writer. */
    method PackScalar(value: Data, nestLimit: int) returns (r: PackResult)
      requires pk.Valid() && nestLimit >= 0
      requires !value.SInt? && !value.UInt? && !value.Map? && (value.Arr? ==> value.items == [])
      modifies this, pk, pk.buf
      ensures pk.Valid() && (pk.buf == old(pk.buf) || fresh(pk.buf))
      ensures Packed(pk.grants, old(pk.State()), pk.State(), Enc(value), r, PackOutcome(value, nestLimit))
      ensures r.Done? ==> ret == 0
      ensures r.WriteFailed? ==> ret == -1
      decreases value, 0
    {
      ghost var s := pk.State();
      if value.Double? {
        ret := Append(pk, [NEW_FLOAT_EXT] + Store64(value.bits));
      } else if value.Null? || value.Undefined? {
        ret := Append(pk, SmallAtom(NIL));
      } else if value.Bool? {
        ret := Append(pk, if value.boolean then SmallAtom(TRUE) else SmallAtom(FALSE));
      } else if value.Str? {
        ret := AppendBinary(pk, value.str);
      } else {
        ret := Append(pk, [NIL_EXT]);
      }
      PackedByWriter(pk.grants, s, pk.State(), Enc(value), ret == 0);
      r := if ret == 0 then Done else WriteFailed;
    }

    /** The branch of `pack` for arrays with elements. */
    method PackList(items: seq<Data>, nestLimit: int) returns (r: PackResult)
      requires pk.Valid() && items != [] && nestLimit >= 0
      modifies this, pk, pk.buf
      ensures pk.Valid() && (pk.buf == old(pk.buf) || fresh(pk.buf))
      ensures Packed(pk.grants, old(pk.State()), pk.State(), Enc(Arr(items)), r, PackOutcome(Arr(items), nestLimit))
      ensures r.Done? ==> ret == 0
      ensures r.WriteFailed? ==> ret == -1
      decreases items, 1
    {
      ret := 0;
      ghost var s, whole := pk.State(), PackOutcome(Arr(items), nestLimit);
      if |items| > MAX_COUNT {
        ExtendsNothing(s, Enc(Arr(items)));
        return ListTooLarge;
      }
      ghost var header := Header(LIST_EXT, |items|);
      assert Enc(Arr(items)) == header + EncSeq(items) + [NIL_EXT];
      ret := Append(pk, Header(LIST_EXT, |items|));
      ghost var m := pk.State();
      if ret != 0 {
        FirstFails(pk.grants, s, m, header, EncSeq(items), [NIL_EXT], whole);
        return WriteFailed;
      }
      r := PackElements(items, nestLimit - 1);
      ghost var n := pk.State();
      if !r.Done? {
        MiddleStops(pk.grants, s, m, n, header, EncSeq(items), [NIL_EXT], r, whole);
        return;
      }
      ret := Append(pk, [NIL_EXT]);
      LastWritten(pk.grants, s, m, n, pk.State(), header, EncSeq(items), [NIL_EXT], ret == 0, whole);
      if ret != 0 {
        return WriteFailed;
      }
    }

    /** The loop over the elements of an array. */
    method PackElements(items: seq<Data>, nestLimit: int) returns (r: PackResult)
      requires pk.Valid()
      modifies this, pk, pk.buf
      ensures pk.Valid() && (pk.buf == old(pk.buf) || fresh(pk.buf))
      ensures Packed(pk.grants, old(pk.State()), pk.State(), EncSeq(items), r, PackOutcomeSeq(items, nestLimit))
      ensures r.Done? ==> ret == 0
      ensures r.WriteFailed? ==> ret == -1
      decreases items, 0
    {
      ret := 0;
      ghost var s, whole := pk.State(), PackOutcomeSeq(items, nestLimit);
      ElementsStart(pk.grants, s, items, nestLimit);
      var i := 0;
      while i < |items|
        invariant 0 <= i <= |items|
        invariant ret == 0
        invariant pk.Valid() && (pk.buf == old(pk.buf) || fresh(pk.buf))
        invariant Progress(pk.grants, s, pk.State(), EncSeq(items[..i]))
        invariant whole == PackOutcomeSeq(items[i..], nestLimit)
      {
        ghost var m := pk.State();
        r := Pack(items[i], nestLimit);
        if !r.Done? {
          ElementStops(pk.grants, s, m, pk.State(), items, i, nestLimit, r);
          return;
        }
        ElementDone(pk.grants, s, m, pk.State(), items, i, nestLimit);
        i := i + 1;
      }
      ElementsEnd(pk.grants, s, pk.State(), items, nestLimit);
      r := Done;
    }

    /** The branch of `pack` for maps. */
    method PackMap(pairs: seq<Pair>, nestLimit: int) returns (r: PackResult)
      requires pk.Valid() && nestLimit >= 0
      modifies this, pk, pk.buf
      ensures pk.Valid() && (pk.buf == old(pk.buf) || fresh(pk.buf))
      ensures Packed(pk.grants, old(pk.State()), pk.State(), Enc(Map(pairs)), r, PackOutcome(Map(pairs), nestLimit))
      ensures r.Done? ==> ret == 0
      ensures r.WriteFailed? ==> ret == -1
      decreases pairs, 1
    {
      ret := 0;
      ghost var s, header := pk.State(), Header(MAP_EXT, |pairs|);
      ghost var word, whole := Enc(Map(pairs)), PackOutcome(Map(pairs), nestLimit);
      if |pairs| > MAX_COUNT {
        ExtendsNothing(s, word);
        return MapTooLarge;
      }
      ret := Append(pk, Header(MAP_EXT, |pairs|));
      ghost var m := pk.State();
      if ret != 0 {
        WroteFirstOnly(pk.grants, s, m, header, EncPairs(pairs));
        return WriteFailed;
      }
      r := PackPairs(pairs, nestLimit - 1);
      if !r.Done? {
        assert word == header + EncPairs(pairs) + [];
        PackedInside(pk.grants, s, m, pk.State(), word, header, EncPairs(pairs), [], r, whole, whole);
        return;
      }
      ProgressStep(pk.grants, s, m, pk.State(), header, EncPairs(pairs));
      ProgressEnd(pk.grants, s, pk.State(), word);
    }

    /** The loop over the pairs of a map. */
    method PackPairs(pairs: seq<Pair>, nestLimit: int) returns (r: PackResult)
      requires pk.Valid()
      modifies this, pk, pk.buf
      ensures pk.Valid() && (pk.buf == old(pk.buf) || fresh(pk.buf))
      ensures Packed(pk.grants, old(pk.State()), pk.State(), EncPairs(pairs), r, PackOutcomePairs(pairs, nestLimit))
      ensures r.Done? ==> ret == 0
      ensures r.WriteFailed? ==> ret == -1
      decreases pairs, 0
    {
      ret := 0;
      ghost var s, whole := pk.State(), PackOutcomePairs(pairs, nestLimit);
      PairsStart(pk.grants, s, pairs, nestLimit);
      var i := 0;
      while i < |pairs|
        invariant 0 <= i <= |pairs|
        invariant ret == 0
        invariant pk.Valid() && (pk.buf == old(pk.buf) || fresh(pk.buf))
        invariant Progress(pk.grants, s, pk.State(), EncPairs(pairs[..i]))
        invariant whole == PackOutcomePairs(pairs[i..], nestLimit)
      {
        ghost var m := pk.State();
        r := PackPair(pairs[i], nestLimit);
        if !r.Done? {
          PairStops(pk.grants, s, m, pk.State(), pairs, i, nestLimit, r);
          return;
        }
        PairDone(pk.grants, s, m, pk.State(), pairs, i, nestLimit);
        i := i + 1;
      }
      PairsEnd(pk.grants, s, pk.State(), pairs, nestLimit);
      r := Done;
    }

    /** The key, then the value of one pair. */
    method PackPair(p: Pair, nestLimit: int) returns (r: PackResult)
      requires pk.Valid()
      modifies this, pk, pk.buf
      ensures pk.Valid() && (pk.buf == old(pk.buf) || fresh(pk.buf))
      ensures Packed(pk.grants, old(pk.State()), pk.State(), EncPair(p), r, PackOutcomePair(p, nestLimit))
      ensures r.Done? ==> ret == 0
      ensures r.WriteFailed? ==> ret == -1
      decreases p, 1
    {
      ghost var s := pk.State();
      ghost var whole := PackOutcomePair(p, nestLimit);
      r := Pack(p.key, nestLimit);
      ghost var m := pk.State();
      assert s.contents + [] == s.contents;
      assert [] + Enc(p.key) + Enc(p.value) == EncPair(p);
      if !r.Done? {
        PackedInside(pk.grants, s, s, m, EncPair(p), [], Enc(p.key), Enc(p.value), r, PackOutcome(p.key, nestLimit), whole);
        return;
      }
      r := Pack(p.value, nestLimit);
      assert Enc(p.key) + Enc(p.value) + [] == EncPair(p);
      if !r.Done? {
        PackedInside(pk.grants, s, m, pk.State(), EncPair(p), Enc(p.key), Enc(p.value), [],
                     r, PackOutcome(p.value, nestLimit), whole);
      } else {
        ProgressStep(pk.grants, s, m, pk.State(), Enc(p.key), Enc(p.value));
        ProgressEnd(pk.grants, s, pk.State(), EncPair(p));
      }
    }
  }
}
