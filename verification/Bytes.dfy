/**
 Machine integers and their big-endian byte layout (include/etf/sysdep.h).
 Integers are mathematical; every width limit is a subset type or an explicit modulus.
 */
module Bytes {
  type byte = x: int | 0 <= x < 0x100
  type u16 = x: int | 0 <= x < 0x1_0000
  type u32 = x: int | 0 <= x < 0x1_0000_0000
  type u64 = x: int | 0 <= x < 0x1_0000_0000_0000_0000
  type i32 = x: int | -0x8000_0000 <= x < 0x8000_0000

  const TWO_TO_32: int := 0x1_0000_0000
  const TWO_TO_64: int := 0x1_0000_0000_0000_0000

  function Power256(k: nat): (p: nat)
    ensures p > 0
  {
    if k == 0 then 1 else 0x100 * Power256(k - 1)
  }

  /** The low `k` bytes of `n`, most significant first; higher bits are cut off. */
  function Store(n: int, k: nat): (bs: seq<byte>)
    ensures |bs| == k
    decreases k, n
  {
    if k == 0 then [] else Store(n / 0x100, k - 1) + [n % 0x100]
  }

  /** The number that bytes spell, most significant first. */
  function Load(bs: seq<byte>): nat {
    if bs == [] then 0 else 0x100 * Load(bs[..|bs| - 1]) + bs[|bs| - 1]
  }

  /** The conversion `(int32_t)` of an unsigned 32-bit value. */
  function AsSigned(u: u32): i32 {
    if u < 0x8000_0000 then u else u - TWO_TO_32
  }

  lemma PowerValues()
    ensures Power256(1) == 0x100 && Power256(2) == 0x1_0000
    ensures Power256(4) == TWO_TO_32 && Power256(8) == TWO_TO_64
  {
    assert Power256(2) == 0x1_0000;
    assert Power256(4) == TWO_TO_32;
    assert Power256(6) == 0x1_0000_0000_0000;
  }

  /** Reading back what was stored gives the number reduced to its width. */
  lemma {:induction false} LoadStore(n: int, k: nat)
    ensures Load(Store(n, k)) == n % Power256(k)
    decreases k
  {
    if k > 0 {
      LoadStore(n / 0x100, k - 1);
      assert Store(n, k)[..k - 1] == Store(n / 0x100, k - 1);
      SplitModulus(n, Power256(k - 1));
    }
  }

  /** And the bytes of what was read are those it was read from. */
  lemma {:induction false} StoreLoad(bs: seq<byte>)
    ensures Store(Load(bs), |bs|) == bs
  {
    if bs != [] {
      StoreLoad(bs[..|bs| - 1]);
      assert bs == bs[..|bs| - 1] + [bs[|bs| - 1]];
    }
  }

  /** Which byte stands where: position `i` of `k` holds the digit with the weight 256^(k - 1 - i). */
  lemma {:induction false} StoredByte(n: int, k: nat, i: nat)
    requires i < k
    ensures Store(n, k)[i] == n / Power256(k - 1 - i) % 0x100
    decreases k
  {
    if i < k - 1 {
      StoredByte(n / 0x100, k - 1, i);
      DivideTwice(n, Power256(k - 2 - i));
    }
  }

  lemma DivideTwice(n: int, m: nat)
    requires m > 0
    ensures n / 0x100 / m == n / (0x100 * m)
  {
    var q, r := n / 0x100 / m, n / 0x100 % m;
    assert n == 0x100 * (m * q + r) + n % 0x100;
    assert 0x100 * (m * q) == (0x100 * m) * q;
    QuotientUnique(n, 0x100 * m, q, 0x100 * r + n % 0x100);
  }

  lemma QuotientUnique(n: int, d: int, q: int, r: int)
    requires n == d * q + r && 0 <= r < d
    ensures n / d == q
  {
    var k := q - n / d;
    assert d * k == n % d - r by {
      assert n == d * (n / d) + n % d;
      assert d * k == d * q - d * (n / d);
    }
    MultipleGrows(d, k);
  }

  /** The first byte read has the greatest weight. */
  lemma {:induction false} LoadFirst(b: byte, bs: seq<byte>)
    ensures Load([b] + bs) == b * Power256(|bs|) + Load(bs)
    decreases |bs|
  {
    if bs == [] {
      assert [b] + bs == [b] && [b][..0] == [];
    } else {
      var k := |bs| - 1;
      LoadFirst(b, bs[..k]);
      assert ([b] + bs)[..k + 1] == [b] + bs[..k];
      assert b * Power256(k + 1) == 0x100 * (b * Power256(k));
    }
  }

  lemma SplitModulus(n: int, m: nat)
    requires m > 0
    ensures 0x100 * (n / 0x100 % m) + n % 0x100 == n % (0x100 * m)
  {
    var q := n / 0x100;
    var r := 0x100 * (q % m) + n % 0x100;
    assert n == (0x100 * m) * (q / m) + r by {
      assert q == m * (q / m) + q % m;
      assert 0x100 * (m * (q / m)) == (0x100 * m) * (q / m);
    }
    DivisionUnique(n, 0x100 * m, q / m, r);
  }

  lemma DivisionUnique(n: int, d: int, q: int, r: int)
    requires n == d * q + r && 0 <= r < d
    ensures n % d == r
  {
    var k := q - n / d;
    assert d * k == n % d - r by {
      assert n == d * (n / d) + n % d;
      assert d * k == d * q - d * (n / d);
    }
    MultipleGrows(d, k);
  }

  lemma MultipleGrows(d: int, k: int)
    requires d > 0
    ensures k >= 1 ==> d * k >= d
    ensures k <= -1 ==> d * k <= -d
  {
    if k >= 1 {
      assert d * (k - 1) >= 0;
    } else if k <= -1 {
      assert d * (-k - 1) >= 0;
    }
  }

  lemma {:induction false} LoadBound(bs: seq<byte>)
    ensures Load(bs) < Power256(|bs|)
  {
    if bs != [] {
      LoadBound(bs[..|bs| - 1]);
    }
  }

  /** The number in two, four or eight bytes, as `_erlpack_be16/32/64` compute it. */
  function Load16(bs: seq<byte>): u16
    requires |bs| == 2
  {
    LoadBound(bs);
    PowerValues();
    Load(bs)
  }

  function Load32(bs: seq<byte>): u32
    requires |bs| == 4
  {
    LoadBound(bs);
    PowerValues();
    Load(bs)
  }

  function Load64(bs: seq<byte>): u64
    requires |bs| == 8
  {
    LoadBound(bs);
    PowerValues();
    Load(bs)
  }

  /** The bytes `_erlpack_store16/32/64` leave in memory. */
  function Store16(n: int): (bs: seq<byte>)
    ensures |bs| == 2
  {
    Store(n, 2)
  }

  function Store32(n: int): (bs: seq<byte>)
    ensures |bs| == 4
  {
    Store(n, 4)
  }

  function Store64(n: int): (bs: seq<byte>)
    ensures |bs| == 8
  {
    Store(n, 8)
  }

  lemma LoadStore16(n: u16)
    ensures Load16(Store16(n)) == n
  {
    LoadStore(n, 2);
    PowerValues();
  }

  lemma LoadStore32(n: int)
    ensures Load32(Store32(n)) == n % TWO_TO_32
  {
    LoadStore(n, 4);
    PowerValues();
  }

  lemma LoadStore64(n: u64)
    ensures Load64(Store64(n)) == n
  {
    LoadStore(n, 8);
    PowerValues();
  }

  // --------------------------------------------------------------------------
  // A byte string standing inside another
  // --------------------------------------------------------------------------

  /** `part` stands in `whole` at position `i`. */
  predicate At(whole: seq<byte>, i: nat, part: seq<byte>)
    decreases |part|
  {
    if part == [] then i <= |whole|
    else i < |whole| && whole[i] == part[0] && At(whole, i + 1, part[1..])
  }

  predicate ByteAt(whole: seq<byte>, i: nat, b: byte) {
    i < |whole| && whole[i] == b
  }

  lemma AtCons(whole: seq<byte>, i: nat, b: byte, rest: seq<byte>)
    ensures At(whole, i, [b] + rest) <==> ByteAt(whole, i, b) && At(whole, i + 1, rest)
  {
    assert ([b] + rest)[1..] == rest;
  }

  lemma AtTail(whole: seq<byte>, i: nat, b: byte, rest: seq<byte>)
    requires At(whole, i, [b] + rest)
    ensures ByteAt(whole, i, b) && At(whole, i + 1, rest)
  {
    AtCons(whole, i, b, rest);
  }

  lemma AtSingle(whole: seq<byte>, i: nat, b: byte)
    ensures At(whole, i, [b]) <==> ByteAt(whole, i, b)
  {
    assert [b][1..] == [];
  }

  lemma {:induction false} AtIsSlice(whole: seq<byte>, i: nat, part: seq<byte>)
    ensures At(whole, i, part) <==> i + |part| <= |whole| && whole[i..i + |part|] == part
    decreases |part|
  {
    if part != [] {
      AtIsSlice(whole, i + 1, part[1..]);
      if i + |part| <= |whole| {
        assert whole[i..i + |part|] == [whole[i]] + whole[i + 1..i + |part|];
      }
    }
  }

  /** A concatenation stands somewhere exactly when its two halves stand one after the other. */
  lemma {:induction false} AtConcat(whole: seq<byte>, i: nat, a: seq<byte>, b: seq<byte>)
    ensures At(whole, i, a + b) <==> At(whole, i, a) && At(whole, i + |a|, b)
    decreases |a|
  {
    if a == [] {
      assert a + b == b;
      AtIsSlice(whole, i, b);
    } else {
      assert (a + b)[1..] == a[1..] + b;
      AtConcat(whole, i + 1, a[1..], b);
    }
  }
}
