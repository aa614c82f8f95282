/**
 Base-256 digit strings of SMALL_BIG_EXT and LARGE_BIG_EXT, and the value `decodeBig` delivers for them.
 */
module BigIntegers {
  import opened Bytes
  import opened Terms
  import opened Wrappers

  const MINUS: byte := 45
  const ZERO: byte := 48

  /** The digits the writers' `while` loops produce, least significant first. */
  function Digits(n: nat): seq<byte> {
    if n == 0 then [] else [n % 0x100] + Digits(n / 0x100)
  }

  /** The sum of ds[i] * 256^i. */
  function FromDigits(ds: seq<byte>): nat {
    if ds == [] then 0 else ds[0] as int + 0x100 * FromDigits(ds[1..])
  }

  lemma {:induction false} FromDigitsBound(ds: seq<byte>)
    ensures FromDigits(ds) < Power256(|ds|)
  {
    if ds != [] {
      FromDigitsBound(ds[1..]);
    }
  }

  /** Adding the next digit, as one turn of the loop in `decodeBig` does. */
  lemma {:induction false} FromDigitsSnoc(ds: seq<byte>, d: byte)
    ensures FromDigits(ds + [d]) == FromDigits(ds) + d * Power256(|ds|)
  {
    if ds == [] {
      assert ds + [d] == [d];
    } else {
      FromDigitsSnoc(ds[1..], d);
      assert (ds + [d])[1..] == ds[1..] + [d];
      var p := Power256(|ds| - 1);
      assert d * Power256(|ds|) == 0x100 * (d * p);
    }
  }

  /**
   The digits of a number add up to it and have no zero on top; and every digit string with those
   two properties is the one the writer produces.
   */
  lemma {:induction false} DigitsDenote(n: nat)
    ensures FromDigits(Digits(n)) == n
    ensures n > 0 ==> Digits(n) != [] && Digits(n)[|Digits(n)| - 1] != 0
  {
    if n > 0 {
      DigitsDenote(n / 0x100);
    }
  }

  lemma {:induction false} DigitsUnique(ds: seq<byte>)
    requires ds != [] ==> ds[|ds| - 1] != 0
    ensures Digits(FromDigits(ds)) == ds
    ensures ds != [] ==> FromDigits(ds) > 0
  {
    if ds != [] {
      DigitsUnique(ds[1..]);
      assert FromDigits(ds) % 0x100 == ds[0] && FromDigits(ds) / 0x100 == FromDigits(ds[1..]);
      assert ds == [ds[0]] + ds[1..];
    }
  }

  lemma {:induction false} DigitsLength(n: nat, k: nat)
    ensures |Digits(n)| <= k <==> n < Power256(k)
  {
    if n > 0 && k > 0 {
      DigitsLength(n / 0x100, k - 1);
    }
  }

  /** Which digit stands where: the least significant one comes first. */
  lemma {:induction false} DigitAt(n: nat, i: nat)
    requires i < |Digits(n)|
    ensures Digits(n)[i] == n / Power256(i) % 0x100
  {
    if i > 0 {
      DigitAt(n / 0x100, i - 1);
      DivideTwice(n, Power256(i - 1));
    }
  }

  // --------------------------------------------------------------------------
  // Decimal strings
  // --------------------------------------------------------------------------

  /** `sprintf` of a uint64 with "%" PRIu64. */
  function Decimal(n: nat): (s: seq<byte>)
    ensures s != []
    ensures forall c :: c in s ==> ZERO <= c <= ZERO + 9
  {
    if n < 10 then [ZERO + n] else Decimal(n / 10) + [ZERO + n % 10]
  }

  function Power10(k: nat): (p: nat)
    ensures p > 0
  {
    if k == 0 then 1 else 10 * Power10(k - 1)
  }

  lemma {:induction false} DecimalLength(n: nat, k: nat)
    requires k > 0 && n < Power10(k)
    ensures |Decimal(n)| <= k
  {
    if n >= 10 {
      DecimalLength(n / 10, k - 1);
    }
  }

  /** Which decimal digit stands where: the most significant one comes first, and it is no zero but in "0". */
  lemma {:induction false} DecimalAt(n: nat, i: nat)
    requires i < |Decimal(n)|
    ensures Decimal(n)[i] == 48 + n / Power10(|Decimal(n)| - 1 - i) % 10
    ensures n > 0 ==> Decimal(n)[0] != 48
  {
    if n >= 10 {
      var k := |Decimal(n)| - 1;
      DecimalAt(n / 10, if i < k then i else 0);
      if i < k {
        DivideByTens(n, Power10(k - 1 - i));
      }
    }
  }

  lemma DivideByTens(n: nat, m: nat)
    requires m > 0
    ensures n / 10 / m == n / (10 * m)
  {
    var q, r := n / 10 / m, n / 10 % m;
    assert n == 10 * (m * q + r) + n % 10;
    assert 10 * (m * q) == (10 * m) * q;
    QuotientUnique(n, 10 * m, q, 10 * r + n % 10);
  }

  lemma DecimalLength64(n: u64)
    ensures |Decimal(n)| <= 20
  {
    assert Power10(5) == 100_000;
    assert Power10(10) == 10_000_000_000;
    assert Power10(15) == 1_000_000_000_000_000;
    assert Power10(20) == 100_000_000_000_000_000_000;
    DecimalLength(n, 20);
  }

  /** The number a string of decimal digits stands for. */
  function ParseDigits(s: seq<byte>): Option<nat> {
    if s == [] then Some(0)
    else
      var last := s[|s| - 1];
      match ParseDigits(s[..|s| - 1])
      case None => None
      case Some(n) => if ZERO <= last <= ZERO + 9 then Some(10 * n + (last - ZERO)) else None
  }

  /** (-1)^sign times a magnitude; every non-zero sign byte counts as a minus. */
  function Signed(sign: byte, n: int): int {
    if sign == 0 then n else -n
  }

  /** The integer a decoded number stands for, whichever of the three forms it comes in. */
  function Denoted(d: Data): Option<int> {
    match d
    case SInt(i) => Some(i)
    case UInt(u) => Some(u)
    case Str(s) =>
      if s == [] || s == [MINUS] then None
      else if s[0] == MINUS then
        match ParseDigits(s[1..]) { case None => None case Some(n) => Some(Signed(1, n)) }
      else
        match ParseDigits(s) { case None => None case Some(n) => Some(Signed(0, n)) }
    case _ => None
  }

  lemma {:induction false} ParseDecimal(n: nat)
    ensures ParseDigits(Decimal(n)) == Some(n)
  {
    var s := Decimal(n);
    if n < 10 {
      assert s[..0] == [];
    } else {
      ParseDecimal(n / 10);
      assert s[..|s| - 1] == Decimal(n / 10);
    }
  }

  /** The string built for a magnitude and a sign byte. */
  function SignedDecimal(sign: byte, n: nat): seq<byte> {
    if sign == 0 then Decimal(n) else [MINUS] + Decimal(n)
  }

  // --------------------------------------------------------------------------
  // decodeBig
  // --------------------------------------------------------------------------

  /** The end of `decodeBig`: the value delivered for a sign byte and the digits read. */
  function BigData(sign: byte, digits: seq<byte>): Data
    requires |digits| <= 8
  {
    DigitsFit(digits);
    BigResult(sign, |digits|, FromDigits(digits))
  }

  function BigResult(sign: byte, digits: nat, value: u64): Data
    requires digits <= 4 ==> value < TWO_TO_32
  {
    if digits <= 4 && sign == 0 then UInt(value)
    else if digits <= 4 && value < 0x8000_0000 then SInt(Signed(sign, value))
    else Str(SignedDecimal(sign, value))
  }

  lemma DigitsFit(digits: seq<byte>)
    requires |digits| <= 8
    ensures FromDigits(digits) < TWO_TO_64
    ensures |digits| <= 4 ==> FromDigits(digits) < TWO_TO_32
  {
    FromDigitsBound(digits);
    PowerValues();
    PowersGrow(|digits|, 8);
    if |digits| <= 4 {
      PowersGrow(|digits|, 4);
    }
  }

  lemma {:induction false} PowersGrow(j: nat, k: nat)
    requires j <= k
    ensures Power256(j) <= Power256(k)
    decreases k
  {
    if j < k {
      PowersGrow(j, k - 1);
    }
  }

  lemma SignedDecimalDenotes(sign: byte, n: u64)
    ensures Denoted(Str(SignedDecimal(sign, n))) == Some(Signed(sign, n))
    ensures |SignedDecimal(sign, n)| <= 21
  {
    ParseDecimal(n);
    DecimalLength64(n);
    assert Decimal(n)[0] in Decimal(n);
    assert ([MINUS] + Decimal(n))[1..] == Decimal(n);
  }

  /**
   For any sign byte and any at most eight digits, minimal or not, the delivered value stands for
   exactly (-1)^sign times the digit sum, and a string fits the 32-byte buffer with its terminator.
   */
  lemma BigDataDenotes(sign: byte, digits: seq<byte>)
    requires |digits| <= 8
    ensures FromDigits(digits) < TWO_TO_64
    ensures Denoted(BigData(sign, digits)) == Some(Signed(sign, FromDigits(digits)))
    ensures BigData(sign, digits).Str? ==> |BigData(sign, digits).str| <= 21
  {
    DigitsFit(digits);
    SignedDecimalDenotes(sign, FromDigits(digits));
  }

  /** Which form an integer comes back in after the writers' minimal encoding. */
  function BigForm(d: int): Data {
    if 0 <= d < TWO_TO_32 then UInt(d)
    else if -0x8000_0000 < d < 0 then SInt(d)
    else Str(SignedDecimal(if d < 0 then 1 else 0, if d < 0 then -d else d))
  }

  lemma BigDataOfDigits(d: int)
    requires -TWO_TO_64 < d < TWO_TO_64
    ensures var n := if d < 0 then -d else d;
            |Digits(n)| <= 8 && BigData(if d < 0 then 1 else 0, Digits(n)) == BigForm(d)
  {
    var n := if d < 0 then -d else d;
    PowerValues();
    DigitsLength(n, 8);
    DigitsLength(n, 4);
    DigitsDenote(n);
  }
}
