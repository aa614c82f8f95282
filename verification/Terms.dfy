/**
 The variant `Data` (include/etf/data.h) and its `operator<`, the order behind every `std::map<Data, Data>`.
 A double is kept as its 64-bit pattern; a map is kept as the sequence of its pairs in iteration order.
 */
module Terms {
  import opened Bytes

  datatype Data =
    | Undefined
    | Null
    | Bool(boolean: bool)
    | SInt(sint: i32)
    | UInt(uint: u32)
    | Double(bits: u64)
    | Str(str: seq<byte>)
    | Arr(items: seq<Data>)
    | Map(pairs: seq<Pair>)

  datatype Pair = Pair(key: Data, value: Data)

  /** The `type` field: the `*_TYPE` constants. */
  function TypeTag(d: Data): int {
    match d
    case Undefined => 0
    case Null => 1
    case Bool(_) => 2
    case SInt(_) => 3
    case UInt(_) => 4
    case Double(_) => 5
    case Str(_) => 6
    case Arr(_) => 7
    case Map(_) => 8
  }

  /** Number of values in a value, itself and map keys included. */
  function Nodes(d: Data): (n: nat)
    ensures n >= 1
  {
    match d
    case Arr(items) => 1 + NodesSeq(items)
    case Map(pairs) => 1 + NodesPairs(pairs)
    case _ => 1
  }

  function NodesSeq(ds: seq<Data>): nat {
    if ds == [] then 0 else Nodes(ds[0]) + NodesSeq(ds[1..])
  }

  function NodesPairs(ps: seq<Pair>): nat {
    if ps == [] then 0 else NodesPair(ps[0]) + NodesPairs(ps[1..])
  }

  function NodesPair(p: Pair): (n: nat)
    ensures n > Nodes(p.key) && n > Nodes(p.value)
  {
    Nodes(p.key) + Nodes(p.value)
  }

  // --------------------------------------------------------------------------
  // operator<
  // --------------------------------------------------------------------------

  /** `Data::operator<`: type first, then payload; doubles fall through to `false`. */
  predicate Less(a: Data, b: Data)
    decreases Nodes(a) + Nodes(b), 0
  {
    if TypeTag(a) != TypeTag(b) then TypeTag(a) < TypeTag(b)
    else
      match a
      case Bool(x) => !x && b.boolean
      case SInt(x) => x < b.sint
      case UInt(x) => x < b.uint
      case Str(s) => LessBytes(s, b.str)
      case Arr(xs) => LessSeq(xs, b.items)
      case Map(ps) => LessPairs(ps, b.pairs)
      case _ => false
  }

  /** `std::string::operator<`. */
  predicate LessBytes(s: seq<byte>, t: seq<byte>) {
    if t == [] then false
    else if s == [] then true
    else if s[0] != t[0] then s[0] < t[0]
    else LessBytes(s[1..], t[1..])
  }

  /** `std::vector<Data>::operator<`. */
  predicate LessSeq(xs: seq<Data>, ys: seq<Data>)
    decreases NodesSeq(xs) + NodesSeq(ys), 1
  {
    if ys == [] then false
    else if xs == [] then true
    else if Less(xs[0], ys[0]) then true
    else if Less(ys[0], xs[0]) then false
    else LessSeq(xs[1..], ys[1..])
  }

  /** `std::map<Data, Data>::operator<`, lexicographic over `std::pair::operator<`. */
  predicate LessPairs(ps: seq<Pair>, qs: seq<Pair>)
    decreases NodesPairs(ps) + NodesPairs(qs), 2
  {
    if qs == [] then false
    else if ps == [] then true
    else if LessPair(ps[0], qs[0]) then true
    else if LessPair(qs[0], ps[0]) then false
    else LessPairs(ps[1..], qs[1..])
  }

  predicate LessPair(p: Pair, q: Pair)
    decreases NodesPair(p) + NodesPair(q), 1
  {
    Less(p.key, q.key) || (!Less(q.key, p.key) && Less(p.value, q.value))
  }

  // --------------------------------------------------------------------------
  // What the order ignores
  // --------------------------------------------------------------------------

  /** The value with every double's payload blanked. */
  function Erase(d: Data): Data {
    match d
    case Double(_) => Double(0)
    case Arr(items) => Arr(EraseSeq(items))
    case Map(pairs) => Map(ErasePairs(pairs))
    case _ => d
  }

  function EraseSeq(ds: seq<Data>): (r: seq<Data>)
    ensures |r| == |ds|
  {
    if ds == [] then [] else [Erase(ds[0])] + EraseSeq(ds[1..])
  }

  function ErasePair(p: Pair): Pair {
    Pair(Erase(p.key), Erase(p.value))
  }

  function ErasePairs(ps: seq<Pair>): (r: seq<Pair>)
    ensures |r| == |ps|
  {
    if ps == [] then [] else [ErasePair(ps[0])] + ErasePairs(ps[1..])
  }

  /** Neither value is before the other: what `std::map` takes for the same key. */
  predicate Equivalent(a: Data, b: Data) {
    !Less(a, b) && !Less(b, a)
  }

  lemma {:induction false} ConsInjective<T>(x: T, xs: seq<T>, y: T, ys: seq<T>)
    ensures [x] + xs == [y] + ys <==> x == y && xs == ys
  {
    if [x] + xs == [y] + ys {
      assert ([x] + xs)[0] == ([y] + ys)[0];
      assert ([x] + xs)[1..] == xs && ([y] + ys)[1..] == ys;
    }
  }

  // Exactly one of: a before b, b before a, equal up to double payloads.

  ghost predicate OneOf(p: bool, q: bool, r: bool) {
    (p || q || r) && !(p && q) && !(p && r) && !(q && r)
  }

  lemma {:induction false} TrichotomyBytes(s: seq<byte>, t: seq<byte>)
    ensures OneOf(LessBytes(s, t), LessBytes(t, s), s == t)
  {
    if s != [] && t != [] && s[0] == t[0] {
      TrichotomyBytes(s[1..], t[1..]);
      assert s == [s[0]] + s[1..] && t == [t[0]] + t[1..];
    }
  }

  lemma {:induction false} Trichotomy(a: Data, b: Data)
    ensures OneOf(Less(a, b), Less(b, a), Erase(a) == Erase(b))
    decreases Nodes(a) + Nodes(b), 0
  {
    if TypeTag(a) == TypeTag(b) {
      match a
      case Str(s) => TrichotomyBytes(s, b.str);
      case Arr(xs) => TrichotomySeq(xs, b.items);
      case Map(ps) => TrichotomyPairs(ps, b.pairs);
      case _ =>
    }
  }

  lemma {:induction false} TrichotomySeq(xs: seq<Data>, ys: seq<Data>)
    ensures OneOf(LessSeq(xs, ys), LessSeq(ys, xs), EraseSeq(xs) == EraseSeq(ys))
    decreases NodesSeq(xs) + NodesSeq(ys), 1
  {
    if xs != [] && ys != [] {
      Trichotomy(xs[0], ys[0]);
      TrichotomySeq(xs[1..], ys[1..]);
      ConsInjective(Erase(xs[0]), EraseSeq(xs[1..]), Erase(ys[0]), EraseSeq(ys[1..]));
    }
  }

  lemma {:induction false} TrichotomyPairs(ps: seq<Pair>, qs: seq<Pair>)
    ensures OneOf(LessPairs(ps, qs), LessPairs(qs, ps), ErasePairs(ps) == ErasePairs(qs))
    decreases NodesPairs(ps) + NodesPairs(qs), 1
  {
    if ps != [] && qs != [] {
      Trichotomy(ps[0].key, qs[0].key);
      Trichotomy(ps[0].value, qs[0].value);
      TrichotomyPairs(ps[1..], qs[1..]);
      ConsInjective(ErasePair(ps[0]), ErasePairs(ps[1..]), ErasePair(qs[0]), ErasePairs(qs[1..]));
    }
  }

  // The order does not see double payloads.

  lemma {:induction false} LessErased(a: Data, b: Data)
    ensures Less(a, b) == Less(Erase(a), Erase(b))
    decreases Nodes(a) + Nodes(b), 0
  {
    if TypeTag(a) == TypeTag(b) {
      match a
      case Arr(xs) => LessErasedSeq(xs, b.items);
      case Map(ps) => LessErasedPairs(ps, b.pairs);
      case _ =>
    }
  }

  lemma {:induction false} LessErasedSeq(xs: seq<Data>, ys: seq<Data>)
    ensures LessSeq(xs, ys) == LessSeq(EraseSeq(xs), EraseSeq(ys))
    decreases NodesSeq(xs) + NodesSeq(ys), 1
  {
    if xs != [] && ys != [] {
      LessErased(xs[0], ys[0]);
      LessErased(ys[0], xs[0]);
      LessErasedSeq(xs[1..], ys[1..]);
    }
  }

  lemma {:induction false} LessErasedPairs(ps: seq<Pair>, qs: seq<Pair>)
    ensures LessPairs(ps, qs) == LessPairs(ErasePairs(ps), ErasePairs(qs))
    decreases NodesPairs(ps) + NodesPairs(qs), 1
  {
    if ps != [] && qs != [] {
      LessErased(ps[0].key, qs[0].key);
      LessErased(qs[0].key, ps[0].key);
      LessErased(ps[0].value, qs[0].value);
      LessErased(qs[0].value, ps[0].value);
      LessErasedPairs(ps[1..], qs[1..]);
    }
  }

  /** Equivalent values stand on the same side of every third value. */
  lemma {:induction false} SameSide(a: Data, b: Data, c: Data)
    requires Erase(a) == Erase(b)
    ensures Less(a, c) == Less(b, c)
    ensures Less(c, a) == Less(c, b)
  {
    LessErased(a, c);
    LessErased(b, c);
    LessErased(c, a);
    LessErased(c, b);
  }

  // Transitivity.

  lemma {:induction false} TransitiveBytes(s: seq<byte>, t: seq<byte>, u: seq<byte>)
    requires LessBytes(s, t) && LessBytes(t, u)
    ensures LessBytes(s, u)
  {
    if s != [] && s[0] == t[0] == u[0] {
      TransitiveBytes(s[1..], t[1..], u[1..]);
    }
  }

  lemma {:induction false} Transitive(a: Data, b: Data, c: Data)
    requires Less(a, b) && Less(b, c)
    ensures Less(a, c)
    decreases Nodes(a) + Nodes(b) + Nodes(c), 0
  {
    if TypeTag(a) == TypeTag(b) == TypeTag(c) {
      match a
      case Str(s) => TransitiveBytes(s, b.str, c.str);
      case Arr(xs) => TransitiveSeq(xs, b.items, c.items);
      case Map(ps) => TransitivePairs(ps, b.pairs, c.pairs);
      case _ =>
    }
  }

  /** One position of a lexicographic comparison of three sequences. */
  lemma {:induction false} TransitiveAt(x: Data, y: Data, z: Data)
    requires !Less(y, x) && !Less(z, y)
    ensures !Less(z, x)
    ensures Less(x, y) || Less(y, z) ==> Less(x, z)
    decreases Nodes(x) + Nodes(y) + Nodes(z), 1
  {
    Trichotomy(x, y);
    Trichotomy(y, z);
    Trichotomy(x, z);
    if Less(x, y) && Less(y, z) {
      Transitive(x, y, z);
    } else if Less(x, y) {
      SameSide(y, z, x);
    } else {
      SameSide(x, y, z);
    }
  }

  lemma {:induction false} TransitiveSeq(xs: seq<Data>, ys: seq<Data>, zs: seq<Data>)
    requires LessSeq(xs, ys) && LessSeq(ys, zs)
    ensures LessSeq(xs, zs)
    decreases NodesSeq(xs) + NodesSeq(ys) + NodesSeq(zs), 2
  {
    if xs != [] {
      Trichotomy(xs[0], ys[0]);
      Trichotomy(ys[0], zs[0]);
      TransitiveAt(xs[0], ys[0], zs[0]);
      if !Less(xs[0], ys[0]) && !Less(ys[0], zs[0]) {
        TransitiveAt(zs[0], ys[0], xs[0]);
        TransitiveSeq(xs[1..], ys[1..], zs[1..]);
      }
    }
  }

  lemma {:induction false} TransitivePair(p: Pair, q: Pair, r: Pair)
    requires !LessPair(q, p) && !LessPair(r, q)
    ensures !LessPair(r, p)
    ensures LessPair(p, q) || LessPair(q, r) ==> LessPair(p, r)
    decreases NodesPair(p) + NodesPair(q) + NodesPair(r), 2
  {
    Trichotomy(p.key, q.key);
    Trichotomy(q.key, r.key);
    TransitiveAt(p.key, q.key, r.key);
    if !Less(p.key, q.key) && !Less(q.key, r.key) {
      TransitiveAt(r.key, q.key, p.key);
      TransitiveAt(p.value, q.value, r.value);
    }
  }

  lemma {:induction false} TransitivePairs(ps: seq<Pair>, qs: seq<Pair>, rs: seq<Pair>)
    requires LessPairs(ps, qs) && LessPairs(qs, rs)
    ensures LessPairs(ps, rs)
    decreases NodesPairs(ps) + NodesPairs(qs) + NodesPairs(rs), 3
  {
    if ps != [] {
      Trichotomy(ps[0].key, qs[0].key);
      Trichotomy(qs[0].key, rs[0].key);
      Trichotomy(ps[0].value, qs[0].value);
      Trichotomy(qs[0].value, rs[0].value);
      TransitivePair(ps[0], qs[0], rs[0]);
      if !LessPair(ps[0], qs[0]) && !LessPair(qs[0], rs[0]) {
        TransitivePair(rs[0], qs[0], ps[0]);
        TransitivePairs(ps[1..], qs[1..], rs[1..]);
      }
    }
  }

  /**
   `operator<` is a strict weak order, as `std::map` demands of it, and the keys it cannot tell
   apart are exactly those that differ in nothing but the payloads of doubles.
   */
  lemma {:induction false} StrictWeakOrder(a: Data, b: Data, c: Data)
    ensures !Less(a, a)
    ensures Less(a, b) && Less(b, c) ==> Less(a, c)
    ensures Equivalent(a, b) && Equivalent(b, c) ==> Equivalent(a, c)
    ensures Equivalent(a, b) <==> Erase(a) == Erase(b)
  {
    Trichotomy(a, a);
    Trichotomy(a, b);
    Trichotomy(b, c);
    Trichotomy(a, c);
    if Less(a, b) && Less(b, c) {
      Transitive(a, b, c);
    }
  }
}
