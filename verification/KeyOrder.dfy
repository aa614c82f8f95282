/**
 In which order a `std::map<Data, Data>` holds its keys, told without `operator<`: by kind, then by value, and
 in strings, arrays and maps by the first place at which they differ.
 */
module KeyOrder {
  import opened Bytes
  import opened Normal
  import opened Terms

  /** Undefined, null, Booleans, signed and unsigned integers, doubles, strings, arrays, maps: in this order. */
  predicate EarlierKind(a: Data, b: Data) {
    match a
    case Undefined => !b.Undefined?
    case Null => !b.Undefined? && !b.Null?
    case Bool(_) => b.SInt? || b.UInt? || b.Double? || b.Str? || b.Arr? || b.Map?
    case SInt(_) => b.UInt? || b.Double? || b.Str? || b.Arr? || b.Map?
    case UInt(_) => b.Double? || b.Str? || b.Arr? || b.Map?
    case Double(_) => b.Str? || b.Arr? || b.Map?
    case Str(_) => b.Arr? || b.Map?
    case Arr(_) => b.Map?
    case Map(_) => false
  }

  /** The strings agree before position `k`, at which the first one ends or has the smaller byte. */
  predicate BytesDifferAt(s: seq<byte>, t: seq<byte>, k: int) {
    0 <= k <= |s| && k < |t| && s[..k] == t[..k] && (k == |s| || s[k] < t[k])
  }

  ghost predicate BytesPrecede(s: seq<byte>, t: seq<byte>) {
    exists k :: BytesDifferAt(s, t, k)
  }

  /** Nothing but the payloads of doubles differs. */
  predicate Alike(a: Data, b: Data) {
    Erase(a) == Erase(b)
  }

  /** The key `a` stands before the key `b`. */
  ghost predicate Precedes(a: Data, b: Data)
    decreases a, 1
  {
    || EarlierKind(a, b)
    || (a.Bool? && b.Bool? && !a.boolean && b.boolean)
    || (a.SInt? && b.SInt? && a.sint < b.sint)
    || (a.UInt? && b.UInt? && a.uint < b.uint)
    || (a.Str? && b.Str? && BytesPrecede(a.str, b.str))
    || (a.Arr? && b.Arr? && ItemsPrecede(a.items, b.items))
    || (a.Map? && b.Map? && PairsPrecede(a.pairs, b.pairs))
  }

  ghost predicate ItemsPrecede(xs: seq<Data>, ys: seq<Data>)
    decreases xs, 1
  {
    exists k :: ItemsDifferAt(xs, ys, k)
  }

  ghost predicate ItemsDifferAt(xs: seq<Data>, ys: seq<Data>, k: int)
    decreases xs, 0
  {
    && 0 <= k <= |xs| && k < |ys|
    && (forall j :: 0 <= j < k ==> Alike(xs[j], ys[j]))
    && (k == |xs| || Precedes(xs[k], ys[k]))
  }

  ghost predicate PairsPrecede(ps: seq<Pair>, qs: seq<Pair>)
    decreases ps, 1
  {
    exists k :: PairsDifferAt(ps, qs, k)
  }

  /** Pairs are compared by their keys, and by their values if the keys are alike. */
  ghost predicate PairsDifferAt(ps: seq<Pair>, qs: seq<Pair>, k: int)
    decreases ps, 0
  {
    && 0 <= k <= |ps| && k < |qs|
    && (forall j :: 0 <= j < k ==> Alike(ps[j].key, qs[j].key) && Alike(ps[j].value, qs[j].value))
    && (k == |ps| || PairPrecedes(ps[k], qs[k]))
  }

  ghost predicate PairPrecedes(p: Pair, q: Pair)
    decreases p, 0
  {
    Precedes(p.key, q.key) || (Alike(p.key, q.key) && Precedes(p.value, q.value))
  }

  // --------------------------------------------------------------------------
  // That is what operator< says
  // --------------------------------------------------------------------------

  lemma {:induction false} LessBytesMeans(s: seq<byte>, t: seq<byte>)
    ensures LessBytes(s, t) <==> BytesPrecede(s, t)
  {
    if t == [] || s == [] {
      if t != [] {
        assert BytesDifferAt(s, t, 0);
      }
    } else if s[0] != t[0] {
      forall k | 0 < k <= |s| && k < |t| ensures s[..k] != t[..k] {
        assert s[..k][0] != t[..k][0];
      }
      if s[0] < t[0] {
        assert BytesDifferAt(s, t, 0);
      }
    } else {
      LessBytesMeans(s[1..], t[1..]);
      if k :| BytesDifferAt(s[1..], t[1..], k) {
        assert s[..k + 1] == [s[0]] + s[1..][..k] && t[..k + 1] == [t[0]] + t[1..][..k];
        assert BytesDifferAt(s, t, k + 1);
      }
      if k :| BytesDifferAt(s, t, k) {
        assert s[1..][..k - 1] == s[..k][1..] && t[1..][..k - 1] == t[..k][1..];
        assert BytesDifferAt(s[1..], t[1..], k - 1);
      }
    }
  }

  lemma {:induction false} LessMeans(a: Data, b: Data)
    ensures Less(a, b) <==> Precedes(a, b)
    decreases a, 1
  {
    if a.Str? && b.Str? {
      LessBytesMeans(a.str, b.str);
    } else if a.Arr? && b.Arr? {
      LessSeqMeans(a.items, b.items);
    } else if a.Map? && b.Map? {
      LessPairsMeans(a.pairs, b.pairs);
    }
  }

  lemma {:induction false} LessSeqMeans(xs: seq<Data>, ys: seq<Data>)
    ensures LessSeq(xs, ys) <==> ItemsPrecede(xs, ys)
    decreases xs, 0
  {
    if xs == [] || ys == [] {
      if ys != [] {
        assert ItemsDifferAt(xs, ys, 0);
      }
    } else {
      LessMeans(xs[0], ys[0]);
      Trichotomy(xs[0], ys[0]);
      LessSeqMeans(xs[1..], ys[1..]);
      if Less(xs[0], ys[0]) {
        assert ItemsDifferAt(xs, ys, 0);
      } else if Alike(xs[0], ys[0]) {
        ItemsShift(xs, ys);
      } else {
        forall k ensures !ItemsDifferAt(xs, ys, k) {
          assert !Alike(xs[0], ys[0]) && !Precedes(xs[0], ys[0]);
        }
      }
    }
  }

  lemma ItemsShift(xs: seq<Data>, ys: seq<Data>)
    requires xs != [] && ys != [] && Alike(xs[0], ys[0]) && !Precedes(xs[0], ys[0])
    ensures ItemsPrecede(xs, ys) <==> ItemsPrecede(xs[1..], ys[1..])
  {
    if k :| ItemsDifferAt(xs, ys, k) {
      assert ItemsDifferAt(xs[1..], ys[1..], k - 1);
    }
    if k :| ItemsDifferAt(xs[1..], ys[1..], k) {
      forall j | 0 <= j < k + 1 ensures Alike(xs[j], ys[j]) {
        if j > 0 { assert Alike(xs[1..][j - 1], ys[1..][j - 1]); }
      }
      assert ItemsDifferAt(xs, ys, k + 1);
    }
  }

  lemma {:induction false} LessPairMeans(p: Pair, q: Pair)
    ensures LessPair(p, q) <==> PairPrecedes(p, q)
    ensures !LessPair(p, q) && !LessPair(q, p) <==> Alike(p.key, q.key) && Alike(p.value, q.value)
    decreases p, 0
  {
    LessMeans(p.key, q.key);
    LessMeans(p.value, q.value);
    Trichotomy(p.key, q.key);
    Trichotomy(p.value, q.value);
  }

  lemma {:induction false} LessPairsMeans(ps: seq<Pair>, qs: seq<Pair>)
    ensures LessPairs(ps, qs) <==> PairsPrecede(ps, qs)
    decreases ps, 0
  {
    if ps == [] || qs == [] {
      if qs != [] {
        assert PairsDifferAt(ps, qs, 0);
      }
    } else {
      LessPairMeans(ps[0], qs[0]);
      LessPairsMeans(ps[1..], qs[1..]);
      if LessPair(ps[0], qs[0]) {
        assert PairsDifferAt(ps, qs, 0);
      } else if !LessPair(qs[0], ps[0]) {
        PairsShift(ps, qs);
      } else {
        forall k ensures !PairsDifferAt(ps, qs, k) {
          assert !(Alike(ps[0].key, qs[0].key) && Alike(ps[0].value, qs[0].value)) && !PairPrecedes(ps[0], qs[0]);
        }
      }
    }
  }

  lemma PairsShift(ps: seq<Pair>, qs: seq<Pair>)
    requires ps != [] && qs != [] && !PairPrecedes(ps[0], qs[0])
    requires Alike(ps[0].key, qs[0].key) && Alike(ps[0].value, qs[0].value)
    ensures PairsPrecede(ps, qs) <==> PairsPrecede(ps[1..], qs[1..])
  {
    if k :| PairsDifferAt(ps, qs, k) {
      assert PairsDifferAt(ps[1..], qs[1..], k - 1);
    }
    if k :| PairsDifferAt(ps[1..], qs[1..], k) {
      forall j | 0 <= j < k + 1 ensures Alike(ps[j].key, qs[j].key) && Alike(ps[j].value, qs[j].value) {
        if j > 0 { assert Alike(ps[1..][j - 1].key, qs[1..][j - 1].key); }
      }
      assert PairsDifferAt(ps, qs, k + 1);
    }
  }

  /** The keys of a rebuilt map stand in this order, whatever pairs it was rebuilt from. */
  lemma MapInOrder(ps: seq<Pair>, i: nat, j: nat)
    requires i < j < |MapOf(ps).pairs|
    ensures Precedes(MapOf(ps).pairs[i].key, MapOf(ps).pairs[j].key)
  {
    BuiltSorted([], ps);
    LessMeans(MapOf(ps).pairs[i].key, MapOf(ps).pairs[j].key);
  }

  /** And so do those of every map inside a value that the decoder delivers or the encoder is to get. */
  lemma SortedInOrder(ps: seq<Pair>)
    ensures Sorted(ps) <==> forall i, j :: 0 <= i < j < |ps| ==> Precedes(ps[i].key, ps[j].key)
  {
    forall i, j | 0 <= i < j < |ps| ensures Less(ps[i].key, ps[j].key) == Precedes(ps[i].key, ps[j].key) {
      LessMeans(ps[i].key, ps[j].key);
    }
  }
}
