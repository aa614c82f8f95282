/**
 `std::map<Data, Data>::operator[]` on sorted pairs, and the values that survive a trip over the wire.
 */
module Normal {
  import opened Sequences
  import opened Terms
  import opened Wrappers

  // --------------------------------------------------------------------------
  // map[key] = value
  // --------------------------------------------------------------------------

  /** Keys strictly increase: the iteration order of a `std::map`. */
  ghost predicate Sorted(ps: seq<Pair>) {
    forall i, j :: 0 <= i < j < |ps| ==> Less(ps[i].key, ps[j].key)
  }

  /** `map[key] = value`: an equivalent key already present stays and only its value changes. */
  function Put(ps: seq<Pair>, key: Data, value: Data): seq<Pair> {
    if ps == [] then [Pair(key, value)]
    else if Less(ps[0].key, key) then [ps[0]] + Put(ps[1..], key, value)
    else if Less(key, ps[0].key) then [Pair(key, value)] + ps
    else [Pair(ps[0].key, value)] + ps[1..]
  }

  /** The pairs of `ps` assigned one after the other. */
  function PutAll(acc: seq<Pair>, ps: seq<Pair>): seq<Pair>
    decreases |ps|
  {
    if ps == [] then acc else PutAll(Put(acc, ps[0].key, ps[0].value), ps[1..])
  }

  lemma {:induction false} PutAllSnoc(acc: seq<Pair>, ps: seq<Pair>, p: Pair)
    ensures PutAll(acc, ps + [p]) == Put(PutAll(acc, ps), p.key, p.value)
    decreases |ps|
  {
    if ps == [] {
      assert ps + [p] == [p];
    } else {
      assert (ps + [p])[1..] == ps[1..] + [p];
      PutAllSnoc(Put(acc, ps[0].key, ps[0].value), ps[1..], p);
    }
  }

  /** A fresh map after assigning `ps` in order. */
  function MapOf(ps: seq<Pair>): Data {
    Map(PutAll([], ps))
  }

  /** The pair a lookup of `key` lands on. */
  ghost function Find(ps: seq<Pair>, key: Data): Option<Pair> {
    if ps == [] then None
    else if Equivalent(ps[0].key, key) then Some(ps[0])
    else Find(ps[1..], key)
  }

  lemma {:induction false} PutMembers(ps: seq<Pair>, key: Data, value: Data)
    ensures forall p :: p in Put(ps, key, value) ==>
              p in ps || (p.value == value && (p.key == key || exists q :: q in ps && q.key == p.key))
  {
    if ps != [] {
      PutMembers(ps[1..], key, value);
      assert ps[0] in ps && forall q :: q in ps[1..] ==> q in ps;
    }
  }

  lemma {:induction false} SortedCons(p: Pair, ps: seq<Pair>)
    ensures Sorted([p] + ps) <==> Sorted(ps) && forall q :: q in ps ==> Less(p.key, q.key)
  {
    var s := [p] + ps;
    assert forall i :: 0 <= i < |ps| ==> s[i + 1] == ps[i];
    if Sorted(s) {
      forall i, j | 0 <= i < j < |ps| ensures Less(ps[i].key, ps[j].key) {
        assert Less(s[i + 1].key, s[j + 1].key);
      }
      forall q | q in ps ensures Less(p.key, q.key) {
        var j :| 0 <= j < |ps| && ps[j] == q;
        assert Less(s[0].key, s[j + 1].key);
      }
    }
  }

  lemma {:induction false} PutSorted(ps: seq<Pair>, key: Data, value: Data)
    requires Sorted(ps)
    ensures Sorted(Put(ps, key, value))
  {
    if ps == [] {
    } else {
      assert ps == [ps[0]] + ps[1..];
      SortedCons(ps[0], ps[1..]);
      if Less(ps[0].key, key) {
        PutSorted(ps[1..], key, value);
        PutMembers(ps[1..], key, value);
        SortedCons(ps[0], Put(ps[1..], key, value));
      } else if Less(key, ps[0].key) {
        forall q | q in ps ensures Less(key, q.key) {
          if q != ps[0] {
            assert q in ps[1..];
            Transitive(key, ps[0].key, q.key);
          }
        }
        SortedCons(Pair(key, value), ps);
      } else {
        SortedCons(Pair(ps[0].key, value), ps[1..]);
      }
    }
  }

  /**
   What an assignment does to every lookup: keys equivalent to `key` now find `value`, under the
   key that was there first; every other key finds what it found before.
   */
  lemma {:induction false} PutThenFind(ps: seq<Pair>, key: Data, value: Data, q: Data)
    requires Sorted(ps)
    ensures var kept := Find(ps, key);
            var r := Find(Put(ps, key, value), q);
            if Equivalent(key, q) then r == Some(Pair(if kept.Some? then kept.value.key else key, value))
            else r == Find(ps, q)
  {
    Trichotomy(key, q);
    if ps != [] {
      var p := ps[0];
      assert ps == [p] + ps[1..];
      SortedCons(p, ps[1..]);
      Trichotomy(p.key, key);
      Trichotomy(p.key, q);
      if Less(p.key, key) {
        PutThenFind(ps[1..], key, value, q);
        if Equivalent(key, q) {
          SameSide(key, q, p.key);
        }
      } else if Less(key, p.key) {
        forall x | x in ps ensures Less(key, x.key) {
          if x != p { Transitive(key, p.key, x.key); }
        }
        FindAbsent(ps, key);
      } else {
        assert Put(ps, key, value)[1..] == ps[1..];
      }
    }
  }

  lemma {:induction false} FindAbsent(ps: seq<Pair>, key: Data)
    requires forall x :: x in ps ==> Less(key, x.key)
    ensures Find(ps, key) == None
  {
    if ps != [] {
      assert ps[0] in ps;
      FindAbsent(ps[1..], key);
    }
  }

  /** Assigning a pair beyond every key appends it. */
  lemma {:induction false} PutLast(ps: seq<Pair>, key: Data, value: Data)
    requires forall p :: p in ps ==> Less(p.key, key)
    ensures Put(ps, key, value) == ps + [Pair(key, value)]
  {
    if ps != [] {
      assert ps[0] in ps;
      PutLast(ps[1..], key, value);
    }
  }

  /** Assigning the pairs of a map in iteration order builds the same map again. */
  lemma {:induction false} PutAllSorted(acc: seq<Pair>, ps: seq<Pair>)
    requires Sorted(acc + ps)
    ensures PutAll(acc, ps) == acc + ps
    decreases |ps|
  {
    if ps == [] {
      assert acc + ps == acc;
    } else {
      var s := acc + ps;
      forall p | p in acc ensures Less(p.key, ps[0].key) {
        var i :| 0 <= i < |acc| && acc[i] == p;
        assert s[i] == p && s[|acc|] == ps[0];
      }
      PutLast(acc, ps[0].key, ps[0].value);
      assert s == (acc + [ps[0]]) + ps[1..];
      PutAllSorted(acc + [ps[0]], ps[1..]);
    }
  }

  /** Equivalent keys look up alike. */
  lemma {:induction false} FindSame(ps: seq<Pair>, a: Data, b: Data)
    requires Equivalent(a, b)
    ensures Find(ps, a) == Find(ps, b)
  {
    if ps != [] {
      StrictWeakOrder(ps[0].key, a, b);
      StrictWeakOrder(ps[0].key, b, a);
      FindSame(ps[1..], a, b);
    }
  }

  lemma {:induction false} BuiltSorted(acc: seq<Pair>, ps: seq<Pair>)
    requires Sorted(acc)
    ensures Sorted(PutAll(acc, ps))
    decreases |ps|
  {
    if ps != [] {
      PutSorted(acc, ps[0].key, ps[0].value);
      BuiltSorted(Put(acc, ps[0].key, ps[0].value), ps[1..]);
    }
  }

  /** A lookup in the map built from `ps`, before and after its last assignment. */
  lemma BuiltThenFind(ps: seq<Pair>, q: Data)
    requires ps != []
    ensures var before := Find(PutAll([], Front(ps)), q);
            var p := Last(ps);
            Find(PutAll([], ps), q)
            == if Equivalent(p.key, q) then Some(Pair(if before.Some? then before.value.key else p.key, p.value))
               else before
  {
    var m, p := PutAll([], Front(ps)), Last(ps);
    FrontLast(ps);
    PutAllSnoc([], Front(ps), p);
    BuiltSorted([], Front(ps));
    PutThenFind(m, p.key, p.value, q);
    if Equivalent(p.key, q) {
      FindSame(m, p.key, q);
    }
  }

  lemma {:induction false} BuiltMisses(ps: seq<Pair>, q: Data)
    requires forall k :: 0 <= k < |ps| ==> !Equivalent(ps[k].key, q)
    ensures Find(PutAll([], ps), q) == None
  {
    if ps != [] {
      assert forall k :: 0 <= k < |ps| - 1 ==> Front(ps)[k] == ps[k];
      BuiltMisses(Front(ps), q);
      BuiltThenFind(ps, q);
    }
  }

  lemma {:induction false} BuiltKeepsFirstKey(ps: seq<Pair>, q: Data, i: nat)
    requires i < |ps| && Equivalent(ps[i].key, q)
    requires forall k :: 0 <= k < i ==> !Equivalent(ps[k].key, q)
    ensures var r := Find(PutAll([], ps), q);
            r.Some? && r.value.key == ps[i].key
  {
    assert forall k :: 0 <= k < |ps| - 1 ==> Front(ps)[k] == ps[k];
    if i == |ps| - 1 {
      BuiltMisses(Front(ps), q);
    } else {
      BuiltKeepsFirstKey(Front(ps), q, i);
    }
    BuiltThenFind(ps, q);
  }

  lemma {:induction false} BuiltTakesLastValue(ps: seq<Pair>, q: Data, j: nat)
    requires j < |ps| && Equivalent(ps[j].key, q)
    requires forall k :: j < k < |ps| ==> !Equivalent(ps[k].key, q)
    ensures var r := Find(PutAll([], ps), q);
            r.Some? && r.value.value == ps[j].value
  {
    assert forall k :: 0 <= k < |ps| - 1 ==> Front(ps)[k] == ps[k];
    if j < |ps| - 1 {
      BuiltTakesLastValue(Front(ps), q, j);
    }
    BuiltThenFind(ps, q);
  }

  /**
   The map built from any pairs, doubles among the keys or not: a lookup lands on the first key equivalent
   to the one sought, with the last value assigned to such a key; and on nothing if there is no such key.
   */
  lemma MapOfFinds(ps: seq<Pair>, q: Data, i: nat, j: nat)
    requires i <= j < |ps| && Equivalent(ps[i].key, q) && Equivalent(ps[j].key, q)
    requires forall k :: 0 <= k < i || j < k < |ps| ==> !Equivalent(ps[k].key, q)
    ensures Sorted(MapOf(ps).pairs)
    ensures Find(MapOf(ps).pairs, q) == Some(Pair(ps[i].key, ps[j].value))
  {
    BuiltSorted([], ps);
    BuiltKeepsFirstKey(ps, q, i);
    BuiltTakesLastValue(ps, q, j);
  }

  // --------------------------------------------------------------------------
  // Values and their normal forms
  // --------------------------------------------------------------------------

  /** Every map inside is a `std::map`: its keys strictly increase. */
  ghost predicate WellFormed(d: Data) {
    match d
    case Arr(items) => forall x | x in items :: WellFormed(x)
    case Map(pairs) => Sorted(pairs) && forall p | p in pairs :: WellFormedPair(p)
    case _ => true
  }

  ghost predicate WellFormedPair(p: Pair) {
    WellFormed(p.key) && WellFormed(p.value)
  }

  /** No value inside that the wire format merges with another: no Undefined, no UINT below 256. */
  predicate Canonical(d: Data) {
    match d
    case Undefined => false
    case UInt(u) => u > 255
    case Arr(items) => forall x | x in items :: Canonical(x)
    case Map(pairs) => forall p | p in pairs :: CanonicalPair(p)
    case _ => true
  }

  predicate CanonicalPair(p: Pair) {
    Canonical(p.key) && Canonical(p.value)
  }

  /** What the receiver of `d` ends up with. */
  function Norm(d: Data): Data {
    match d
    case Undefined => Null
    case UInt(u) => if u <= 255 then SInt(u) else d
    case Arr(items) => Arr(NormSeq(items))
    case Map(pairs) => MapOf(NormPairs(pairs))
    case _ => d
  }

  function NormSeq(ds: seq<Data>): (r: seq<Data>)
    ensures |r| == |ds|
  {
    if ds == [] then [] else [Norm(ds[0])] + NormSeq(ds[1..])
  }

  function NormPair(p: Pair): Pair {
    Pair(Norm(p.key), Norm(p.value))
  }

  function NormPairs(ps: seq<Pair>): (r: seq<Pair>)
    ensures |r| == |ps|
  {
    if ps == [] then [] else [NormPair(ps[0])] + NormPairs(ps[1..])
  }

  ghost predicate InNormalForm(d: Data) {
    Canonical(d) && WellFormed(d)
  }

  ghost predicate PairInNormalForm(p: Pair) {
    InNormalForm(p.key) && InNormalForm(p.value)
  }

  lemma {:induction false} PutKeepsNormalForm(ps: seq<Pair>, key: Data, value: Data)
    requires Sorted(ps) && forall p :: p in ps ==> PairInNormalForm(p)
    requires InNormalForm(key) && InNormalForm(value)
    ensures Sorted(Put(ps, key, value))
    ensures forall p :: p in Put(ps, key, value) ==> PairInNormalForm(p)
  {
    PutSorted(ps, key, value);
    PutMembers(ps, key, value);
  }

  lemma {:induction false} PutAllKeepsNormalForm(acc: seq<Pair>, ps: seq<Pair>)
    requires Sorted(acc) && forall p :: p in acc ==> PairInNormalForm(p)
    requires forall p :: p in ps ==> PairInNormalForm(p)
    ensures Sorted(PutAll(acc, ps))
    ensures forall p :: p in PutAll(acc, ps) ==> PairInNormalForm(p)
    decreases |ps|
  {
    if ps != [] {
      assert ps[0] in ps;
      PutKeepsNormalForm(acc, ps[0].key, ps[0].value);
      PutAllKeepsNormalForm(Put(acc, ps[0].key, ps[0].value), ps[1..]);
    }
  }

  lemma {:induction false} NormIsNormal(d: Data)
    ensures InNormalForm(Norm(d))
  {
    match d
    case Arr(items) => NormSeqIsNormal(items);
    case Map(pairs) =>
      NormPairsIsNormal(pairs);
      PutAllKeepsNormalForm([], NormPairs(pairs));
    case _ =>
  }

  lemma {:induction false} NormSeqIsNormal(ds: seq<Data>)
    ensures forall x :: x in NormSeq(ds) ==> InNormalForm(x)
  {
    if ds != [] {
      NormIsNormal(ds[0]);
      NormSeqIsNormal(ds[1..]);
    }
  }

  lemma {:induction false} NormPairIsNormal(p: Pair)
    ensures PairInNormalForm(NormPair(p))
  {
    NormIsNormal(p.key);
    NormIsNormal(p.value);
  }

  lemma {:induction false} NormPairsIsNormal(ps: seq<Pair>)
    ensures forall p :: p in NormPairs(ps) ==> PairInNormalForm(p)
  {
    if ps != [] {
      NormPairIsNormal(ps[0]);
      NormPairsIsNormal(ps[1..]);
    }
  }

  lemma {:induction false} NormalIsFixed(d: Data)
    requires InNormalForm(d)
    ensures Norm(d) == d
  {
    match d
    case Arr(items) => NormalSeqIsFixed(items);
    case Map(pairs) =>
      assert forall p :: p in pairs ==> CanonicalPair(p) && WellFormedPair(p);
      NormalPairsIsFixed(pairs);
      assert [] + pairs == pairs;
      PutAllSorted([], pairs);
    case _ =>
  }

  lemma {:induction false} NormalSeqIsFixed(ds: seq<Data>)
    requires forall x :: x in ds ==> InNormalForm(x)
    ensures NormSeq(ds) == ds
  {
    if ds != [] {
      assert ds[0] in ds;
      NormalIsFixed(ds[0]);
      NormalSeqIsFixed(ds[1..]);
      assert ds == [ds[0]] + ds[1..];
    }
  }

  lemma {:induction false} NormalPairIsFixed(p: Pair)
    requires PairInNormalForm(p)
    ensures NormPair(p) == p
  {
    NormalIsFixed(p.key);
    NormalIsFixed(p.value);
  }

  lemma {:induction false} NormalPairsIsFixed(ps: seq<Pair>)
    requires forall p :: p in ps ==> PairInNormalForm(p)
    ensures NormPairs(ps) == ps
  {
    if ps != [] {
      assert ps[0] in ps;
      NormalPairIsFixed(ps[0]);
      NormalPairsIsFixed(ps[1..]);
      assert ps == [ps[0]] + ps[1..];
    }
  }

  /** `Norm` is a projection, and its image is exactly the values in normal form. */
  lemma {:induction false} NormIsProjection(d: Data)
    ensures Norm(Norm(d)) == Norm(d)
    ensures Norm(d) == d <==> Canonical(d) && WellFormed(d)
  {
    NormIsNormal(d);
    NormalIsFixed(Norm(d));
    if InNormalForm(d) {
      NormalIsFixed(d);
    }
  }
}
