/** Sums of multisets over the keys of a map, and buckets of values by key. */
module Multisets {

  ghost function SumOver<K(!new), T>(f: K -> multiset<T>, keys: set<K>): multiset<T> {
    if keys == {} then multiset{} else var k :| k in keys; f(k) + SumOver(f, keys - {k})
  }

  lemma {:induction false} Peel<K(!new), T>(f: K -> multiset<T>, keys: set<K>, k: K)
    requires k in keys
    ensures SumOver(f, keys) == f(k) + SumOver(f, keys - {k})
    decreases |keys|
  {
    var c :| c in keys && SumOver(f, keys) == f(c) + SumOver(f, keys - {c});
    if c != k {
      Peel(f, keys - {c}, k);
      Peel(f, keys - {k}, c);
      assert keys - {c} - {k} == keys - {k} - {c};
    }
  }

  lemma {:induction false} Agree<K(!new), T>(f: K -> multiset<T>, g: K -> multiset<T>, keys: set<K>)
    requires forall k :: k in keys ==> f(k) == g(k)
    ensures SumOver(f, keys) == SumOver(g, keys)
    decreases |keys|
  {
    if keys != {} {
      var k :| k in keys;
      Peel(f, keys, k);
      Peel(g, keys, k);
      Agree(f, g, keys - {k});
    }
  }

  /** Changing the summand of one key, old or new, changes the sum by the difference. */
  lemma Change<K(!new), T>(f: K -> multiset<T>, g: K -> multiset<T>, keys: set<K>, k: K, more: multiset<T>)
    requires forall x :: x in keys && x != k ==> f(x) == g(x)
    requires k in keys ==> g(k) == f(k) + more
    requires k !in keys ==> g(k) == more
    ensures SumOver(g, keys + {k}) == SumOver(f, keys) + more
  {
    var rest := keys - {k};
    Agree(f, g, rest);
    Peel(g, keys + {k}, k);
    assert keys + {k} - {k} == rest;
    if k in keys {
      Peel(f, keys, k);
    } else {
      assert rest == keys;
    }
  }

  lemma {:induction false} SomeSummand<K(!new), T>(f: K -> multiset<T>, keys: set<K>, x: T) returns (k: K)
    requires x in SumOver(f, keys)
    ensures k in keys && x in f(k)
    decreases |keys|
  {
    k :| k in keys && SumOver(f, keys) == f(k) + SumOver(f, keys - {k});
    if x !in f(k) {
      k := SomeSummand(f, keys - {k}, x);
    }
  }

  // ---------- buckets ----------

  type Buckets<K, V> = map<K, seq<V>>

  /** Appends to the bucket of `k`, which may be new. */
  function Extend<K, V>(m: Buckets<K, V>, k: K, vs: seq<V>): Buckets<K, V> {
    m[k := (if k in m then m[k] else []) + vs]
  }

  function Tag<K, V>(k: K, vs: seq<V>): (r: seq<(K, V)>)
    ensures |r| == |vs| && forall i :: 0 <= i < |vs| ==> r[i] == (k, vs[i])
  {
    seq(|vs|, i requires 0 <= i < |vs| => (k, vs[i]))
  }

  ghost function PairsAt<K(!new), V(!new)>(m: Buckets<K, V>): K -> multiset<(K, V)> {
    k => if k in m then multiset(Tag(k, m[k])) else multiset{}
  }

  /** Everything in the buckets, with its key. */
  ghost function Pairs<K(!new), V(!new)>(m: Buckets<K, V>): multiset<(K, V)> {
    SumOver(PairsAt(m), m.Keys)
  }

  lemma ExtendAt<K(!new), V(!new)>(m: Buckets<K, V>, k: K, vs: seq<V>)
    ensures PairsAt(Extend(m, k, vs))(k) == (if k in m then PairsAt(m)(k) else multiset{}) + multiset(Tag(k, vs))
  {
    var was := if k in m then m[k] else [];
    assert Tag(k, was + vs) == Tag(k, was) + Tag(k, vs);
  }

  lemma ExtendElsewhere<K(!new), V(!new)>(m: Buckets<K, V>, k: K, vs: seq<V>, x: K)
    requires x in m && x != k
    ensures PairsAt(Extend(m, k, vs))(x) == PairsAt(m)(x)
  {
  }

  lemma PairsOfExtend<K(!new), V(!new)>(m: Buckets<K, V>, k: K, vs: seq<V>)
    ensures Pairs(Extend(m, k, vs)) == Pairs(m) + multiset(Tag(k, vs))
  {
    hide PairsAt, SumOver, Tag;
    var n := Extend(m, k, vs);
    ExtendAt(m, k, vs);
    forall x | x in m.Keys && x != k
      ensures PairsAt(m)(x) == PairsAt(n)(x)
    {
      ExtendElsewhere(m, k, vs, x);
    }
    Change(PairsAt(m), PairsAt(n), m.Keys, k, multiset(Tag(k, vs)));
    assert n.Keys == m.Keys + {k};
  }
}
