/** The known-validator map: indexes sorted, cut into chunks, each index told its chunk and that chunk's size. */
module KnownValidators {
  import opened Bytes

  const CHUNK := 64

  /** An index's chunk and the size of that chunk. */
  type Place = (nat, nat)

  // ---------- sorting ----------

  predicate IsSorted(s: seq<u64>) { forall i, j :: 0 <= i < j < |s| ==> s[i] <= s[j] }

  function Insert(x: u64, s: seq<u64>): seq<u64> {
    if s == [] || x <= s[0] then [x] + s else [s[0]] + Insert(x, s[1..])
  }

  function Sorted(s: seq<u64>): seq<u64> {
    if s == [] then [] else Insert(s[0], Sorted(s[1..]))
  }

  lemma ConsSorted(x: u64, s: seq<u64>)
    requires IsSorted(s) && forall y :: y in s ==> x <= y
    ensures IsSorted([x] + s)
  {
    var r := [x] + s;
    forall i, j | 0 <= i < j < |r|
      ensures r[i] <= r[j]
    {
      assert r[j] == s[j - 1] && s[j - 1] in s;
      assert i > 0 ==> r[i] == s[i - 1];
    }
  }

  lemma FirstIsLeast(s: seq<u64>)
    requires IsSorted(s) && s != []
    ensures forall y :: y in s ==> s[0] <= y
    ensures IsSorted(s[1..])
  {
  }

  lemma Uncons(s: seq<u64>)
    requires s != []
    ensures multiset(s) == multiset(s[1..]) + multiset{s[0]} && s == [s[0]] + s[1..]
  {
    assert s == [s[0]] + s[1..];
  }

  lemma {:induction false} InsertKeeps(x: u64, s: seq<u64>)
    ensures multiset(Insert(x, s)) == multiset(s) + multiset{x}
    ensures forall y :: y in Insert(x, s) ==> y == x || y in s
  {
    if s != [] && x > s[0] {
      InsertKeeps(x, s[1..]);
      Uncons(s);
      Uncons([s[0]] + Insert(x, s[1..]));
      assert ([s[0]] + Insert(x, s[1..]))[1..] == Insert(x, s[1..]);
    }
  }

  lemma {:induction false} InsertSorts(x: u64, s: seq<u64>)
    requires IsSorted(s)
    ensures IsSorted(Insert(x, s))
  {
    hide IsSorted;
    if s == [] {
      ConsSorted(x, s);
    } else {
      FirstIsLeast(s);
      if x <= s[0] {
        ConsSorted(x, s);
      } else {
        InsertSorts(x, s[1..]);
        InsertKeeps(x, s[1..]);
        Uncons(s);
        forall y | y in Insert(x, s[1..])
          ensures s[0] <= y
        {
          assert y == x || y in s;
        }
        ConsSorted(s[0], Insert(x, s[1..]));
      }
    }
  }

  lemma {:induction false} SortedSorts(s: seq<u64>)
    ensures IsSorted(Sorted(s)) && multiset(Sorted(s)) == multiset(s) && |Sorted(s)| == |s|
  {
    hide IsSorted, Insert;
    if s == [] {
      assert IsSorted([]) by { EmptySorted(); }
    } else {
      SortedSorts(s[1..]);
      InsertSorts(s[0], Sorted(s[1..]));
      InsertKeeps(s[0], Sorted(s[1..]));
      Uncons(s);
    }
    assert |multiset(Sorted(s))| == |multiset(s)|;
  }

  lemma EmptySorted()
    ensures IsSorted([])
  {
  }

  lemma SameRest(a: multiset<u64>, b: multiset<u64>, x: u64)
    requires a + multiset{x} == b + multiset{x}
    ensures a == b
  {
    assert a == a + multiset{x} - multiset{x} && b == b + multiset{x} - multiset{x};
  }

  lemma SameHead(s: seq<u64>, t: seq<u64>)
    requires IsSorted(s) && IsSorted(t) && s != [] && t != [] && multiset(s) == multiset(t)
    ensures s[0] == t[0]
  {
    FirstIsLeast(s);
    FirstIsLeast(t);
    SameMembers(s, t, s[0]);
    SameMembers(s, t, t[0]);
  }

  lemma {:induction false} SortedUnique(s: seq<u64>, t: seq<u64>)
    requires IsSorted(s) && IsSorted(t) && multiset(s) == multiset(t)
    ensures s == t
  {
    hide IsSorted;
    assert |multiset(s)| == |s| && |multiset(t)| == |t|;
    if s != [] {
      SameHead(s, t);
      FirstIsLeast(s);
      FirstIsLeast(t);
      Uncons(s);
      Uncons(t);
      SameRest(multiset(s[1..]), multiset(t[1..]), s[0]);
      SortedUnique(s[1..], t[1..]);
    }
  }

  // ---------- chunks ----------

  function ChunkLen(n: nat, c: nat): nat {
    if (c + 1) * CHUNK <= n then CHUNK else if c * CHUNK <= n then n - c * CHUNK else 0
  }

  function Chunks(s: seq<u64>): seq<seq<u64>> {
    if s == [] then [] else if |s| <= CHUNK then [s] else [s[..CHUNK]] + Chunks(s[CHUNK..])
  }

  /** The c-th chunk is the c-th stretch of 64, the last one shorter. */
  lemma {:induction false} ChunkAt(s: seq<u64>, c: nat)
    requires c < |Chunks(s)|
    ensures c * CHUNK < |s| && c * CHUNK + ChunkLen(|s|, c) <= |s|
    ensures Chunks(s)[c] == s[c * CHUNK..c * CHUNK + ChunkLen(|s|, c)]
  {
    if |s| > CHUNK && c > 0 {
      ChunkAt(s[CHUNK..], c - 1);
    }
  }

  lemma {:induction false} ChunksCover(s: seq<u64>)
    ensures |s| <= |Chunks(s)| * CHUNK < |s| + CHUNK
  {
    if |s| > CHUNK {
      ChunksCover(s[CHUNK..]);
    }
  }

  /** An index of the sorted list lies in the stretch of exactly one chunk. */
  lemma InStretch(n: nat, c: nat, i: nat)
    requires i < n
    ensures i / CHUNK == c <==> c * CHUNK <= i < c * CHUNK + ChunkLen(n, c)
  {
  }

  // ---------- the map ----------

  function PlaceAt(n: nat, i: nat): Place { (i / CHUNK, ChunkLen(n, i / CHUNK)) }

  /** The map after the first `k` indexes of the sorted list are written. */
  function Assigned(s: seq<u64>, k: nat): map<u64, Place>
    requires k <= |s|
  {
    if k == 0 then map[] else Assigned(s, k - 1)[s[k - 1] := PlaceAt(|s|, k - 1)]
  }

  lemma AssignedNone(s: seq<u64>)
    ensures Assigned(s, 0) == map[]
  {
  }

  function Places(validators: seq<u64>): map<u64, Place> {
    var s := Sorted(validators);
    Assigned(s, |s|)
  }

  /** How many entries are at most `v`. */
  function AtMost(s: seq<u64>, v: u64): nat {
    if s == [] then 0 else (if s[0] <= v then 1 else 0) + AtMost(s[1..], v)
  }

  lemma {:induction false} AtMostInsert(x: u64, s: seq<u64>, v: u64)
    ensures AtMost(Insert(x, s), v) == (if x <= v then 1 else 0) + AtMost(s, v)
  {
    if s != [] && x > s[0] {
      AtMostInsert(x, s[1..], v);
      assert Insert(x, s)[1..] == Insert(x, s[1..]);
    } else {
      assert Insert(x, s)[1..] == s;
    }
  }

  lemma {:induction false} AtMostSorted(s: seq<u64>, v: u64)
    ensures AtMost(Sorted(s), v) == AtMost(s, v)
  {
    if s != [] {
      AtMostSorted(s[1..], v);
      AtMostInsert(s[0], Sorted(s[1..]), v);
    }
  }

  /** In a sorted list the entries at most `v` come first. */
  lemma {:induction false} AtMostSplits(s: seq<u64>, v: u64)
    requires IsSorted(s)
    ensures AtMost(s, v) <= |s|
    ensures forall i :: 0 <= i < |s| ==> (s[i] <= v <==> i < AtMost(s, v))
  {
    if s != [] {
      AtMostSplits(s[1..], v);
      assert |s| > 1 ==> s[1..][0] == s[1];
      forall i | 0 < i < |s|
        ensures s[i] <= v <==> i < AtMost(s, v)
      {
        assert s[1..][i - 1] == s[i];
      }
    }
  }

  lemma {:induction false} AssignedAt(s: seq<u64>, k: nat, i: nat)
    requires i < k <= |s| && forall j :: i < j < k ==> s[j] != s[i]
    ensures s[i] in Assigned(s, k) && Assigned(s, k)[s[i]] == PlaceAt(|s|, i)
  {
    if i < k - 1 {
      AssignedAt(s, k - 1, i);
    }
  }

  lemma {:induction false} AssignedKeys(s: seq<u64>, k: nat)
    requires k <= |s|
    ensures forall v :: v in Assigned(s, k) <==> v in s[..k]
  {
    if k > 0 {
      AssignedKeys(s, k - 1);
      assert s[..k] == s[..k - 1] + [s[k - 1]];
    }
  }

  /**
   * Every index is known, nothing else is, and an index stands in the chunk its rank falls into, with that chunk's
   * true size.
   */
  lemma PlaceByRank(validators: seq<u64>, v: u64)
    ensures v in Places(validators) <==> v in validators
    ensures v in validators ==>
            AtMost(validators, v) > 0 && Places(validators)[v] == PlaceAt(|validators|, AtMost(validators, v) - 1)
  {
    hide Sorted, Assigned, AtMost, IsSorted, PlaceAt;
    var s := Sorted(validators);
    SortedSorts(validators);
    AssignedKeys(s, |s|);
    assert s[..|s|] == s;
    SameMembers(validators, s, v);
    if v in validators {
      AtMostSorted(validators, v);
      LastOf(s, v);
      AssignedAt(s, |s|, AtMost(s, v) - 1);
    }
  }

  lemma SameMembers(a: seq<u64>, b: seq<u64>, v: u64)
    requires multiset(a) == multiset(b)
    ensures v in a <==> v in b
  {
    assert v in a <==> v in multiset(a);
    assert v in b <==> v in multiset(b);
  }

  /** The last of the entries equal to `v`. */
  lemma LastOf(s: seq<u64>, v: u64)
    requires IsSorted(s) && v in s
    ensures 0 < AtMost(s, v) <= |s| && s[AtMost(s, v) - 1] == v
    ensures forall j :: AtMost(s, v) - 1 < j < |s| ==> s[j] != v
  {
    hide AtMost;
    AtMostSplits(s, v);
    var i :| 0 <= i < |s| && s[i] == v;
    var last := AtMost(s, v) - 1;
    assert s[last] <= v && s[i] <= s[last];
  }

  /** The order in which the indexes come does not matter. */
  lemma OrderDoesNotMatter(a: seq<u64>, b: seq<u64>)
    requires multiset(a) == multiset(b)
    ensures Places(a) == Places(b)
  {
    SortedSorts(a);
    SortedSorts(b);
    SortedUnique(Sorted(a), Sorted(b));
  }

  // ---------- distinct indexes ----------

  predicate Distinct(s: seq<u64>) { forall i, j :: 0 <= i < j < |s| ==> s[i] != s[j] }

  function Below(s: seq<u64>, v: u64): nat {
    if s == [] then 0 else (if s[0] < v then 1 else 0) + Below(s[1..], v)
  }

  lemma {:induction false} AtMostIsBelow(s: seq<u64>, v: u64)
    requires Distinct(s)
    ensures AtMost(s, v) == Below(s, v) + if v in s then 1 else 0
  {
    if s != [] {
      AtMostIsBelow(s[1..], v);
      assert s == [s[0]] + s[1..];
    }
  }

  /** Distinct indexes: the chunk is rank / 64, the rank counting the smaller indexes. */
  lemma RankOfDistinct(validators: seq<u64>, v: u64)
    requires Distinct(validators) && v in validators
    ensures v in Places(validators) && Places(validators)[v] == PlaceAt(|validators|, Below(validators, v))
  {
    PlaceByRank(validators, v);
    AtMostIsBelow(validators, v);
  }

  lemma {:induction false} BelowCounts(s: seq<u64>, v: u64)
    requires Distinct(s)
    ensures Below(s, v) == |set u | u in s && u < v|
  {
    var all := set u | u in s && u < v;
    if s == [] {
      assert all == {};
    } else {
      BelowCounts(s[1..], v);
      var rest := set u | u in s[1..] && u < v;
      assert s == [s[0]] + s[1..];
      assert all == if s[0] < v then rest + {s[0]} else rest;
      assert s[0] !in s[1..] by { assert forall j :: 0 < j < |s| ==> s[1..][j - 1] == s[j]; }
    }
  }

  /**
   * Distinct indexes in numbers: an index with `r` smaller ones stands in chunk r / 64, whose size is 64, or what is
   * left for the last chunk.
   */
  lemma PlaceInNumbers(validators: seq<u64>, v: u64)
    requires Distinct(validators) && v in validators
    ensures var r, n := |set u | u in validators && u < v|, |validators|;
            && v in Places(validators)
            && Places(validators)[v] == (r / 64, if n - r / 64 * 64 >= 64 then 64 else n - r / 64 * 64)
  {
    hide Places;
    RankOfDistinct(validators, v);
    BelowCounts(validators, v);
    assert Below(validators, v) < |validators| by { BelowLess(validators, v); }
  }

  lemma {:induction false} BelowLess(s: seq<u64>, v: u64)
    ensures Below(s, v) <= |s| && (v in s ==> Below(s, v) < |s|)
  {
    if s != [] {
      BelowLess(s[1..], v);
      assert s == [s[0]] + s[1..];
    }
  }

  lemma {:induction false} StretchSize(s: seq<u64>, lo: nat, hi: nat)
    requires Distinct(s) && lo <= hi <= |s|
    ensures |set i | lo <= i < hi :: s[i]| == hi - lo
    decreases hi
  {
    var all := set i | lo <= i < hi :: s[i];
    if lo < hi {
      var less := set i | lo <= i < hi - 1 :: s[i];
      StretchSize(s, lo, hi - 1);
      assert all == less + {s[hi - 1]};
      assert s[hi - 1] !in less;
    } else {
      assert all == {};
    }
  }

  lemma DistinctSorted(validators: seq<u64>)
    requires Distinct(validators)
    ensures Distinct(Sorted(validators))
  {
    var s := Sorted(validators);
    SortedSorts(validators);
    forall i, j | 0 <= i < j < |s|
      ensures s[i] != s[j]
    {
      if s[i] == s[j] {
        Twice(s, i, j);
        Once(validators, s[i]);
      }
    }
  }

  lemma Twice(s: seq<u64>, i: nat, j: nat)
    requires i < j < |s| && s[i] == s[j]
    ensures multiset(s)[s[i]] >= 2
  {
    assert s == s[..j] + [s[j]] + s[j + 1..];
    assert s[i] in s[..j];
  }

  lemma {:induction false} Once(s: seq<u64>, v: u64)
    requires Distinct(s)
    ensures multiset(s)[v] <= 1
  {
    if s != [] {
      Once(s[1..], v);
      assert s == [s[0]] + s[1..];
      if s[0] == v {
        assert v !in s[1..];
      }
    }
  }

  /** Distinct indexes are partitioned: the members of a chunk number exactly the size each of them is told. */
  lemma ChunkHasItsSize(validators: seq<u64>, c: nat)
    requires Distinct(validators)
    ensures |set v | v in Places(validators) && Places(validators)[v].0 == c| == ChunkLen(|validators|, c)
  {
    hide Assigned, Sorted, ChunkLen;
    var s, m := Sorted(validators), Places(validators);
    SortedSorts(validators);
    DistinctSorted(validators);
    AssignedKeys(s, |s|);
    assert s[..|s|] == s;
    forall i | 0 <= i < |s|
      ensures s[i] in m && m[s[i]] == PlaceAt(|s|, i)
    {
      AssignedAt(s, |s|, i);
    }
    ChunkIsStretch(s, m, c);
  }

  lemma ChunkIsStretch(s: seq<u64>, m: map<u64, Place>, c: nat)
    requires Distinct(s) && (forall v :: v in m <==> v in s) && forall i :: 0 <= i < |s| ==> m[s[i]] == PlaceAt(|s|, i)
    ensures |set v | v in m && m[v].0 == c| == ChunkLen(|s|, c)
  {
    hide ChunkLen;
    var lo, hi := c * CHUNK, c * CHUNK + ChunkLen(|s|, c);
    var chunk := set v | v in m && m[v].0 == c;
    forall i | 0 <= i < |s|
      ensures s[i] in chunk <==> lo <= i < hi
    {
      InStretch(|s|, c, i);
    }
    StretchFits(|s|, c);
    if lo <= |s| {
      StretchSize(s, lo, hi);
      var stretch := set i | lo <= i < hi :: s[i];
      assert chunk == stretch;
    } else {
      assert chunk == {};
    }
  }

  lemma StretchFits(n: nat, c: nat)
    ensures c * CHUNK <= n ==> c * CHUNK + ChunkLen(n, c) <= n
    ensures c * CHUNK > n ==> ChunkLen(n, c) == 0
  {
  }

  // ---------- the service ----------

  class Router {
    var knownValidators: map<u64, Place>

    constructor ()
      ensures knownValidators == map[]
    {
      knownValidators := map[];
    }

    /** Sorts the given indexes in place and swaps in their map. */
    method SetKnownValidators(validators: array<u64>)
      modifies this, validators
      ensures validators[..] == Sorted(old(validators[..]))
      ensures IsSorted(validators[..]) && multiset(validators[..]) == multiset(old(validators[..]))
      ensures knownValidators == Places(old(validators[..]))
    {
      hide Sorted, Chunks, Assigned, IsSorted;
      SortedSorts(validators[..]);
      SortInPlace(validators);
      var s := validators[..];
      var chunks := Chunks(s);
      ChunksCover(s);
      var replacement: map<u64, Place> := map[];
      assert Assigned(s, 0) == map[] by { AssignedNone(s); }
      var k: nat := 0;
      for c := 0 to |chunks|
        invariant k <= |s| && replacement == Assigned(s, k)
        invariant k == if c * CHUNK <= |s| then c * CHUNK else |s|
        invariant validators[..] == s
      {
        ChunkAt(s, c);
        replacement := AssignChunk(s, c, chunks[c], replacement);
        k := k + |chunks[c]|;
      }
      knownValidators := replacement;
    }

    static method AssignChunk(s: seq<u64>, c: nat, ids: seq<u64>, before: map<u64, Place>) returns (m: map<u64, Place>)
      requires c * CHUNK <= |s| && |ids| == ChunkLen(|s|, c) && ids == s[c * CHUNK..c * CHUNK + |ids|]
      requires before == Assigned(s, c * CHUNK)
      ensures m == Assigned(s, c * CHUNK + |ids|)
    {
      m := before;
      for j := 0 to |ids|
        invariant m == Assigned(s, c * CHUNK + j)
      {
        assert ids[j] == s[c * CHUNK + j];
        InStretch(|s|, c, c * CHUNK + j);
        m := m[ids[j] := (c, |ids|)];
      }
    }

    method SortInPlace(a: array<u64>)
      modifies a
      ensures a[..] == Sorted(old(a[..]))
    {
      var s := Sorted(a[..]);
      SortedSorts(a[..]);
      for i := 0 to a.Length
        invariant a[..i] == s[..i]
      {
        a[i] := s[i];
      }
    }
  }
}
