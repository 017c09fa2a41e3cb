/**
  SSZ lists: elements of one fixed size stand side by side, elements of varying size follow a
  table of offsets, which is the all-variable case of the container layout. Element codecs come
  in as a pair of functions with the law `Exact`.
 */
module SszLists {
  import opened Bytes
  import opened Ssz

  // ---------- element codecs ----------

  /** Reading `b` gives `x` exactly when `x` is well formed and writes `b`. */
  ghost predicate Exact<T(!new)>(wf: T -> bool, enc: T -> seq<byte>, dec: seq<byte> -> Option<T>) {
    forall b, x {:trigger dec(b), enc(x)} :: |b| < TWO32 ==> (dec(b) == Some(x) <==> wf(x) && enc(x) == b)
  }

  function EncAll<T>(enc: T -> seq<byte>, xs: seq<T>): seq<seq<byte>> {
    seq(|xs|, i requires 0 <= i < |xs| => enc(xs[i]))
  }

  function DecAll<T>(dec: seq<byte> -> Option<T>, cs: seq<seq<byte>>): Option<seq<T>> {
    if forall i :: 0 <= i < |cs| ==> dec(cs[i]).Some?
    then Some(seq(|cs|, i requires 0 <= i < |cs| && dec(cs[i]).Some? => dec(cs[i]).value))
    else None
  }

  predicate AllWf<T>(wf: T -> bool, xs: seq<T>) {
    forall i :: 0 <= i < |xs| ==> wf(xs[i])
  }

  lemma DecAllExact<T(!new)>(wf: T -> bool, enc: T -> seq<byte>, dec: seq<byte> -> Option<T>,
                             cs: seq<seq<byte>>, xs: seq<T>)
    requires Exact(wf, enc, dec)
    requires forall i :: 0 <= i < |cs| ==> |cs[i]| < TWO32
    ensures DecAll(dec, cs) == Some(xs) <==> AllWf(wf, xs) && EncAll(enc, xs) == cs
  {
    if DecAll(dec, cs) == Some(xs) {
      forall i | 0 <= i < |cs|
        ensures wf(xs[i]) && enc(xs[i]) == cs[i]
      {
        assert dec(cs[i]) == Some(xs[i]);
        var _ := enc(xs[i]);
      }
      assert EncAll(enc, xs) == cs;
    }
    if AllWf(wf, xs) && EncAll(enc, xs) == cs {
      forall i | 0 <= i < |cs|
        ensures dec(cs[i]) == Some(xs[i])
      {
        assert cs[i] == enc(xs[i]);
      }
      assert DecAll(dec, cs).value == xs;
    }
  }

  // ---------- elements of one fixed size ----------

  function Concat(cs: seq<seq<byte>>, k: nat): seq<byte>
    requires k <= |cs|
  {
    if k == 0 then [] else Concat(cs, k - 1) + cs[k - 1]
  }

  function Chunks(buf: seq<byte>, n: nat): Option<seq<seq<byte>>>
    requires n > 0
    decreases |buf|
  {
    if buf == [] then Some([])
    else if |buf| < n then None
    else
      match Chunks(buf[..|buf| - n], n)
      case None => None
      case Some(cs) => Some(cs + [buf[|buf| - n..]])
  }

  lemma {:induction false} ConcatOfPrefix(cs: seq<seq<byte>>, ds: seq<seq<byte>>, k: nat)
    requires k <= |cs| && k <= |ds| && cs[..k] == ds[..k]
    ensures Concat(cs, k) == Concat(ds, k)
  {
    if k > 0 {
      assert cs[..k - 1] == cs[..k][..k - 1] == ds[..k][..k - 1] == ds[..k - 1];
      assert cs[k - 1] == cs[..k][k - 1] == ds[..k][k - 1] == ds[k - 1];
      ConcatOfPrefix(cs, ds, k - 1);
    }
  }

  predicate AllOfSize(cs: seq<seq<byte>>, n: nat) {
    forall i :: 0 <= i < |cs| ==> |cs[i]| == n
  }

  lemma {:induction false} ConcatLen(cs: seq<seq<byte>>, n: nat, k: nat)
    requires k <= |cs| && AllOfSize(cs, n)
    ensures |Concat(cs, k)| == k * n
  {
    if k > 0 {
      ConcatLen(cs, n, k - 1);
      assert k * n == (k - 1) * n + n;
    }
  }

  lemma {:induction false} ChunksThenConcat(buf: seq<byte>, n: nat)
    requires n > 0 && Chunks(buf, n).Some?
    ensures var cs := Chunks(buf, n).value;
            AllOfSize(cs, n) && Concat(cs, |cs|) == buf
    decreases |buf|
  {
    if buf != [] {
      var init := buf[..|buf| - n];
      ChunksThenConcat(init, n);
      var cs, ds := Chunks(buf, n).value, Chunks(init, n).value;
      assert cs[..|ds|] == ds[..|ds|];
      ConcatOfPrefix(cs, ds, |ds|);
      assert buf == init + buf[|buf| - n..];
    }
  }

  lemma {:induction false} ConcatThenChunks(cs: seq<seq<byte>>, n: nat)
    requires n > 0 && AllOfSize(cs, n)
    ensures Chunks(Concat(cs, |cs|), n) == Some(cs)
  {
    if cs != [] {
      var init, last := cs[..|cs| - 1], cs[|cs| - 1];
      ConcatThenChunks(init, n);
      assert cs[..|init|] == init[..|init|];
      ConcatOfPrefix(cs, init, |init|);
      var buf := Concat(cs, |cs|);
      assert buf == Concat(init, |init|) + last;
      assert buf[..|buf| - n] == Concat(init, |init|);
      assert cs == init + [last];
    }
  }

  function EncList<T>(enc: T -> seq<byte>, xs: seq<T>): seq<byte> {
    Concat(EncAll(enc, xs), |xs|)
  }

  /** Refuses a partial element and a list longer than its limit. */
  function DecList<T>(dec: seq<byte> -> Option<T>, n: nat, max: nat, buf: seq<byte>): Option<seq<T>>
    requires n > 0
  {
    match Chunks(buf, n)
    case None => None
    case Some(cs) => if |cs| > max then None else DecAll(dec, cs)
  }

  lemma ListExact<T(!new)>(wf: T -> bool, enc: T -> seq<byte>, dec: seq<byte> -> Option<T>,
                           n: nat, max: nat, buf: seq<byte>, xs: seq<T>)
    requires 0 < n < TWO32 && Exact(wf, enc, dec) && forall x :: wf(x) ==> |enc(x)| == n
    ensures DecList(dec, n, max, buf) == Some(xs)
       <==> |xs| <= max && AllWf(wf, xs) && EncList(enc, xs) == buf
  {
    if DecList(dec, n, max, buf) == Some(xs) {
      ChunksThenConcat(buf, n);
      DecAllExact(wf, enc, dec, Chunks(buf, n).value, xs);
    }
    if |xs| <= max && AllWf(wf, xs) && EncList(enc, xs) == buf {
      ConcatThenChunks(EncAll(enc, xs), n);
      DecAllExact(wf, enc, dec, EncAll(enc, xs), xs);
    }
  }

  lemma EncListLen<T>(wf: T -> bool, enc: T -> seq<byte>, n: nat, xs: seq<T>)
    requires AllWf(wf, xs) && forall i :: 0 <= i < |xs| ==> |enc(xs[i])| == n
    ensures |EncList(enc, xs)| == |xs| * n
  {
    ConcatLen(EncAll(enc, xs), n, |xs|);
  }

  // ---------- elements of varying size ----------

  function Vars(cs: seq<seq<byte>>): seq<Part> {
    seq(|cs|, i requires 0 <= i < |cs| => Var(cs[i]))
  }

  function Variables(count: nat): seq<Kind> {
    seq(count, _ => Variable)
  }

  function BytesOf(parts: seq<Part>): seq<seq<byte>> {
    seq(|parts|, i requires 0 <= i < |parts| => parts[i].bytes)
  }

  /** The first offset tells how many elements there are. */
  function DynSplit(buf: seq<byte>, max: nat): Option<seq<seq<byte>>> {
    if buf == [] then Some([])
    else if |buf| < 4 then None
    else
      var first := Uint32(buf[..4]);
      if first == 0 || first % 4 != 0 || first / 4 > max then None
      else
        match Split(Variables(first / 4), buf)
        case None => None
        case Some(parts) => Some(BytesOf(parts))
  }

  lemma {:induction false} VarsFixedLen(cs: seq<seq<byte>>, k: nat)
    requires k <= |cs|
    ensures FixedLen(Vars(cs), k) == 4 * k
  {
    if k > 0 {
      VarsFixedLen(cs, k - 1);
    }
  }

  lemma {:induction false} VarsTailsLen(cs: seq<seq<byte>>, k: nat, i: nat)
    requires i < k <= |cs|
    ensures |cs[i]| <= |Tails(Vars(cs), k)|
  {
    if i < k - 1 {
      VarsTailsLen(cs, k - 1, i);
    }
  }

  lemma DynSplitThenAssemble(buf: seq<byte>, max: nat)
    requires |buf| < TWO32 && DynSplit(buf, max).Some?
    ensures |DynSplit(buf, max).value| <= max
    ensures Assemble(Vars(DynSplit(buf, max).value)) == buf
  {
    if buf != [] {
      var layout := Variables(Uint32(buf[..4]) / 4);
      var parts := Split(layout, buf).value;
      SplitThenAssemble(layout, buf);
      forall i | 0 <= i < |parts|
        ensures parts[i].Var?
      {
        assert KindOf(parts[i], layout[i]);
      }
      assert Vars(BytesOf(parts)) == parts;
    }
  }

  lemma FirstOffsetCounts(cs: seq<seq<byte>>)
    requires 0 < |cs| && |Assemble(Vars(cs))| < TWO32
    ensures |Assemble(Vars(cs))| >= 4 && Uint32(Assemble(Vars(cs))[..4]) == 4 * |cs|
  {
    hide FromLE, LE;
    VarsFixedLen(cs, |cs|);
    OffsetPointsAtTail(Vars(cs), 0);
    assert FixedLen(Vars(cs), 0) == 0 && Tails(Vars(cs), 0) == [];
  }

  lemma AssembleThenDynSplit(cs: seq<seq<byte>>, max: nat)
    requires |cs| <= max && |Assemble(Vars(cs))| < TWO32
    ensures DynSplit(Assemble(Vars(cs)), max) == Some(cs)
  {
    hide FromLE, LE, Split, Heads;
    if |cs| > 0 {
      FirstOffsetCounts(cs);
      AssembleThenSplit(Vars(cs), Variables(|cs|));
      assert BytesOf(Vars(cs)) == cs;
    } else {
      assert Vars(cs) == [];
    }
  }

  function EncDyn<T>(enc: T -> seq<byte>, xs: seq<T>): seq<byte> {
    Assemble(Vars(EncAll(enc, xs)))
  }

  /** The size of the first `k` elements with their offsets, as SizeSSZ adds it up. */
  function SizeDyn<T>(size: T -> nat, xs: seq<T>, k: nat): nat
    requires k <= |xs|
  {
    if k == 0 then 0 else SizeDyn(size, xs, k - 1) + 4 + size(xs[k - 1])
  }

  lemma {:induction false} SizeDynTails<T>(enc: T -> seq<byte>, size: T -> nat, xs: seq<T>, k: nat)
    requires k <= |xs| && forall i :: 0 <= i < |xs| ==> |enc(xs[i])| == size(xs[i])
    ensures 4 * k + |Tails(Vars(EncAll(enc, xs)), k)| == SizeDyn(size, xs, k)
  {
    if k > 0 {
      SizeDynTails(enc, size, xs, k - 1);
      assert Vars(EncAll(enc, xs))[k - 1] == Var(enc(xs[k - 1]));
    }
  }

  lemma EncDynLen<T>(enc: T -> seq<byte>, size: T -> nat, xs: seq<T>)
    requires forall i :: 0 <= i < |xs| ==> |enc(xs[i])| == size(xs[i])
    ensures |EncDyn(enc, xs)| == SizeDyn(size, xs, |xs|)
  {
    SizeDynTails(enc, size, xs, |xs|);
    VarsFixedLen(EncAll(enc, xs), |xs|);
  }

  function DecDyn<T>(dec: seq<byte> -> Option<T>, max: nat, buf: seq<byte>): Option<seq<T>> {
    match DynSplit(buf, max)
    case None => None
    case Some(cs) => DecAll(dec, cs)
  }

  lemma ShortElements(cs: seq<seq<byte>>)
    requires |Assemble(Vars(cs))| < TWO32
    ensures forall i :: 0 <= i < |cs| ==> |cs[i]| < TWO32
  {
    forall i | 0 <= i < |cs|
      ensures |cs[i]| < TWO32
    {
      VarsTailsLen(cs, |cs|, i);
    }
  }

  lemma DynExact<T(!new)>(wf: T -> bool, enc: T -> seq<byte>, dec: seq<byte> -> Option<T>,
                          max: nat, buf: seq<byte>, xs: seq<T>)
    requires |buf| < TWO32 && Exact(wf, enc, dec)
    ensures DecDyn(dec, max, buf) == Some(xs)
       <==> |xs| <= max && AllWf(wf, xs) && EncDyn(enc, xs) == buf
  {
    if DecDyn(dec, max, buf) == Some(xs) {
      DynSplitThenAssemble(buf, max);
      ShortElements(DynSplit(buf, max).value);
      DecAllExact(wf, enc, dec, DynSplit(buf, max).value, xs);
    }
    if |xs| <= max && AllWf(wf, xs) && EncDyn(enc, xs) == buf {
      AssembleThenDynSplit(EncAll(enc, xs), max);
      ShortElements(EncAll(enc, xs));
      DecAllExact(wf, enc, dec, EncAll(enc, xs), xs);
    }
  }
}
