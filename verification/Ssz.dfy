/**
  The "heads and tails" layout of SSZ containers and lists, as laid down in the sections
  "Serialization" and "Deserialization" of the Ethereum consensus-specs document
  ssz/simple-serialize.md. A container is a sequence of parts. A fixed-size part is written in
  place; a variable-size part leaves a 4-byte offset in place and its bytes follow the fixed part.
  Every function works on the first `k` parts, so that code that writes or reads one field at a
  time can be followed step by step.
 */
module Ssz {
  import opened Bytes

  datatype Part = Fixed(bytes: seq<byte>) | Var(bytes: seq<byte>)

  datatype Kind = FixedOf(n: nat) | Variable

  // ---------- writing ----------

  function HeadLen(p: Part): nat {
    if p.Fixed? then |p.bytes| else 4
  }

  function FixedLen(parts: seq<Part>, k: nat): nat
    requires k <= |parts|
  {
    if k == 0 then 0 else FixedLen(parts, k - 1) + HeadLen(parts[k - 1])
  }

  function FixedSize(parts: seq<Part>): nat {
    FixedLen(parts, |parts|)
  }

  function Tails(parts: seq<Part>, k: nat): seq<byte>
    requires k <= |parts|
  {
    if k == 0 then []
    else Tails(parts, k - 1) + if parts[k - 1].Var? then parts[k - 1].bytes else []
  }

  /** A head: the bytes themselves, or the offset, cut to 32 bits as the writer does. */
  function Head(p: Part, offset: nat): (s: seq<byte>)
    ensures |s| == HeadLen(p)
  {
    if p.Fixed? then p.bytes else LE(offset, 4)
  }

  function Heads(parts: seq<Part>, k: nat, base: nat): (s: seq<byte>)
    requires k <= |parts|
    ensures |s| == FixedLen(parts, k)
  {
    if k == 0 then []
    else Heads(parts, k - 1, base) + Head(parts[k - 1], base + |Tails(parts, k - 1)|)
  }

  function Assemble(parts: seq<Part>): (s: seq<byte>)
    ensures |s| == FixedSize(parts) + |Tails(parts, |parts|)|
  {
    Heads(parts, |parts|, FixedSize(parts)) + Tails(parts, |parts|)
  }

  // ---------- reading ----------

  function Width(kind: Kind): nat {
    if kind.FixedOf? then kind.n else 4
  }

  function LayoutLen(layout: seq<Kind>, k: nat): nat
    requires k <= |layout|
  {
    if k == 0 then 0 else LayoutLen(layout, k - 1) + Width(layout[k - 1])
  }

  predicate KindOf(p: Part, kind: Kind) {
    if kind.FixedOf? then p.Fixed? && |p.bytes| == kind.n else p.Var?
  }

  predicate Matches(parts: seq<Part>, layout: seq<Kind>) {
    |parts| == |layout| && forall i :: 0 <= i < |parts| ==> KindOf(parts[i], layout[i])
  }

  datatype HeadVal = Raw(bytes: seq<byte>) | Off(o: nat)

  function LastOff(hs: seq<HeadVal>): Option<nat> {
    if hs == [] then None
    else
      var h := hs[|hs| - 1];
      if h.Off? then Some(h.o) else LastOff(hs[..|hs| - 1])
  }

  /** The first offset must be the fixed size, later ones must not go back, none may pass the end. */
  predicate Accept(prev: Option<nat>, o: nat, fixedSize: nat, size: nat) {
    && o <= size
    && match prev {
         case None => o == fixedSize
         case Some(p) => p <= o
       }
  }

  predicate Ordered(hs: seq<HeadVal>, size: nat) {
    && (forall i :: 0 <= i < |hs| && hs[i].Off? ==> hs[i].o <= size)
    && (forall i, j :: 0 <= i < j < |hs| && hs[i].Off? && hs[j].Off? ==> hs[i].o <= hs[j].o)
  }

  predicate KindOfHead(h: HeadVal, kind: Kind) {
    if kind.FixedOf? then h.Raw? && |h.bytes| == kind.n else h.Off?
  }

  lemma {:induction false} LayoutLenMonotone(layout: seq<Kind>, i: nat, k: nat)
    requires i <= k <= |layout|
    ensures LayoutLen(layout, i) <= LayoutLen(layout, k)
  {
    if i < k {
      LayoutLenMonotone(layout, i, k - 1);
    }
  }

  lemma {:induction false} LastOffIsLargest(hs: seq<HeadVal>, size: nat)
    requires Ordered(hs, size)
    ensures forall i :: 0 <= i < |hs| && hs[i].Off? ==> LastOff(hs).Some? && hs[i].o <= LastOff(hs).value
  {
    if hs != [] && hs[|hs| - 1].Raw? {
      var init := hs[..|hs| - 1];
      LastOffIsLargest(init, size);
      forall i | 0 <= i < |hs| && hs[i].Off?
        ensures LastOff(hs).Some? && hs[i].o <= LastOff(hs).value
      {
        assert init[i] == hs[i];
      }
    }
  }

  /** What a reader finds at field `k` of `buf`, given the heads read before it. */
  function ReadHead(layout: seq<Kind>, k: nat, buf: seq<byte>, prev: Option<nat>): (r: Option<HeadVal>)
    requires k < |layout| && LayoutLen(layout, |layout|) <= |buf|
    ensures r.Some? ==> KindOfHead(r.value, layout[k])
    ensures r.Some? && r.value.Off? ==> Accept(prev, r.value.o, LayoutLen(layout, |layout|), |buf|)
  {
    LayoutLenMonotone(layout, k + 1, |layout|);
    var pos := LayoutLen(layout, k);
    if layout[k].FixedOf? then Some(Raw(buf[pos..pos + layout[k].n]))
    else
      var o := Uint32(buf[pos..pos + 4]);
      if Accept(prev, o, LayoutLen(layout, |layout|), |buf|) then Some(Off(o)) else None
  }

  function ReadHeads(layout: seq<Kind>, k: nat, buf: seq<byte>): (r: Option<seq<HeadVal>>)
    requires k <= |layout| && LayoutLen(layout, |layout|) <= |buf|
    ensures r.Some? ==>
              && |r.value| == k
              && Ordered(r.value, |buf|)
              && forall i :: 0 <= i < k ==> KindOfHead(r.value[i], layout[i])
  {
    if k == 0 then Some([])
    else
      match ReadHeads(layout, k - 1, buf)
      case None => None
      case Some(hs) =>
        match ReadHead(layout, k - 1, buf, LastOff(hs))
        case None => None
        case Some(h) =>
          LastOffIsLargest(hs, |buf|);
          Some(hs + [h])
  }

  /** The first offset at or after index `i`, or `size` when there is none. */
  function NextOff(hs: seq<HeadVal>, i: nat, size: nat): nat
    requires i <= |hs|
    decreases |hs| - i
  {
    if i == |hs| then size
    else if hs[i].Off? then hs[i].o
    else NextOff(hs, i + 1, size)
  }

  lemma {:induction false} NextOffBounds(hs: seq<HeadVal>, i: nat, size: nat)
    requires i <= |hs| && Ordered(hs, size)
    ensures NextOff(hs, i, size) <= size
    ensures forall j :: 0 <= j < i && hs[j].Off? ==> hs[j].o <= NextOff(hs, i, size)
    decreases |hs| - i
  {
    if i < |hs| && hs[i].Raw? {
      NextOffBounds(hs, i + 1, size);
    }
  }

  function Slice(hs: seq<HeadVal>, i: nat, buf: seq<byte>): Part
    requires i < |hs| && Ordered(hs, |buf|)
  {
    NextOffBounds(hs, i + 1, |buf|);
    if hs[i].Raw? then Fixed(hs[i].bytes)
    else Var(buf[hs[i].o..NextOff(hs, i + 1, |buf|)])
  }

  function Slices(hs: seq<HeadVal>, buf: seq<byte>): (parts: seq<Part>)
    requires Ordered(hs, |buf|)
    ensures |parts| == |hs|
  {
    seq(|hs|, i requires 0 <= i < |hs| => Slice(hs, i, buf))
  }

  /** Cuts a buffer into the parts of a layout, or refuses it. */
  function Split(layout: seq<Kind>, buf: seq<byte>): Option<seq<Part>> {
    var f := LayoutLen(layout, |layout|);
    if |buf| < f then None
    else
      match ReadHeads(layout, |layout|, buf)
      case None => None
      case Some(hs) => if NextOff(hs, 0, |buf|) == f then Some(Slices(hs, buf)) else None
  }

  // ---------- reading gives back what writing needs: Split, then Assemble ----------

  lemma {:induction false} FixedLenIsLayoutLen(parts: seq<Part>, layout: seq<Kind>, k: nat)
    requires Matches(parts, layout) && k <= |parts|
    ensures FixedLen(parts, k) == LayoutLen(layout, k)
  {
    if k > 0 {
      FixedLenIsLayoutLen(parts, layout, k - 1);
      assert KindOf(parts[k - 1], layout[k - 1]);
    }
  }

  lemma {:induction false} ReadHeadsPrefix(layout: seq<Kind>, k: nat, n: nat, buf: seq<byte>)
    requires k <= n <= |layout| && LayoutLen(layout, |layout|) <= |buf|
    ensures ReadHeads(layout, n, buf).Some? ==>
              && ReadHeads(layout, k, buf).Some?
              && ReadHeads(layout, n, buf).value[..k] == ReadHeads(layout, k, buf).value
  {
    if k < n {
      ReadHeadsPrefix(layout, k, n - 1, buf);
    }
  }

  lemma {:induction false} SliceTails(hs: seq<HeadVal>, buf: seq<byte>, f: nat, k: nat)
    requires Ordered(hs, |buf|) && k <= |hs| && NextOff(hs, 0, |buf|) == f
    ensures f <= NextOff(hs, k, |buf|) <= |buf|
    ensures Tails(Slices(hs, buf), k) == buf[f..NextOff(hs, k, |buf|)]
  {
    NextOffBounds(hs, k, |buf|);
    if k > 0 {
      SliceTails(hs, buf, f, k - 1);
      assert Slices(hs, buf)[k - 1] == Slice(hs, k - 1, buf);
    }
  }

  lemma ReadHeadIs(layout: seq<Kind>, hs: seq<HeadVal>, buf: seq<byte>, i: nat)
    requires LayoutLen(layout, |layout|) <= |buf| && i < |layout|
    requires ReadHeads(layout, |layout|, buf) == Some(hs)
    ensures ReadHead(layout, i, buf, LastOff(hs[..i])) == Some(hs[i])
  {
    ReadHeadsPrefix(layout, i + 1, |layout|, buf);
    assert hs[..i + 1][i] == hs[i] && hs[..i + 1][..i] == hs[..i];
  }

  lemma SliceStart(hs: seq<HeadVal>, buf: seq<byte>, i: nat)
    requires Ordered(hs, |buf|) && i < |hs| && hs[i].Off?
    ensures hs[i].o == NextOff(hs, 0, |buf|) + |Tails(Slices(hs, buf), i)|
  {
    SliceTails(hs, buf, NextOff(hs, 0, |buf|), i);
  }

  /** The head of part `i`, rebuilt from what was read, is what stands in the buffer. */
  lemma SliceHead(layout: seq<Kind>, hs: seq<HeadVal>, buf: seq<byte>, i: nat)
    requires LayoutLen(layout, |layout|) <= |buf| < TWO32
    requires ReadHeads(layout, |layout|, buf) == Some(hs)
    requires NextOff(hs, 0, |buf|) == LayoutLen(layout, |layout|)
    requires i < |layout|
    ensures LayoutLen(layout, i) <= LayoutLen(layout, i + 1) <= |buf|
    ensures Head(Slices(hs, buf)[i], LayoutLen(layout, |layout|) + |Tails(Slices(hs, buf), i)|)
         == buf[LayoutLen(layout, i)..LayoutLen(layout, i + 1)]
  {
    hide FromLE, LE, ReadHeads, LastOff;
    LayoutLenMonotone(layout, i + 1, |layout|);
    ReadHeadIs(layout, hs, buf, i);
    var pos := LayoutLen(layout, i);
    if layout[i].Variable? {
      SliceStart(hs, buf, i);
      Uint32Exact(hs[i].o, buf[pos..pos + 4]);
    }
  }

  lemma {:induction false} SliceHeads(layout: seq<Kind>, hs: seq<HeadVal>, buf: seq<byte>, k: nat)
    requires LayoutLen(layout, |layout|) <= |buf| < TWO32
    requires ReadHeads(layout, |layout|, buf) == Some(hs)
    requires NextOff(hs, 0, |buf|) == LayoutLen(layout, |layout|)
    requires k <= |layout|
    ensures LayoutLen(layout, k) <= |buf|
    ensures Heads(Slices(hs, buf), k, LayoutLen(layout, |layout|)) == buf[..LayoutLen(layout, k)]
  {
    hide FromLE, LE, ReadHeads, Slice, Tails, NextOff, Head, Ordered;
    LayoutLenMonotone(layout, k, |layout|);
    if k > 0 {
      SliceHeads(layout, hs, buf, k - 1);
      SliceHead(layout, hs, buf, k - 1);
      var i, j := LayoutLen(layout, k - 1), LayoutLen(layout, k);
      assert buf[..j] == buf[..i] + buf[i..j];
    }
  }

  lemma SlicesMatch(layout: seq<Kind>, hs: seq<HeadVal>, buf: seq<byte>)
    requires |hs| == |layout| && Ordered(hs, |buf|)
    requires forall i :: 0 <= i < |hs| ==> KindOfHead(hs[i], layout[i])
    ensures Matches(Slices(hs, buf), layout)
  {
    forall i | 0 <= i < |hs|
      ensures KindOf(Slices(hs, buf)[i], layout[i])
    {
      assert KindOfHead(hs[i], layout[i]);
    }
  }

  lemma SplitThenAssemble(layout: seq<Kind>, buf: seq<byte>)
    requires |buf| < TWO32 && Split(layout, buf).Some?
    ensures Matches(Split(layout, buf).value, layout)
    ensures Assemble(Split(layout, buf).value) == buf
  {
    hide ReadHeads, Heads, Tails, NextOff, Slices, Ordered, LayoutLen, FixedLen;
    var n := |layout|;
    var hs := ReadHeads(layout, n, buf).value;
    SlicesMatch(layout, hs, buf);
    FixedLenIsLayoutLen(Slices(hs, buf), layout, n);
    SliceHeads(layout, hs, buf, n);
    SliceTails(hs, buf, LayoutLen(layout, n), n);
    assert NextOff(hs, n, |buf|) == |buf| by { NextOffAtEnd(hs, |buf|); }
    var f := LayoutLen(layout, n);
    assert buf == buf[..f] + buf[f..|buf|];
  }

  lemma NextOffAtEnd(hs: seq<HeadVal>, size: nat)
    ensures NextOff(hs, |hs|, size) == size
  {
  }

  // ---------- every assembled buffer is read back: Assemble, then Split ----------

  lemma {:induction false} TailsGrow(parts: seq<Part>, i: nat, k: nat)
    requires i <= k <= |parts|
    ensures |Tails(parts, i)| <= |Tails(parts, k)|
    ensures Tails(parts, k)[..|Tails(parts, i)|] == Tails(parts, i)
  {
    if i < k {
      TailsGrow(parts, i, k - 1);
    }
  }

  lemma {:induction false} HeadsGrow(parts: seq<Part>, i: nat, k: nat, base: nat)
    requires i <= k <= |parts|
    ensures FixedLen(parts, i) <= FixedLen(parts, k)
    ensures Heads(parts, k, base)[..FixedLen(parts, i)] == Heads(parts, i, base)
  {
    if i < k {
      HeadsGrow(parts, i, k - 1, base);
    }
  }

  /** Part `i` of an assembled buffer: its head sits at its place in the fixed part. */
  lemma HeadAt(parts: seq<Part>, i: nat)
    requires i < |parts|
    ensures FixedLen(parts, i + 1) <= FixedSize(parts) <= |Assemble(parts)|
    ensures Assemble(parts)[FixedLen(parts, i)..FixedLen(parts, i + 1)]
         == Head(parts[i], FixedSize(parts) + |Tails(parts, i)|)
  {
    HeadsGrow(parts, i + 1, |parts|, FixedSize(parts));
    var heads := Heads(parts, |parts|, FixedSize(parts));
    assert Assemble(parts)[..FixedLen(parts, i + 1)] == heads[..FixedLen(parts, i + 1)];
  }

  lemma TailsAppend(parts: seq<Part>, i: nat)
    requires i < |parts| && parts[i].Var?
    ensures Tails(parts, i + 1) == Tails(parts, i) + parts[i].bytes
  {
  }

  lemma Nested(heads: seq<byte>, all: seq<byte>, before: seq<byte>, body: seq<byte>)
    requires |before + body| <= |all| && all[..|before + body|] == before + body
    ensures var start := |heads| + |before|; (heads + all)[start..start + |body|] == body
  {
    var n := |before| + |body|;
    assert (heads + all)[|heads|..|heads| + n] == all[..n];
    assert all[..n][|before|..] == body;
    assert (heads + all)[|heads| + |before|..|heads| + n] == all[|before|..n] == all[..n][|before|..];
  }

  /** The bytes of a variable part stand behind the fixed part, after all earlier bodies. */
  lemma TailAt(parts: seq<Part>, i: nat)
    requires i < |parts| && parts[i].Var?
    ensures var start := FixedSize(parts) + |Tails(parts, i)|;
            && start + |parts[i].bytes| <= |Assemble(parts)|
            && Assemble(parts)[start..start + |parts[i].bytes|] == parts[i].bytes
  {
    hide LE, FixedLen, Heads, Tails;
    TailsGrow(parts, i + 1, |parts|);
    TailsAppend(parts, i);
    Nested(Heads(parts, |parts|, FixedSize(parts)), Tails(parts, |parts|), Tails(parts, i), parts[i].bytes);
  }

  /**
    Every offset written is the position where that part's bytes begin, as long as that
    position fits the 32 bits an offset has.
   */
  lemma OffsetPointsAtTail(parts: seq<Part>, i: nat)
    requires i < |parts| && parts[i].Var?
    ensures var start := FixedSize(parts) + |Tails(parts, i)|;
            && FixedLen(parts, i) + 4 <= |Assemble(parts)|
            && start + |parts[i].bytes| <= |Assemble(parts)|
            && Assemble(parts)[start..start + |parts[i].bytes|] == parts[i].bytes
            && (Uint32(Assemble(parts)[FixedLen(parts, i)..FixedLen(parts, i) + 4]) == start <==> start < TWO32)
  {
    hide LE, FromLE, Heads, Tails, Assemble;
    HeadAt(parts, i);
    TailAt(parts, i);
    assert FixedLen(parts, i + 1) == FixedLen(parts, i) + 4;
    Uint32Exact(FixedSize(parts) + |Tails(parts, i)|, Assemble(parts)[FixedLen(parts, i)..FixedLen(parts, i) + 4]);
  }

  function HeadVals(parts: seq<Part>, k: nat, base: nat): (hs: seq<HeadVal>)
    requires k <= |parts|
    ensures |hs| == k
    ensures forall i :: 0 <= i < k ==>
                          hs[i] == if parts[i].Fixed? then Raw(parts[i].bytes) else Off(base + |Tails(parts, i)|)
  {
    if k == 0 then []
    else HeadVals(parts, k - 1, base)
         + [if parts[k - 1].Fixed? then Raw(parts[k - 1].bytes) else Off(base + |Tails(parts, k - 1)|)]
  }

  lemma {:induction false} LastOffOfHeadVals(parts: seq<Part>, k: nat, base: nat)
    requires k <= |parts|
    ensures match LastOff(HeadVals(parts, k, base)) {
              case None => Tails(parts, k) == []
              case Some(o) => base <= o <= base + |Tails(parts, k)|
            }
  {
    if k > 0 {
      LastOffOfHeadVals(parts, k - 1, base);
      assert HeadVals(parts, k, base)[..k - 1] == HeadVals(parts, k - 1, base);
    }
  }

  lemma ReadAssembledOffset(parts: seq<Part>, layout: seq<Kind>, i: nat)
    requires Matches(parts, layout) && i < |parts| && parts[i].Var? && |Assemble(parts)| < TWO32
    requires LayoutLen(layout, |layout|) == FixedSize(parts)
    ensures ReadHead(layout, i, Assemble(parts), LastOff(HeadVals(parts, i, FixedSize(parts))))
         == Some(Off(FixedSize(parts) + |Tails(parts, i)|))
  {
    hide FromLE, LE, ReadHeads, LastOff, Assemble, Heads, HeadVals, Tails;
    assert KindOf(parts[i], layout[i]);
    FixedLenIsLayoutLen(parts, layout, i);
    LastOffOfHeadVals(parts, i, FixedSize(parts));
    OffsetPointsAtTail(parts, i);
  }

  lemma ReadAssembledHead(parts: seq<Part>, layout: seq<Kind>, i: nat)
    requires Matches(parts, layout) && i < |parts| && |Assemble(parts)| < TWO32
    requires LayoutLen(layout, |layout|) == FixedSize(parts)
    ensures ReadHead(layout, i, Assemble(parts), LastOff(HeadVals(parts, i, FixedSize(parts))))
         == Some(HeadVals(parts, i + 1, FixedSize(parts))[i])
  {
    hide FromLE, LE, ReadHeads, LastOff, Assemble, Heads, HeadVals, Tails;
    assert KindOf(parts[i], layout[i]);
    if parts[i].Var? {
      ReadAssembledOffset(parts, layout, i);
    } else {
      FixedLenIsLayoutLen(parts, layout, i);
      HeadAt(parts, i);
    }
  }

  lemma ReadHeadsOneMore(layout: seq<Kind>, k: nat, buf: seq<byte>, hs: seq<HeadVal>, h: HeadVal)
    requires k < |layout| && LayoutLen(layout, |layout|) <= |buf|
    requires ReadHeads(layout, k, buf) == Some(hs) && ReadHead(layout, k, buf, LastOff(hs)) == Some(h)
    ensures ReadHeads(layout, k + 1, buf) == Some(hs + [h])
  {
    hide ReadHead, LastOff, LayoutLen;
  }

  lemma HeadValsOneMore(parts: seq<Part>, k: nat, base: nat)
    requires k < |parts|
    ensures HeadVals(parts, k + 1, base) == HeadVals(parts, k, base) + [HeadVals(parts, k + 1, base)[k]]
  {
    hide Tails;
  }

  lemma ReadNoHeads(parts: seq<Part>, layout: seq<Kind>)
    requires Matches(parts, layout) && LayoutLen(layout, |layout|) <= |Assemble(parts)|
    ensures ReadHeads(layout, 0, Assemble(parts)) == Some([]) && HeadVals(parts, 0, FixedSize(parts)) == []
  {
    hide Assemble, LayoutLen, FixedLen;
  }

  lemma {:induction false} ReadAssembled(parts: seq<Part>, layout: seq<Kind>, k: nat)
    requires Matches(parts, layout) && k <= |parts| && |Assemble(parts)| < TWO32
    ensures LayoutLen(layout, |layout|) == FixedSize(parts)
    ensures ReadHeads(layout, k, Assemble(parts)) == Some(HeadVals(parts, k, FixedSize(parts)))
  {
    hide Assemble, ReadHeads, ReadHead, LastOff, HeadVals, LayoutLen, FixedLen, Tails, Heads;
    FixedLenIsLayoutLen(parts, layout, |parts|);
    if k == 0 {
      ReadNoHeads(parts, layout);
    } else {
      ReadAssembled(parts, layout, k - 1);
      ReadAssembledHead(parts, layout, k - 1);
      HeadValsOneMore(parts, k - 1, FixedSize(parts));
      ReadHeadsOneMore(layout, k - 1, Assemble(parts), HeadVals(parts, k - 1, FixedSize(parts)),
          HeadVals(parts, k, FixedSize(parts))[k - 1]);
    }
  }

  lemma {:induction false} NextOffOfHeadVals(parts: seq<Part>, i: nat)
    requires i <= |parts|
    ensures var hs := HeadVals(parts, |parts|, FixedSize(parts));
            NextOff(hs, i, |Assemble(parts)|) == FixedSize(parts) + |Tails(parts, i)|
    decreases |parts| - i
  {
    if i < |parts| && parts[i].Fixed? {
      NextOffOfHeadVals(parts, i + 1);
    }
  }

  lemma TailsNext(parts: seq<Part>, i: nat)
    requires i < |parts|
    ensures |Tails(parts, i + 1)| == |Tails(parts, i)| + if parts[i].Var? then |parts[i].bytes| else 0
  {
  }

  lemma SliceOfAssembled(parts: seq<Part>, i: nat)
    requires i < |parts| && |Assemble(parts)| < TWO32
    requires Ordered(HeadVals(parts, |parts|, FixedSize(parts)), |Assemble(parts)|)
    ensures Slice(HeadVals(parts, |parts|, FixedSize(parts)), i, Assemble(parts)) == parts[i]
  {
    hide Assemble, FromLE, LE, Heads, FixedLen, NextOff, Ordered, Tails, HeadVals;
    NextOffOfHeadVals(parts, i + 1);
    TailsNext(parts, i);
    if parts[i].Var? {
      OffsetPointsAtTail(parts, i);
    }
  }

  lemma AssembleThenSplit(parts: seq<Part>, layout: seq<Kind>)
    requires Matches(parts, layout) && |Assemble(parts)| < TWO32
    ensures Split(layout, Assemble(parts)) == Some(parts)
  {
    hide Assemble, Heads, Tails, ReadHeads, NextOff, LE, FromLE, Slice, FixedLen, LayoutLen, Ordered, HeadVals;
    var buf, n := Assemble(parts), |parts|;
    ReadAssembled(parts, layout, n);
    var hs := HeadVals(parts, n, FixedSize(parts));
    NextOffOfHeadVals(parts, 0);
    assert Tails(parts, 0) == [] by { TailsOfNone(parts); }
    forall i | 0 <= i < n
      ensures Slices(hs, buf)[i] == parts[i]
    {
      SliceOfAssembled(parts, i);
    }
    assert Slices(hs, buf) == parts;
  }

  lemma TailsOfNone(parts: seq<Part>)
    ensures Tails(parts, 0) == []
  {
  }

  /**
    The container lemma: below 2^32 bytes, a buffer splits into given parts exactly when those
    parts fit the layout and assemble to that buffer. So no field is lost or moved, and no
    buffer other than the canonical one is accepted.
   */
  lemma SplitExact(layout: seq<Kind>, buf: seq<byte>, parts: seq<Part>)
    requires |buf| < TWO32
    ensures Split(layout, buf) == Some(parts) <==> Matches(parts, layout) && Assemble(parts) == buf
  {
    if Split(layout, buf).Some? {
      SplitThenAssemble(layout, buf);
    }
    if Matches(parts, layout) && Assemble(parts) == buf {
      AssembleThenSplit(parts, layout);
    }
  }
}
