/** Facts shared by the codecs of all SSZ containers. */
module Containers {
  import opened Bytes
  import opened Ssz
  import opened SszLists

  type Bytes20 = s: seq<byte> | |s| == 20 witness seq(20, _ => 0)
  type Bytes32 = s: seq<byte> | |s| == 32 witness seq(32, _ => 0)
  type Bytes48 = s: seq<byte> | |s| == 48 witness seq(48, _ => 0)
  type Bytes96 = s: seq<byte> | |s| == 96 witness seq(96, _ => 0)
  type Bytes256 = s: seq<byte> | |s| == 256 witness seq(256, _ => 0)

  predicate Short(parts: seq<Part>) {
    forall i :: 0 <= i < |parts| ==> |parts[i].bytes| < TWO32
  }

  lemma {:induction false} PartFits(parts: seq<Part>, i: nat, k: nat)
    requires i < k <= |parts|
    ensures |parts[i].bytes| <= FixedLen(parts, k) + |Tails(parts, k)|
  {
    if i < k - 1 {
      PartFits(parts, i, k - 1);
    }
  }

  lemma PartsAreShort(parts: seq<Part>)
    requires |Assemble(parts)| < TWO32
    ensures Short(parts)
  {
    forall i | 0 <= i < |parts|
      ensures |parts[i].bytes| < TWO32
    {
      PartFits(parts, i, |parts|);
    }
  }

  lemma {:induction false} NoTails(parts: seq<Part>, k: nat)
    requires k <= |parts| && forall i :: 0 <= i < k ==> parts[i].Fixed?
    ensures Tails(parts, k) == []
  {
    if k > 0 {
      NoTails(parts, k - 1);
    }
  }

  lemma FixedContainerLen(parts: seq<Part>, layout: seq<Kind>)
    requires Matches(parts, layout) && forall i :: 0 <= i < |layout| ==> layout[i].FixedOf?
    ensures |Assemble(parts)| == LayoutLen(layout, |layout|)
  {
    FixedLenIsLayoutLen(parts, layout, |layout|);
    forall i | 0 <= i < |parts|
      ensures parts[i].Fixed?
    {
      assert KindOf(parts[i], layout[i]);
    }
    NoTails(parts, |parts|);
  }

  /** A uint64 field read from its eight bytes. */
  lemma WordPart(n: u64, p: Part)
    requires p.Fixed? && |p.bytes| == 8
    ensures Fixed(LE(n, 8)) == p <==> n == Uint64(p.bytes)
  {
    Uint64Exact(n, p.bytes);
  }

  /** A field that is a container itself. */
  lemma Field<T(!new)>(wf: T -> bool, enc: T -> seq<byte>, dec: seq<byte> -> Option<T>, b: seq<byte>, x: T)
    requires Exact(wf, enc, dec) && |b| < TWO32
    ensures dec(b) == Some(x) <==> wf(x) && enc(x) == b
  {
    var _ := dec(b);
    var _ := enc(x);
  }

  /** Cuts a buffer into parts and builds a container from them. */
  function Cut<T>(layout: seq<Kind>, of: seq<Part> -> Option<T>, b: seq<byte>): Option<T> {
    match Split(layout, b)
    case None => None
    case Some(ps) => of(ps)
  }

  /**
    A container codec is exact as soon as its fields are: cutting and assembling add nothing
    and lose nothing.
   */
  lemma ContainerExact<T(!new)>(wf: T -> bool, parts: T -> seq<Part>, layout: seq<Kind>,
                                of: seq<Part> -> Option<T>,
                                enc: T -> seq<byte>, dec: seq<byte> -> Option<T>)
    requires forall x :: enc(x) == Assemble(parts(x))
    requires forall b :: dec(b) == Cut(layout, of, b)
    requires forall x :: wf(x) ==> Matches(parts(x), layout)
    requires forall ps, x {:trigger of(ps), parts(x)} ::
               Matches(ps, layout) && Short(ps) ==> (of(ps) == Some(x) <==> wf(x) && parts(x) == ps)
    ensures Exact(wf, enc, dec)
  {
    hide Split, Assemble;
    forall b: seq<byte>, x: T | |b| < TWO32
      ensures dec(b) == Some(x) <==> wf(x) && enc(x) == b
    {
      var _ := dec(b);
      var mine := parts(x);
      SplitExact(layout, b, mine);
      match Split(layout, b) {
        case Some(ps) =>
          SplitExact(layout, b, ps);
          PartsAreShort(ps);
          var _ := of(ps);
        case None =>
      }
      if wf(x) && enc(x) == b {
        PartsAreShort(mine);
        var _ := of(mine);
      }
    }
  }
}
