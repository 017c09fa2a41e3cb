/** Request/response chunks: a length prefix as an unsigned varint, then a framed snappy stream read through a limit. */
module ReqResp {
  import opened Bytes
  import opened Gossip
  import WireForm

  // ---------- varints ----------

  function Uvarint(x: nat): seq<byte> {
    if x < 128 then [x] else [x % 128 + 128] + Uvarint(x / 128)
  }

  /** The value and the number of bytes read, with `i` bytes already read; None at the end of input or past 64 bits. */
  function ReadFrom(bs: seq<byte>, i: nat): Option<(nat, nat)>
    decreases 10 - i
  {
    if i >= 10 || bs == [] then None
    else if bs[0] < 128 then if i == 9 && bs[0] > 1 then None else Some((bs[0] as nat, 1))
    else match ReadFrom(bs[1..], i + 1)
      case None => None
      case Some((v, n)) => Some((bs[0] - 128 + 128 * v, n + 1))
  }

  function Pow128(i: nat): (p: nat)
    ensures p > 0
  {
    if i == 0 then 1 else 128 * Pow128(i - 1)
  }

  lemma {:induction false} Pow128Big(i: nat)
    requires i >= 9
    ensures Pow128(i) >= 0x8000_0000_0000_0000
  {
    if i == 9 {
      assert Pow128(5) == 0x8_0000_0000 && Pow128(9) == 128 * 128 * 128 * 128 * Pow128(5);
    } else {
      Pow128Big(i - 1);
    }
  }

  lemma MulMono(a: nat, b: nat, c: nat)
    requires b <= c
    ensures a * b <= a * c
  {
  }

  lemma ShiftFits(x: nat, i: nat)
    requires x >= 128 && x * Pow128(i) < TWO64
    ensures i < 9 && (x / 128) * Pow128(i + 1) < TWO64
  {
    var p := Pow128(i);
    MulMono(p, 128, x);
    if i >= 9 {
      Pow128Big(i);
    }
    assert (x / 128) * Pow128(i + 1) == (x / 128 * 128) * p;
    MulMono(p, x / 128 * 128, x);
  }

  lemma SmallFits(x: nat, i: nat)
    requires x < 128 && x * Pow128(i) < TWO64 && i < 10
    ensures i == 9 ==> x <= 1
  {
    if i == 9 {
      Pow128Big(9);
    }
  }

  /** Reading a written length gives it back and consumes exactly its bytes, whatever follows. */
  lemma {:induction false} UvarintReadsBack(x: nat, i: nat, rest: seq<byte>)
    requires x * Pow128(i) < TWO64 && i < 10
    ensures ReadFrom(Uvarint(x) + rest, i) == Some((x, |Uvarint(x)|))
    decreases x
  {
    hide Pow128;
    if x < 128 {
      SmallFits(x, i);
    } else {
      ShiftFits(x, i);
      UvarintReadsBack(x / 128, i + 1, rest);
      assert (Uvarint(x) + rest)[1..] == Uvarint(x / 128) + rest;
    }
  }

  /** The bytes of a varint: seven bits each, the lowest first, and a high bit on all but the last. */
  lemma {:induction false} UvarintBytes(x: nat, i: nat)
    requires i < |Uvarint(x)|
    ensures Uvarint(x)[i] == x / Pow128(i) % 128 + if i + 1 < |Uvarint(x)| then 128 else 0
    ensures x / Pow128(i) >= 128 <==> i + 1 < |Uvarint(x)|
    decreases x
  {
    if i > 0 {
      UvarintBytes(x / 128, i - 1);
      DivDiv128(x, Pow128(i - 1));
    }
  }

  lemma {:induction false} DivDiv128(n: nat, p: nat)
    requires p > 0
    ensures n / 128 / p == n / (128 * p)
  {
    var q, r := n / 128 / p, n / 128 % p;
    assert n == q * (128 * p) + (r * 128 + n % 128);
    WireForm.DivUnique(n, 128 * p, q, r * 128 + n % 128);
  }

  // ---------- chunks ----------

  /** The snappy stream format: `readFull` takes what is available and a length. */
  datatype Framing = Framing(frame: seq<byte> -> seq<byte>, readFull: (seq<byte>, nat) -> Option<seq<byte>>)

  /** Stream identifier, and a header for every 64 KiB. */
  function FrameBound(n: nat): nat { 10 + n + 8 * ((n + 65535) / 65536) }

  /** A frame is bounded, and reads back from any input it begins. */
  ghost predicate LawfulFraming(f: Framing) {
    forall b, rest :: |f.frame(b)| <= FrameBound(|b|) && f.readFull(f.frame(b) + rest, |b|) == Some(b)
  }

  function Limited(input: seq<byte>, limit: nat): seq<byte> {
    if |input| <= limit then input else input[..limit]
  }

  function EncodeChunk(f: Framing, b: seq<byte>): Option<seq<byte>> {
    if |b| > MAX_GOSSIP then None else Some(Uvarint(|b|) + f.frame(b))
  }

  function DecodeChunk<T>(f: Framing, unmarshal: seq<byte> -> Option<T>, input: seq<byte>): Option<T> {
    match ReadFrom(input, 0)
    case None => None
    case Some((n, k)) =>
      if n > MAX_GOSSIP || k > |input| then None
      else match f.readFull(Limited(input[k..], MaxCompressedLen(n)), n)
        case None => None
        case Some(buf) => unmarshal(buf)
  }

  lemma {:induction false} ReadWithin(bs: seq<byte>, i: nat)
    ensures ReadFrom(bs, i).Some? ==> 1 <= ReadFrom(bs, i).value.1 <= |bs|
    decreases 10 - i
  {
    if i < 10 && bs != [] && bs[0] >= 128 {
      ReadWithin(bs[1..], i + 1);
    }
  }

  /** The read limit never cuts a frame, whatever the message length. */
  lemma LimitNeverCuts(n: nat)
    ensures FrameBound(n) <= MaxCompressedLen(n)
  {
    var q := (n + 65535) / 65536;
    assert q <= n / 65536 + 1;
    assert n / 6 >= 8 * (n / 65536);
  }

  lemma LimitedPrefix(a: seq<byte>, rest: seq<byte>, limit: nat)
    requires |a| <= limit
    ensures exists r :: Limited(a + rest, limit) == a + r
  {
    if |a + rest| <= limit {
      assert Limited(a + rest, limit) == a + rest;
    } else {
      assert Limited(a + rest, limit) == a + rest[..limit - |a|];
    }
  }

  /** A written chunk decodes to its message, whatever follows it in the stream. */
  lemma ChunkRoundTrip<T>(f: Framing, unmarshal: seq<byte> -> Option<T>, b: seq<byte>, rest: seq<byte>)
    requires LawfulFraming(f)
    ensures EncodeChunk(f, b) == if |b| <= 10_485_760 then Some(Uvarint(|b|) + f.frame(b)) else None
    ensures |b| <= 10_485_760 ==> DecodeChunk(f, unmarshal, EncodeChunk(f, b).value + rest) == unmarshal(b)
  {
    hide Limited, FrameBound, MaxCompressedLen, ReadFrom, Uvarint;
    if |b| <= MAX_GOSSIP {
      var head, n := Uvarint(|b|), |b|;
      var input := head + f.frame(b) + rest;
      assert input == head + (f.frame(b) + rest);
      assert Pow128(0) == 1;
      UvarintReadsBack(n, 0, f.frame(b) + rest);
      assert input[|head|..] == f.frame(b) + rest;
      assert |f.frame(b)| <= FrameBound(n) && f.readFull(f.frame(b) + rest, n) == Some(b);
      LimitNeverCuts(n);
      LimitedPrefix(f.frame(b), rest, MaxCompressedLen(n));
      var r :| Limited(f.frame(b) + rest, MaxCompressedLen(n)) == f.frame(b) + r;
      assert f.readFull(f.frame(b) + r, n) == Some(b);
    }
  }

  /** The bytes that count of what follows a prefix: 32, the length, and a sixth of it. */
  function Window(n: nat, body: seq<byte>): seq<byte> {
    if |body| <= 32 + n + n / 6 then body else body[..32 + n + n / 6]
  }

  /** In numbers: a length above 10 MiB is refused, else that much is read from the window behind the prefix. */
  lemma ChunkByNumbers<T>(f: Framing, unmarshal: seq<byte> -> Option<T>, n: nat, body: seq<byte>)
    requires n < TWO64
    ensures DecodeChunk(f, unmarshal, Uvarint(n) + body)
         == if n > 10_485_760 then None
            else match f.readFull(Window(n, body), n) { case None => None case Some(buf) => unmarshal(buf) }
  {
    hide ReadFrom, Uvarint;
    assert Pow128(0) == 1;
    UvarintReadsBack(n, 0, body);
    assert (Uvarint(n) + body)[|Uvarint(n)|..] == body;
  }

  /** A prefix is readable if and only if one of the first ten bytes ends it, the tenth with at most one bit. */
  lemma {:induction false} PrefixReadable(bs: seq<byte>, i: nat)
    requires i <= 10
    ensures ReadFrom(bs, i).Some? <==> exists k :: EndsAt(bs, i, k)
    ensures forall k :: EndsAt(bs, i, k) ==> ReadFrom(bs, i).Some? && ReadFrom(bs, i).value.1 == k + 1
    decreases 10 - i
  {
    if i < 10 && bs != [] {
      if bs[0] < 128 {
        assert i < 9 || bs[0] <= 1 ==> EndsAt(bs, i, 0);
      } else {
        PrefixReadable(bs[1..], i + 1);
        forall k
          ensures EndsAt(bs, i, k) <==> EndsAt(bs[1..], i + 1, k - 1)
        {
          if EndsAt(bs, i, k) {
            assert forall j :: 0 <= j < k - 1 ==> bs[1..][j] == bs[j + 1];
          }
          if EndsAt(bs[1..], i + 1, k - 1) {
            assert forall j :: 0 < j < k ==> bs[j] == bs[1..][j - 1];
          }
        }
        if ReadFrom(bs[1..], i + 1).Some? {
          var k :| EndsAt(bs[1..], i + 1, k);
          assert EndsAt(bs[1..], i + 1, k + 1 - 1);
          assert EndsAt(bs, i, k + 1);
        }
      }
    }
  }

  /** With `i` bytes read before, the prefix ends at byte `k`. */
  predicate EndsAt(bs: seq<byte>, i: nat, k: int) {
    && 0 <= k < |bs| && i + k < 10 && bs[k] < 128 && (i + k == 9 ==> bs[k] <= 1)
    && forall j :: 0 <= j < k ==> bs[j] >= 128
  }

  // ---------- the codec ----------

  class Stream {
    var data: seq<byte>
    var pos: nat

    ghost predicate Valid()
      reads this
    {
      pos <= |data|
    }

    function Rest(): seq<byte>
      requires pos <= |data|
      reads this
    {
      data[pos..]
    }

    constructor (data: seq<byte>)
      ensures Valid() && Rest() == data
    {
      this.data, pos := data, 0;
    }

    /** One byte per call, so nothing past it is consumed. */
    method ReadByte() returns (b: Option<byte>)
      requires Valid()
      modifies `pos
      ensures Valid()
      ensures b.None? ==> old(Rest()) == [] && Rest() == []
      ensures b.Some? ==> old(Rest()) == [b.value] + Rest()
    {
      if pos == |data| {
        return None;
      }
      b := Some(data[pos]);
      pos := pos + 1;
    }

    /** Consumes exactly the prefix it reads. */
    method ReadUvarint() returns (r: Option<nat>)
      requires Valid()
      modifies `pos
      ensures Valid()
      ensures r.Some? <==> ReadFrom(old(Rest()), 0).Some?
      ensures r.Some? ==> var (v, n) := ReadFrom(old(Rest()), 0).value;
              r.value == v && n <= |old(Rest())| && Rest() == old(Rest())[n..]
    {
      hide ReadFrom, Pow128, Pending, Plus;
      var x: nat, weight: nat := 0, 1;
      ghost var all := Rest();
      PendingAtStart(all);
      for i := 0 to 10
        invariant Valid() && i <= |all| && Rest() == all[i..]
        invariant weight == Pow128(i) && Pending(all, i, x)
      {
        var b := ReadByte();
        if b.None? {
          PendingEnds(all, i, x);
          return None;
        }
        assert b.value == all[i..][0] && Rest() == all[i..][1..];
        if b.value < 128 {
          PendingLast(all, i, x);
          if i == 9 && b.value > 1 {
            return None;
          }
          return Some(Plus(x, b.value, weight));
        }
        PendingMore(all, i, x);
        x := Plus(x, b.value - 128, weight);
        weight := weight * 128;
      }
      PendingEnds(all, 10, x);
      return None;
    }
  }

  /** `i` bytes, all with more to come, have given `x`. */
  ghost predicate Pending(all: seq<byte>, i: nat, x: nat) {
    i <= |all| && ReadFrom(all, 0) == Shifted(x, Pow128(i), i, ReadFrom(all[i..], i))
  }

  lemma PendingAtStart(all: seq<byte>)
    ensures Pending(all, 0, 0) && Pow128(0) == 1 && all[0..] == all
  {
    hide ReadFrom;
    assert all[0..] == all;
  }

  lemma PendingEnds(all: seq<byte>, i: nat, x: nat)
    requires Pending(all, i, x) && (i == |all| || i >= 10)
    ensures ReadFrom(all, 0).None?
  {
  }

  lemma PendingLast(all: seq<byte>, i: nat, x: nat)
    requires i < |all| && i < 10 && Pending(all, i, x) && all[i] < 128
    ensures ReadFrom(all, 0) == if i == 9 && all[i] > 1 then None else Some((Plus(x, all[i], Pow128(i)), i + 1))
  {
    hide Pow128, Plus;
  }

  lemma PendingMore(all: seq<byte>, i: nat, x: nat)
    requires i < |all| && i < 10 && Pending(all, i, x) && all[i] >= 128
    ensures Pow128(i + 1) == Pow128(i) * 128 && Pending(all, i + 1, Plus(x, all[i] - 128, Pow128(i)))
  {
    hide Pow128, Plus, Shifted;
    PowStep(i);
    assert all[i..][1..] == all[i + 1..];
    ShiftedStep(x, Pow128(i), i, all[i] - 128, ReadFrom(all[i + 1..], i + 1));
  }

  lemma PowStep(i: nat)
    ensures Pow128(i + 1) == Pow128(i) * 128
  {
  }

  function Plus(x: nat, digit: nat, weight: nat): nat { x + digit * weight }

  /** What the whole read gives when `i` bytes gave `x` and the rest gives `r`. */
  function Shifted(x: nat, weight: nat, i: nat, r: Option<(nat, nat)>): Option<(nat, nat)> {
    match r
    case None => None
    case Some((v, n)) => Some((Plus(x, v, weight), i + n))
  }

  lemma ShiftedStep(x: nat, weight: nat, i: nat, d: nat, r: Option<(nat, nat)>)
    ensures Shifted(x, weight, i, match r { case None => None case Some((v, n)) => Some((d + 128 * v, n + 1)) })
         == Shifted(Plus(x, d, weight), weight * 128, i + 1, r)
  {
    if r.Some? {
      var v := r.value.0;
      assert (d + 128 * v) * weight == d * weight + v * (weight * 128);
    }
  }

  class Sink {
    var written: seq<byte>

    constructor ()
      ensures written == []
    {
      written := [];
    }

    method Write(b: seq<byte>)
      modifies this
      ensures written == old(written) + b
    {
      written := written + b;
    }
  }

  /** Writes the prefix, then the frame; a message that is too long writes nothing. */
  method EncodeWithMaxLength(f: Framing, w: Sink, b: seq<byte>) returns (ok: bool)
    modifies w
    ensures ok == EncodeChunk(f, b).Some?
    ensures w.written == old(w.written) + if ok then EncodeChunk(f, b).value else []
  {
    if |b| > MAX_GOSSIP {
      return false;
    }
    w.Write(Uvarint(|b|));
    w.Write(f.frame(b));
    return true;
  }

  /**
   * Refuses a bad prefix and a length above 10 MiB; else reads that many bytes from what follows, of which no more than
   * the longest compressed form is looked at.
   */
  method DecodeWithMaxLength<T>(f: Framing, r: Stream, unmarshal: seq<byte> -> Option<T>) returns (msg: Option<T>)
    requires r.Valid()
    modifies r
    ensures msg == DecodeChunk(f, unmarshal, old(r.Rest()))
    ensures ReadFrom(old(r.Rest()), 0).Some? && ReadFrom(old(r.Rest()), 0).value.0 > 10_485_760 ==> msg.None?
  {
    hide ReadFrom;
    ReadWithin(r.Rest(), 0);
    var n := r.ReadUvarint();
    if n.None? {
      return None;
    }
    if n.value > MAX_GOSSIP {
      return None;
    }
    var buf := f.readFull(Limited(r.Rest(), MaxCompressedLen(n.value)), n.value);
    if buf.None? {
      return None;
    }
    return unmarshal(buf.value);
  }
}
