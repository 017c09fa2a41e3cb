/**
  The generated UnmarshalSSZTail code of the variable-size containers, statement by statement:
  `buf` advances over the fixed part while an offset marker checks every offset, then the
  variable fields are cut out of `tail` between successive offsets. Each method is proved to
  return exactly what `Dec` of its container returns.
 */
module CapellaUnmarshal {
  import opened Bytes
  import opened Ssz
  import opened SszLists
  import opened Containers
  import opened FixedContainers
  import opened Capella
  import opened CapellaLaws

  /** `buf` is `tail` after its first `k` heads, which were read as `hs`. */
  ghost predicate Reading(layout: seq<Kind>, k: nat, tail: seq<byte>, buf: seq<byte>, hs: seq<HeadVal>) {
    && k <= |layout| && LayoutLen(layout, k) <= LayoutLen(layout, |layout|) <= |tail|
    && ReadHeads(layout, k, tail) == Some(hs)
    && buf == tail[LayoutLen(layout, k)..]
  }

  /** Reads a fixed-size field. */
  method TakeFixed(buf: seq<byte>, n: nat, hs: seq<HeadVal>, ghost layout: seq<Kind>, ghost k: nat,
      ghost tail: seq<byte>)
    returns (rest: seq<byte>, hs': seq<HeadVal>)
    requires Reading(layout, k, tail, buf, hs) && k < |layout| && layout[k] == FixedOf(n)
    ensures LastOff(hs') == LastOff(hs) && Reading(layout, k + 1, tail, rest, hs')
  {
    LayoutLenMonotone(layout, k + 1, |layout|);
    var b := buf[..n];
    rest := buf[n..];
    hs' := hs + [Raw(b)];
    ghost var pos := LayoutLen(layout, k);
    assert b == tail[pos..pos + n] && rest == tail[pos + n..];
    assert hs'[..|hs'| - 1] == hs;
  }

  lemma OffsetAccepted(layout: seq<Kind>, k: nat, tail: seq<byte>, hs: seq<HeadVal>, o: nat)
    requires k < |layout| && layout[k] == Variable && LayoutLen(layout, |layout|) <= |tail|
    requires ReadHeads(layout, k, tail) == Some(hs)
    requires LayoutLen(layout, k) + 4 <= |tail| && Uint32(tail[LayoutLen(layout, k)..LayoutLen(layout, k) + 4]) == o
    requires Accept(LastOff(hs), o, LayoutLen(layout, |layout|), |tail|)
    ensures ReadHeads(layout, k + 1, tail) == Some(hs + [Off(o)])
  {
    hide FromLE;
  }

  lemma OffsetRefused(layout: seq<Kind>, k: nat, tail: seq<byte>, hs: seq<HeadVal>, o: nat)
    requires k < |layout| && layout[k] == Variable && LayoutLen(layout, |layout|) <= |tail|
    requires ReadHeads(layout, k, tail) == Some(hs)
    requires LayoutLen(layout, k) + 4 <= |tail| && Uint32(tail[LayoutLen(layout, k)..LayoutLen(layout, k) + 4]) == o
    requires !Accept(LastOff(hs), o, LayoutLen(layout, |layout|), |tail|)
    ensures ReadHeads(layout, k + 1, tail) == None
  {
    hide FromLE;
  }

  /** The offset marker: reads four bytes and checks them against the previous offset. */
  method ReadOffset(buf: seq<byte>, prev: Option<nat>, fixedSize: nat, size: nat, hs: seq<HeadVal>,
                    ghost layout: seq<Kind>, ghost k: nat, ghost tail: seq<byte>)
    returns (o: Option<nat>, rest: seq<byte>, hs': seq<HeadVal>)
    requires Reading(layout, k, tail, buf, hs) && k < |layout| && layout[k] == Variable && prev == LastOff(hs)
    requires fixedSize == LayoutLen(layout, |layout|) && size == |tail|
    ensures o.None? ==> size >= fixedSize && ReadHeads(layout, |layout|, tail) == None
    ensures o.Some? ==> LastOff(hs') == o && Reading(layout, k + 1, tail, rest, hs')
  {
    hide FromLE, ReadHeads, Split, Accept;
    LayoutLenMonotone(layout, k + 1, |layout|);
    ghost var pos := LayoutLen(layout, k);
    assert buf[..4] == tail[pos..pos + 4];
    var offset := Uint32(buf[..4]);
    rest := buf[4..];
    assert rest == tail[pos + 4..];
    hs' := hs + [Off(offset)];
    if Accept(prev, offset, fixedSize, size) {
      OffsetAccepted(layout, k, tail, hs, offset);
      o := Some(offset);
    } else {
      OffsetRefused(layout, k, tail, hs, offset);
      ReadHeadsPrefix(layout, k + 1, |layout|, tail);
      o := None;
    }
  }

  /** The first offset among the heads is `f`; without offsets every head is raw. */
  ghost predicate StartsAt(hs: seq<HeadVal>, f: nat) {
    if LastOff(hs).Some? then forall size :: NextOff(hs, 0, size) == f
    else forall i :: 0 <= i < |hs| ==> hs[i].Raw?
  }

  lemma StartsAtExtend(init: seq<HeadVal>, h: HeadVal, f: nat)
    requires StartsAt(init, f) && (h.Off? && LastOff(init).None? ==> h.o == f)
    ensures StartsAt(init + [h], f)
  {
    var hs := init + [h];
    assert hs[..|init|] == init;
    if LastOff(hs).Some? {
      forall size: nat
        ensures NextOff(hs, 0, size) == f
      {
        NextOffExtend(init, hs, 0, size);
        if LastOff(init).None? {
          NextOffSkip(init, 0, |init|, h.o);
        }
      }
    }
  }

  lemma {:induction false} FirstOffset(layout: seq<Kind>, k: nat, tail: seq<byte>, hs: seq<HeadVal>)
    requires k <= |layout| && LayoutLen(layout, |layout|) <= |tail|
    requires ReadHeads(layout, k, tail) == Some(hs)
    ensures StartsAt(hs, LayoutLen(layout, |layout|))
  {
    hide StartsAt, FromLE;
    if k > 0 {
      var init := ReadHeads(layout, k - 1, tail).value;
      FirstOffset(layout, k - 1, tail, init);
      StartsAtExtend(init, hs[k - 1], LayoutLen(layout, |layout|));
    } else {
      StartsAtNothing(LayoutLen(layout, |layout|));
    }
  }

  lemma StartsAtNothing(f: nat)
    ensures StartsAt([], f)
  {
  }

  lemma {:induction false} NextOffExtend(init: seq<HeadVal>, hs: seq<HeadVal>, i: nat, size: nat)
    requires |hs| == |init| + 1 && hs[..|init|] == init && i <= |init|
    ensures NextOff(hs, i, size) == NextOff(init, i, if hs[|init|].Off? then hs[|init|].o else size)
    decreases |init| - i
  {
    if i < |init| {
      assert hs[i] == hs[..|init|][i];
      NextOffExtend(init, hs, i + 1, size);
    }
  }

  /** All heads read, at least one of them an offset: the buffer splits. */
  lemma AllRead(layout: seq<Kind>, tail: seq<byte>, hs: seq<HeadVal>)
    requires LayoutLen(layout, |layout|) <= |tail| && ReadHeads(layout, |layout|, tail) == Some(hs)
    requires exists i :: 0 <= i < |layout| && layout[i] == Variable
    ensures |hs| == |layout| && Ordered(hs, |tail|)
    ensures forall i :: 0 <= i < |hs| ==> KindOfHead(hs[i], layout[i])
    ensures Split(layout, tail) == Some(Slices(hs, tail)) && Matches(Slices(hs, tail), layout)
    ensures forall i :: 0 <= i < |hs| && hs[i].Raw? ==> Slices(hs, tail)[i] == Fixed(hs[i].bytes)
  {
    hide ReadHeads, LastOff;
    FirstOffset(layout, |layout|, tail, hs);
    SlicesMatch(layout, hs, tail);
    var i :| 0 <= i < |layout| && layout[i] == Variable;
    assert KindOfHead(hs[i], layout[i]);
    LastOffIsLargest(hs, |tail|);
  }

  lemma NotRead(layout: seq<Kind>, tail: seq<byte>)
    requires |tail| < LayoutLen(layout, |layout|) || ReadHeads(layout, |layout|, tail) == None
    ensures Split(layout, tail) == None
  {
  }

  /** The bytes between offset `i` and the next offset, `j`, or the end. */
  lemma SliceIs(hs: seq<HeadVal>, tail: seq<byte>, i: nat, j: nat)
    requires Ordered(hs, |tail|) && i < j <= |hs| && hs[i].Off?
    requires forall k :: i < k < j ==> hs[k].Raw?
    requires j < |hs| ==> hs[j].Off?
    ensures var end := if j == |hs| then |tail| else hs[j].o;
            hs[i].o <= end <= |tail| && Slices(hs, tail)[i] == Var(tail[hs[i].o..end])
  {
    NextOffSkip(hs, i + 1, j, |tail|);
    NextOffBounds(hs, i + 1, |tail|);
  }

  lemma {:induction false} NextOffSkip(hs: seq<HeadVal>, i: nat, j: nat, size: nat)
    requires i <= j <= |hs| && forall k :: i <= k < j ==> hs[k].Raw?
    ensures NextOff(hs, i, size) == NextOff(hs, j, size)
    decreases j - i
  {
    if i < j {
      NextOffSkip(hs, i + 1, j, size);
    }
  }

  function AsResult<T>(o: Option<T>): Result<T> {
    match o
    case None => Err
    case Some(x) => Ok(x)
  }

  lemma Begin(layout: seq<Kind>, tail: seq<byte>)
    requires LayoutLen(layout, |layout|) <= |tail|
    ensures LastOff([]) == None && Reading(layout, 0, tail, tail, [])
  {
  }

  lemma ToTheEnd(tail: seq<byte>, o: nat)
    requires o <= |tail|
    ensures tail[o..] == tail[o..|tail|]
  {
  }

  // ---------- containers ----------

  lemma FixedSizes()
    ensures LayoutLen(ATTESTATION, 3) == 228 && LayoutLen(INDEXED_ATTESTATION, 3) == 228
    ensures LayoutLen(ATTESTER_SLASHING, 2) == 8 && LayoutLen(BEACON_BLOCK, 5) == 84
    ensures LayoutLen(SIGNED_BEACON_BLOCK, 2) == 100
  {
  }

  lemma Finish(layout: seq<Kind>, tail: seq<byte>, buf: seq<byte>, hs: seq<HeadVal>)
    requires Reading(layout, |layout|, tail, buf, hs)
    ensures ReadHeads(layout, |layout|, tail) == Some(hs)
  {
  }

  /** The fixed part of Attestation, field by field. */
  method AttestationHeads(input: seq<byte>) returns (r: Option<seq<HeadVal>>)
    ensures |input| < LayoutLen(ATTESTATION, 3) ==> r == None
    ensures |input| >= LayoutLen(ATTESTATION, 3) ==> r == ReadHeads(ATTESTATION, 3, input)
  {
    hide Reading, ReadHeads, LastOff, Slices, Ordered, Split, FromLE, LayoutLen;
    FixedSizes();
    var size, fixedSize := |input|, 228;
    if size < fixedSize {
      return None;
    }
    Begin(ATTESTATION, input);
    var buf, hs := input, [];
    var o: Option<nat> := None;
    o, buf, hs := ReadOffset(buf, o, fixedSize, size, hs, ATTESTATION, 0, input);
    if o.None? { return None; }
    buf, hs := TakeFixed(buf, 128, hs, ATTESTATION, 1, input);
    buf, hs := TakeFixed(buf, 96, hs, ATTESTATION, 2, input);
    Finish(ATTESTATION, input, buf, hs);
    return Some(hs);
  }

  method UnmarshalAttestation(input: seq<byte>) returns (r: Result<Attestation>)
    ensures r == AsResult(DecAttestation(input))
  {
    hide Reading, ReadHeads, LastOff, Slices, Ordered, Split, FromLE, LayoutLen, BitlistLen, DecAttestationData;
    var heads := AttestationHeads(input);
    if heads.None? {
      NotRead(ATTESTATION, input);
      return Err;
    }
    var hs := heads.value;
    assert ATTESTATION[0] == Variable;
    AllRead(ATTESTATION, input, hs);
    SliceIs(hs, input, 0, 3);
    ToTheEnd(input, hs[0].o);
    var data := DecAttestationData(hs[1].bytes);
    if data.None? { return Err; }
    var bits := input[hs[0].o..];
    if !HasLengthBit(bits) || BitlistLen(bits) > 2048 { return Err; }
    return Ok(Attestation(bits, data.value, hs[2].bytes));
  }

  /** The fixed part of IndexedAttestation, field by field. */
  method IndexedAttestationHeads(input: seq<byte>) returns (r: Option<seq<HeadVal>>)
    ensures |input| < LayoutLen(INDEXED_ATTESTATION, 3) ==> r == None
    ensures |input| >= LayoutLen(INDEXED_ATTESTATION, 3) ==> r == ReadHeads(INDEXED_ATTESTATION, 3, input)
  {
    hide Reading, ReadHeads, LastOff, Slices, Ordered, Split, FromLE, LayoutLen;
    FixedSizes();
    var size, fixedSize := |input|, 228;
    if size < fixedSize {
      return None;
    }
    Begin(INDEXED_ATTESTATION, input);
    var buf, hs := input, [];
    var o: Option<nat> := None;
    o, buf, hs := ReadOffset(buf, o, fixedSize, size, hs, INDEXED_ATTESTATION, 0, input);
    if o.None? { return None; }
    buf, hs := TakeFixed(buf, 128, hs, INDEXED_ATTESTATION, 1, input);
    buf, hs := TakeFixed(buf, 96, hs, INDEXED_ATTESTATION, 2, input);
    Finish(INDEXED_ATTESTATION, input, buf, hs);
    return Some(hs);
  }

  method UnmarshalIndexedAttestation(input: seq<byte>) returns (r: Result<IndexedAttestation>)
    ensures r == AsResult(DecIndexedAttestation(input))
  {
    hide Reading, ReadHeads, LastOff, Slices, Ordered, Split, FromLE, LayoutLen, DecList, DecAttestationData;
    var heads := IndexedAttestationHeads(input);
    if heads.None? {
      NotRead(INDEXED_ATTESTATION, input);
      return Err;
    }
    var hs := heads.value;
    assert INDEXED_ATTESTATION[0] == Variable;
    AllRead(INDEXED_ATTESTATION, input, hs);
    SliceIs(hs, input, 0, 3);
    ToTheEnd(input, hs[0].o);
    var data := DecAttestationData(hs[1].bytes);
    if data.None? { return Err; }
    var indices := DecList(DecWord, 8, 2048, input[hs[0].o..]);
    if indices.None? { return Err; }
    return Ok(IndexedAttestation(indices.value, data.value, hs[2].bytes));
  }

  /** The fixed part of AttesterSlashing, field by field. */
  method AttesterSlashingHeads(input: seq<byte>) returns (r: Option<seq<HeadVal>>)
    ensures |input| < LayoutLen(ATTESTER_SLASHING, 2) ==> r == None
    ensures |input| >= LayoutLen(ATTESTER_SLASHING, 2) ==> r == ReadHeads(ATTESTER_SLASHING, 2, input)
  {
    hide Reading, ReadHeads, LastOff, Slices, Ordered, Split, FromLE, LayoutLen;
    FixedSizes();
    var size, fixedSize := |input|, 8;
    if size < fixedSize {
      return None;
    }
    Begin(ATTESTER_SLASHING, input);
    var buf, hs := input, [];
    var o: Option<nat> := None;
    o, buf, hs := ReadOffset(buf, o, fixedSize, size, hs, ATTESTER_SLASHING, 0, input);
    if o.None? { return None; }
    o, buf, hs := ReadOffset(buf, o, fixedSize, size, hs, ATTESTER_SLASHING, 1, input);
    if o.None? { return None; }
    Finish(ATTESTER_SLASHING, input, buf, hs);
    return Some(hs);
  }

  method UnmarshalAttesterSlashing(input: seq<byte>) returns (r: Result<AttesterSlashing>)
    ensures r == AsResult(DecAttesterSlashing(input))
  {
    hide Reading, ReadHeads, LastOff, Slices, Ordered, Split, FromLE, LayoutLen, DecIndexedAttestation;
    var heads := AttesterSlashingHeads(input);
    if heads.None? {
      NotRead(ATTESTER_SLASHING, input);
      return Err;
    }
    var hs := heads.value;
    assert ATTESTER_SLASHING[0] == Variable;
    AllRead(ATTESTER_SLASHING, input, hs);
    SliceIs(hs, input, 0, 1);
    SliceIs(hs, input, 1, 2);
    ToTheEnd(input, hs[1].o);
    var a1 := UnmarshalIndexedAttestation(input[hs[0].o..hs[1].o]);
    if a1.Err? { return Err; }
    var a2 := UnmarshalIndexedAttestation(input[hs[1].o..]);
    if a2.Err? { return Err; }
    return Ok(AttesterSlashing(a1.value, a2.value));
  }

  /** The fixed-size fields before the first offset of ExecutionPayload, in two halves. */
  method PayloadFirstHeads(input: seq<byte>) returns (buf: seq<byte>, hs: seq<HeadVal>)
    requires |input| >= LayoutLen(EXECUTION_PAYLOAD, 15)
    ensures LastOff(hs) == None && Reading(EXECUTION_PAYLOAD, 5, input, buf, hs)
  {
    hide Reading, ReadHeads, LastOff, LayoutLen;
    Begin(EXECUTION_PAYLOAD, input);
    buf, hs := input, [];
    buf, hs := TakeFixed(buf, 32, hs, EXECUTION_PAYLOAD, 0, input);
    buf, hs := TakeFixed(buf, 20, hs, EXECUTION_PAYLOAD, 1, input);
    buf, hs := TakeFixed(buf, 32, hs, EXECUTION_PAYLOAD, 2, input);
    buf, hs := TakeFixed(buf, 32, hs, EXECUTION_PAYLOAD, 3, input);
    buf, hs := TakeFixed(buf, 256, hs, EXECUTION_PAYLOAD, 4, input);
  }

  method PayloadFixedHeads(input: seq<byte>) returns (buf: seq<byte>, hs: seq<HeadVal>)
    requires |input| >= LayoutLen(EXECUTION_PAYLOAD, 15)
    ensures LastOff(hs) == None && Reading(EXECUTION_PAYLOAD, 10, input, buf, hs)
  {
    hide Reading, ReadHeads, LastOff, LayoutLen;
    buf, hs := PayloadFirstHeads(input);
    buf, hs := TakeFixed(buf, 32, hs, EXECUTION_PAYLOAD, 5, input);
    buf, hs := TakeFixed(buf, 8, hs, EXECUTION_PAYLOAD, 6, input);
    buf, hs := TakeFixed(buf, 8, hs, EXECUTION_PAYLOAD, 7, input);
    buf, hs := TakeFixed(buf, 8, hs, EXECUTION_PAYLOAD, 8, input);
    buf, hs := TakeFixed(buf, 8, hs, EXECUTION_PAYLOAD, 9, input);
  }

  /** The fixed part of ExecutionPayload, field by field. */
  method ExecutionPayloadHeads(input: seq<byte>) returns (r: Option<seq<HeadVal>>)
    ensures |input| < LayoutLen(EXECUTION_PAYLOAD, 15) ==> r == None
    ensures |input| >= LayoutLen(EXECUTION_PAYLOAD, 15) ==> r == ReadHeads(EXECUTION_PAYLOAD, 15, input)
  {
    hide Reading, ReadHeads, LastOff, Slices, Ordered, Split, FromLE, LayoutLen;
    PayloadFixedSize();
    var size, fixedSize := |input|, 512;
    if size < fixedSize {
      return None;
    }
    var buf, hs := PayloadFixedHeads(input);
    var o: Option<nat> := None;
    o, buf, hs := ReadOffset(buf, o, fixedSize, size, hs, EXECUTION_PAYLOAD, 10, input);
    if o.None? { return None; }
    buf, hs := TakeFixed(buf, 32, hs, EXECUTION_PAYLOAD, 11, input);
    buf, hs := TakeFixed(buf, 32, hs, EXECUTION_PAYLOAD, 12, input);
    o, buf, hs := ReadOffset(buf, o, fixedSize, size, hs, EXECUTION_PAYLOAD, 13, input);
    if o.None? { return None; }
    o, buf, hs := ReadOffset(buf, o, fixedSize, size, hs, EXECUTION_PAYLOAD, 14, input);
    if o.None? { return None; }
    Finish(EXECUTION_PAYLOAD, input, buf, hs);
    return Some(hs);
  }

  /** What the heads of an ExecutionPayload are. */
  predicate PayloadKinds(hs: seq<HeadVal>) {
    && |hs| == 15 && hs[10].Off? && hs[13].Off? && hs[14].Off?
    && RawOf(hs[0], 32) && RawOf(hs[1], 20) && RawOf(hs[2], 32) && RawOf(hs[3], 32) && RawOf(hs[4], 256)
    && RawOf(hs[5], 32) && RawOf(hs[6], 8) && RawOf(hs[7], 8) && RawOf(hs[8], 8) && RawOf(hs[9], 8)
    && RawOf(hs[11], 32) && RawOf(hs[12], 32)
  }

  predicate RawOf(h: HeadVal, n: nat) { h.Raw? && |h.bytes| == n }

  lemma PayloadSlices(input: seq<byte>, hs: seq<HeadVal>)
    requires LayoutLen(EXECUTION_PAYLOAD, 15) <= |input| && ReadHeads(EXECUTION_PAYLOAD, 15, input) == Some(hs)
    ensures PayloadKinds(hs) && hs[10].o <= hs[13].o <= hs[14].o <= |input|
    ensures var ps := Split(EXECUTION_PAYLOAD, input);
            && ps.Some? && Matches(ps.value, EXECUTION_PAYLOAD)
            && (forall i :: 0 <= i < 15 && hs[i].Raw? ==> ps.value[i] == Fixed(hs[i].bytes))
            && ps.value[10] == Var(input[hs[10].o..hs[13].o]) && ps.value[13] == Var(input[hs[13].o..hs[14].o])
            && ps.value[14] == Var(input[hs[14].o..])
  {
    hide ReadHeads, LastOff, Slices, Ordered, Split, LayoutLen;
    assert EXECUTION_PAYLOAD[10] == Variable;
    AllRead(EXECUTION_PAYLOAD, input, hs);
    SliceIs(hs, input, 10, 13);
    SliceIs(hs, input, 13, 14);
    SliceIs(hs, input, 14, 15);
    ToTheEnd(input, hs[14].o);
  }

  method UnmarshalExecutionPayload(input: seq<byte>) returns (r: Result<ExecutionPayload>)
    ensures r == AsResult(DecExecutionPayload(input))
  {
    hide Reading, ReadHeads, LastOff, Slices, Ordered, Split, FromLE, LayoutLen, DecList, DecDyn;
    var heads := ExecutionPayloadHeads(input);
    if heads.None? {
      NotRead(EXECUTION_PAYLOAD, input);
      return Err;
    }
    var hs := heads.value;
    PayloadSlices(input, hs);
    var extra := input[hs[10].o..hs[13].o];
    if |extra| > MAX_EXTRA_DATA { return Err; }
    var txs := DecDyn(DecTransaction, MAX_TRANSACTIONS, input[hs[13].o..hs[14].o]);
    if txs.None? { return Err; }
    var wds := DecList(DecWithdrawal, 44, MAX_WITHDRAWALS, input[hs[14].o..]);
    if wds.None? { return Err; }
    return Ok(ExecutionPayload(
                hs[0].bytes, hs[1].bytes, hs[2].bytes, hs[3].bytes, hs[4].bytes, hs[5].bytes, Uint64(hs[6].bytes),
                Uint64(hs[7].bytes), Uint64(hs[8].bytes), Uint64(hs[9].bytes), extra, hs[11].bytes, hs[12].bytes,
                txs.value, wds.value));
  }

  /** The first six heads of BeaconBlockBody. */
  method BodyFirstHeads(input: seq<byte>) returns (o: Option<nat>, buf: seq<byte>, hs: seq<HeadVal>)
    requires |input| >= LayoutLen(BEACON_BLOCK_BODY, 11)
    ensures o.None? ==> ReadHeads(BEACON_BLOCK_BODY, 11, input) == None
    ensures o.Some? ==> LastOff(hs) == o && Reading(BEACON_BLOCK_BODY, 6, input, buf, hs)
  {
    hide Reading, ReadHeads, LastOff, LayoutLen;
    BodyFixedSize();
    var size, fixedSize := |input|, 388;
    Begin(BEACON_BLOCK_BODY, input);
    o, buf, hs := None, input, [];
    buf, hs := TakeFixed(buf, 96, hs, BEACON_BLOCK_BODY, 0, input);
    buf, hs := TakeFixed(buf, 72, hs, BEACON_BLOCK_BODY, 1, input);
    buf, hs := TakeFixed(buf, 32, hs, BEACON_BLOCK_BODY, 2, input);
    o, buf, hs := ReadOffset(buf, o, fixedSize, size, hs, BEACON_BLOCK_BODY, 3, input);
    if o.None? { return; }
    o, buf, hs := ReadOffset(buf, o, fixedSize, size, hs, BEACON_BLOCK_BODY, 4, input);
    if o.None? { return; }
    o, buf, hs := ReadOffset(buf, o, fixedSize, size, hs, BEACON_BLOCK_BODY, 5, input);
    if o.None? { return; }
  }

  /** The fixed part of BeaconBlockBody, field by field. */
  method BeaconBlockBodyHeads(input: seq<byte>) returns (r: Option<seq<HeadVal>>)
    ensures |input| < LayoutLen(BEACON_BLOCK_BODY, 11) ==> r == None
    ensures |input| >= LayoutLen(BEACON_BLOCK_BODY, 11) ==> r == ReadHeads(BEACON_BLOCK_BODY, 11, input)
  {
    hide Reading, ReadHeads, LastOff, Slices, Ordered, Split, FromLE, LayoutLen;
    BodyFixedSize();
    var size, fixedSize := |input|, 388;
    if size < fixedSize {
      return None;
    }
    var o, buf, hs := BodyFirstHeads(input);
    if o.None? { return None; }
    o, buf, hs := ReadOffset(buf, o, fixedSize, size, hs, BEACON_BLOCK_BODY, 6, input);
    if o.None? { return None; }
    o, buf, hs := ReadOffset(buf, o, fixedSize, size, hs, BEACON_BLOCK_BODY, 7, input);
    if o.None? { return None; }
    buf, hs := TakeFixed(buf, 160, hs, BEACON_BLOCK_BODY, 8, input);
    o, buf, hs := ReadOffset(buf, o, fixedSize, size, hs, BEACON_BLOCK_BODY, 9, input);
    if o.None? { return None; }
    o, buf, hs := ReadOffset(buf, o, fixedSize, size, hs, BEACON_BLOCK_BODY, 10, input);
    if o.None? { return None; }
    Finish(BEACON_BLOCK_BODY, input, buf, hs);
    return Some(hs);
  }

  method UnmarshalBeaconBlockBody(input: seq<byte>) returns (r: Result<BeaconBlockBody>)
    ensures r == AsResult(DecBeaconBlockBody(input))
  {
    hide Reading, ReadHeads, LastOff, Slices, Ordered, Split, FromLE, LayoutLen,
         DecList, DecDyn, DecEth1Data, DecSyncAggregate, DecExecutionPayload;
    var heads := BeaconBlockBodyHeads(input);
    if heads.None? {
      NotRead(BEACON_BLOCK_BODY, input);
      return Err;
    }
    var hs := heads.value;
    assert BEACON_BLOCK_BODY[3] == Variable;
    AllRead(BEACON_BLOCK_BODY, input, hs);
    SliceIs(hs, input, 3, 4);
    SliceIs(hs, input, 4, 5);
    SliceIs(hs, input, 5, 6);
    SliceIs(hs, input, 6, 7);
    SliceIs(hs, input, 7, 9);
    SliceIs(hs, input, 9, 10);
    SliceIs(hs, input, 10, 11);
    ToTheEnd(input, hs[10].o);
    var eth1 := DecEth1Data(hs[1].bytes);
    if eth1.None? { return Err; }
    var sync := DecSyncAggregate(hs[8].bytes);
    if sync.None? { return Err; }
    var proposer := DecList(DecProposerSlashing, 416, MAX_PROPOSER_SLASHINGS, input[hs[3].o..hs[4].o]);
    if proposer.None? { return Err; }
    var attester := DecDyn(DecAttesterSlashing, MAX_ATTESTER_SLASHINGS, input[hs[4].o..hs[5].o]);
    if attester.None? { return Err; }
    var atts := DecDyn(DecAttestation, MAX_ATTESTATIONS, input[hs[5].o..hs[6].o]);
    if atts.None? { return Err; }
    var deposits := DecList(DecDeposit, 1240, MAX_DEPOSITS, input[hs[6].o..hs[7].o]);
    if deposits.None? { return Err; }
    var exits := DecList(DecSignedVoluntaryExit, 112, MAX_VOLUNTARY_EXITS, input[hs[7].o..hs[9].o]);
    if exits.None? { return Err; }
    var payload := UnmarshalExecutionPayload(input[hs[9].o..hs[10].o]);
    if payload.Err? { return Err; }
    var changes := DecList(DecSignedBLSToExecutionChange, 172, MAX_BLS_CHANGES, input[hs[10].o..]);
    if changes.None? { return Err; }
    return Ok(BeaconBlockBody(
                hs[0].bytes, eth1.value, hs[2].bytes, proposer.value, attester.value, atts.value, deposits.value,
                exits.value, sync.value, payload.value, changes.value));
  }

  /** The fixed part of BeaconBlock, field by field. */
  method BeaconBlockHeads(input: seq<byte>) returns (r: Option<seq<HeadVal>>)
    ensures |input| < LayoutLen(BEACON_BLOCK, 5) ==> r == None
    ensures |input| >= LayoutLen(BEACON_BLOCK, 5) ==> r == ReadHeads(BEACON_BLOCK, 5, input)
  {
    hide Reading, ReadHeads, LastOff, Slices, Ordered, Split, FromLE, LayoutLen;
    FixedSizes();
    var size, fixedSize := |input|, 84;
    if size < fixedSize {
      return None;
    }
    Begin(BEACON_BLOCK, input);
    var buf, hs := input, [];
    var o: Option<nat> := None;
    buf, hs := TakeFixed(buf, 8, hs, BEACON_BLOCK, 0, input);
    buf, hs := TakeFixed(buf, 8, hs, BEACON_BLOCK, 1, input);
    buf, hs := TakeFixed(buf, 32, hs, BEACON_BLOCK, 2, input);
    buf, hs := TakeFixed(buf, 32, hs, BEACON_BLOCK, 3, input);
    o, buf, hs := ReadOffset(buf, o, fixedSize, size, hs, BEACON_BLOCK, 4, input);
    if o.None? { return None; }
    Finish(BEACON_BLOCK, input, buf, hs);
    return Some(hs);
  }

  method UnmarshalBeaconBlock(input: seq<byte>) returns (r: Result<BeaconBlock>)
    ensures r == AsResult(DecBeaconBlock(input))
  {
    hide Reading, ReadHeads, LastOff, Slices, Ordered, Split, FromLE, LayoutLen, DecBeaconBlockBody;
    var heads := BeaconBlockHeads(input);
    if heads.None? {
      NotRead(BEACON_BLOCK, input);
      return Err;
    }
    var hs := heads.value;
    assert BEACON_BLOCK[4] == Variable;
    AllRead(BEACON_BLOCK, input, hs);
    SliceIs(hs, input, 4, 5);
    ToTheEnd(input, hs[4].o);
    var body := UnmarshalBeaconBlockBody(input[hs[4].o..]);
    if body.Err? { return Err; }
    return Ok(BeaconBlock(Uint64(hs[0].bytes), Uint64(hs[1].bytes), hs[2].bytes, hs[3].bytes, body.value));
  }

  /** The fixed part of SignedBeaconBlock, field by field. */
  method SignedBeaconBlockHeads(input: seq<byte>) returns (r: Option<seq<HeadVal>>)
    ensures |input| < LayoutLen(SIGNED_BEACON_BLOCK, 2) ==> r == None
    ensures |input| >= LayoutLen(SIGNED_BEACON_BLOCK, 2) ==> r == ReadHeads(SIGNED_BEACON_BLOCK, 2, input)
  {
    hide Reading, ReadHeads, LastOff, Slices, Ordered, Split, FromLE, LayoutLen;
    FixedSizes();
    var size, fixedSize := |input|, 100;
    if size < fixedSize {
      return None;
    }
    Begin(SIGNED_BEACON_BLOCK, input);
    var buf, hs := input, [];
    var o: Option<nat> := None;
    o, buf, hs := ReadOffset(buf, o, fixedSize, size, hs, SIGNED_BEACON_BLOCK, 0, input);
    if o.None? { return None; }
    buf, hs := TakeFixed(buf, 96, hs, SIGNED_BEACON_BLOCK, 1, input);
    Finish(SIGNED_BEACON_BLOCK, input, buf, hs);
    return Some(hs);
  }

  method UnmarshalSignedBeaconBlock(input: seq<byte>) returns (r: Result<SignedBeaconBlock>)
    ensures r == AsResult(DecSignedBeaconBlock(input))
  {
    hide Reading, ReadHeads, LastOff, Slices, Ordered, Split, FromLE, LayoutLen, DecBeaconBlock;
    var heads := SignedBeaconBlockHeads(input);
    if heads.None? {
      NotRead(SIGNED_BEACON_BLOCK, input);
      return Err;
    }
    var hs := heads.value;
    assert SIGNED_BEACON_BLOCK[0] == Variable;
    AllRead(SIGNED_BEACON_BLOCK, input, hs);
    SliceIs(hs, input, 0, 2);
    ToTheEnd(input, hs[0].o);
    var block := UnmarshalBeaconBlock(input[hs[0].o..]);
    if block.Err? { return Err; }
    return Ok(SignedBeaconBlock(block.value, hs[1].bytes));
  }
}
