/**
  The generated MarshalSSZTo and SizeSSZ code, statement by statement: the fixed part is written
  first while `offset` runs ahead over the sizes of the variable fields, then the bodies follow,
  with `offset` reused for the table of every inner list. Each method is proved to append
  exactly the bytes `Enc` of its container, or to fail exactly when `Marshals` does not hold.
 */
module CapellaMarshal {
  import opened Bytes
  import opened Ssz
  import opened SszLists
  import opened Containers
  import opened FixedContainers
  import opened Capella
  import opened CapellaLaws

  /** Appends a fixed-size field: part `k` of the container being written. */
  method PutFixed(dst: seq<byte>, b: seq<byte>, ghost buf: seq<byte>, ghost parts: seq<Part>, ghost k: nat,
                  ghost base: nat, ghost valid: bool)
    returns (r: seq<byte>)
    requires k < |parts| && parts[k] == Fixed(b)
    requires valid ==> dst == buf + Heads(parts, k, base)
    ensures valid ==> r == buf + Heads(parts, k + 1, base)
    ensures |Tails(parts, k + 1)| == |Tails(parts, k)|
  {
    hide LE;
    AppendAssoc(buf, Heads(parts, k, base), b);
    r := dst + b;
  }

  /** Appends the offset of a variable-size field, cut to 32 bits. */
  method WriteOffset(dst: seq<byte>, offset: nat, ghost buf: seq<byte>, ghost parts: seq<Part>, ghost k: nat,
                     ghost base: nat, ghost valid: bool)
    returns (r: seq<byte>)
    requires k < |parts| && parts[k].Var?
    requires valid ==> dst == buf + Heads(parts, k, base) && offset == base + |Tails(parts, k)|
    ensures valid ==> r == buf + Heads(parts, k + 1, base)
    ensures |Tails(parts, k + 1)| == |Tails(parts, k)| + |parts[k].bytes|
  {
    hide LE;
    AppendAssoc(buf, Heads(parts, k, base), LE(offset, 4));
    r := dst + LE(offset, 4);
  }

  /** The bodies of parts `i` up to `j` of which only `i` is variable. */
  lemma TailsNext(parts: seq<Part>, i: nat, j: nat)
    requires i < j <= |parts| && parts[i].Var? && forall k :: i < k < j ==> parts[k].Fixed?
    ensures Tails(parts, j) == Tails(parts, i) + parts[i].bytes
    ensures i == 0 ==> Tails(parts, j) == parts[i].bytes
  {
    TailsSkip(parts, i + 1, j);
  }

  /** Fixed part and bodies together are the container. */
  lemma Written(dst: seq<byte>, buf: seq<byte>, parts: seq<Part>, layout: seq<Kind>, base: nat, tails: seq<byte>)
    requires Matches(parts, layout) && LayoutLen(layout, |layout|) == base
    requires dst == buf + Heads(parts, |parts|, base) + tails && tails == Tails(parts, |parts|)
    ensures dst == buf + Assemble(parts)
  {
    FixedLenIsLayoutLen(parts, layout, |layout|);
    AppendAssoc(buf, Heads(parts, |parts|, base), tails);
  }

  lemma AppendAssoc(a: seq<byte>, b: seq<byte>, c: seq<byte>)
    ensures a + b + c == a + (b + c)
  {
  }

  // ---------- lists ----------

  /** A list of fixed-size containers: a limit check, then one element after the other. */
  method MarshalList<T>(dst: seq<byte>, xs: seq<T>, max: nat, wf: T -> bool, enc: T -> seq<byte>)
    returns (r: Result<seq<byte>>)
    ensures r == if |xs| <= max && AllWf(wf, xs) then Ok(dst + EncList(enc, xs)) else Err
  {
    if |xs| > max {
      return Err;
    }
    var out := dst;
    ghost var cs := EncAll(enc, xs);
    for ii := 0 to |xs|
      invariant forall j :: 0 <= j < ii ==> wf(xs[j])
      invariant out == dst + Concat(cs, ii)
    {
      if !wf(xs[ii]) {
        return Err;
      }
      out := out + enc(xs[ii]);
      assert cs[ii] == enc(xs[ii]);
    }
    return Ok(out);
  }

  lemma DynParts<T>(enc: T -> seq<byte>, xs: seq<T>, dst: seq<byte>)
    ensures var parts := Vars(EncAll(enc, xs));
            && |parts| == |xs| && (forall i :: 0 <= i < |xs| ==> parts[i] == Var(enc(xs[i])))
            && dst == dst + Heads(parts, 0, 4 * |xs|) && Tails(parts, 0) == []
  {
  }

  lemma DynWritten<T>(enc: T -> seq<byte>, xs: seq<T>, dst: seq<byte>)
    ensures var parts := Vars(EncAll(enc, xs));
            dst + Heads(parts, |xs|, 4 * |xs|) + Tails(parts, |xs|) == dst + EncDyn(enc, xs)
  {
    var parts := Vars(EncAll(enc, xs));
    VarsFixedLen(EncAll(enc, xs), |xs|);
    AppendAssoc(dst, Heads(parts, |xs|, 4 * |xs|), Tails(parts, |xs|));
  }

  /** The offsets of a list of variable-size elements, each the one before plus that element's size. */
  method MarshalOffsets<T>(dst: seq<byte>, xs: seq<T>, size: T -> nat, ghost enc: T -> seq<byte>, ghost valid: bool)
    returns (out: seq<byte>)
    requires valid ==> forall i :: 0 <= i < |xs| ==> |enc(xs[i])| == size(xs[i])
    ensures valid ==> out == dst + Heads(Vars(EncAll(enc, xs)), |xs|, 4 * |xs|)
  {
    hide LE, Heads, Tails, Vars, EncAll;
    ghost var parts := Vars(EncAll(enc, xs));
    DynParts(enc, xs, dst);
    out := dst;
    var offset: nat := 4 * |xs|;
    for ii := 0 to |xs|
      invariant valid ==> out == dst + Heads(parts, ii, 4 * |xs|) && offset == 4 * |xs| + |Tails(parts, ii)|
    {
      out := WriteOffset(out, offset, dst, parts, ii, 4 * |xs|, valid);
      if valid {
        TailsNext(parts, ii, ii + 1);
      }
      offset := offset + size(xs[ii]);
    }
  }

  method MarshalAttesterSlashings(dst: seq<byte>, xs: seq<AttesterSlashing>) returns (r: Result<seq<byte>>)
    ensures r == if |xs| <= MAX_ATTESTER_SLASHINGS && AllWf(WfAttesterSlashing, xs)
                 then Ok(dst + EncDyn(EncAttesterSlashing, xs)) else Err
  {
    hide LE, Heads, Tails, Vars, EncAll, EncDyn, EncAttesterSlashing, WfAttesterSlashing, SizeAttesterSlashing;
    if |xs| > MAX_ATTESTER_SLASHINGS {
      return Err;
    }
    DynParts(EncAttesterSlashing, xs, dst);
    ghost var parts := Vars(EncAll(EncAttesterSlashing, xs));
    ghost var valid := AllWf(WfAttesterSlashing, xs);
    forall i | valid && 0 <= i < |xs|
      ensures |EncAttesterSlashing(xs[i])| == SizeAttesterSlashing(xs[i])
    {
      AttesterSlashingShape(xs[i]);
    }
    var table := MarshalOffsets(dst, xs, SizeAttesterSlashing, EncAttesterSlashing, valid);
    var out := table;
    for ii := 0 to |xs|
      invariant forall j :: 0 <= j < ii ==> WfAttesterSlashing(xs[j])
      invariant out == table + Tails(parts, ii)
    {
      var m := MarshalAttesterSlashing(xs[ii], out);
      if m.Err? {
        return Err;
      }
      out := m.value;
      TailsNext(parts, ii, ii + 1);
      AppendAssoc(table, Tails(parts, ii), parts[ii].bytes);
    }
    DynWritten(EncAttesterSlashing, xs, dst);
    return Ok(out);
  }

  method MarshalAttestations(dst: seq<byte>, xs: seq<Attestation>) returns (r: Result<seq<byte>>)
    ensures r == if |xs| <= MAX_ATTESTATIONS && AllWf(MarshalsAttestation, xs)
                 then Ok(dst + EncDyn(EncAttestation, xs)) else Err
  {
    hide LE, Heads, Tails, Vars, EncAll, EncDyn, EncAttestation, MarshalsAttestation, SizeAttestation;
    if |xs| > MAX_ATTESTATIONS {
      return Err;
    }
    DynParts(EncAttestation, xs, dst);
    ghost var parts := Vars(EncAll(EncAttestation, xs));
    ghost var valid := AllWf(MarshalsAttestation, xs);
    forall i | valid && 0 <= i < |xs|
      ensures |EncAttestation(xs[i])| == SizeAttestation(xs[i])
    {
      AttestationShape(xs[i]);
    }
    var table := MarshalOffsets(dst, xs, SizeAttestation, EncAttestation, valid);
    var out := table;
    for ii := 0 to |xs|
      invariant forall j :: 0 <= j < ii ==> MarshalsAttestation(xs[j])
      invariant out == table + Tails(parts, ii)
    {
      var m := MarshalAttestation(xs[ii], out);
      if m.Err? {
        return Err;
      }
      out := m.value;
      TailsNext(parts, ii, ii + 1);
      AppendAssoc(table, Tails(parts, ii), parts[ii].bytes);
    }
    DynWritten(EncAttestation, xs, dst);
    return Ok(out);
  }

  method MarshalTransactions(dst: seq<byte>, txs: seq<seq<byte>>) returns (r: Result<seq<byte>>)
    ensures r == if |txs| <= MAX_TRANSACTIONS && AllWf(WfTransaction, txs)
                 then Ok(dst + EncDyn(EncTransaction, txs)) else Err
  {
    hide LE, Heads, Tails, Vars, EncAll, EncDyn;
    if |txs| > MAX_TRANSACTIONS {
      return Err;
    }
    DynParts(EncTransaction, txs, dst);
    ghost var parts := Vars(EncAll(EncTransaction, txs));
    var table := MarshalOffsets(dst, txs, SizeTransaction, EncTransaction, true);
    var out := table;
    for ii := 0 to |txs|
      invariant forall j :: 0 <= j < ii ==> WfTransaction(txs[j])
      invariant out == table + Tails(parts, ii)
    {
      if |txs[ii]| > MAX_TRANSACTION {
        return Err;
      }
      out := out + txs[ii];
      TailsNext(parts, ii, ii + 1);
      AppendAssoc(table, Tails(parts, ii), parts[ii].bytes);
    }
    DynWritten(EncTransaction, txs, dst);
    return Ok(out);
  }

  // ---------- containers ----------

  method MarshalAttestation(x: Attestation, buf: seq<byte>) returns (r: Result<seq<byte>>)
    ensures r == if MarshalsAttestation(x) then Ok(buf + EncAttestation(x)) else Err
  {
    hide LE, BitlistLen, EncAttestationData;
    ghost var parts := AttestationParts(x);
    var dst := buf;
    var offset := 228;
    dst := WriteOffset(dst, offset, buf, parts, 0, 228, true);
    if !WfAttestationData(x.data) {
      return Err;
    }
    dst := PutFixed(dst, EncAttestationData(x.data), buf, parts, 1, 228, true);
    dst := PutFixed(dst, x.signature, buf, parts, 2, 228, true);
    if BitlistLen(x.aggregationBits) > 2048 {
      return Err;
    }
    dst := dst + x.aggregationBits;
    AttestationShape(x);
    TailsNext(parts, 0, 3);
    Written(dst, buf, parts, ATTESTATION, 228, x.aggregationBits);
    return Ok(dst);
  }

  method MarshalIndexedAttestation(x: IndexedAttestation, buf: seq<byte>) returns (r: Result<seq<byte>>)
    ensures r == if WfIndexedAttestation(x) then Ok(buf + EncIndexedAttestation(x)) else Err
  {
    hide LE, EncAttestationData;
    ghost var parts := IndexedAttestationParts(x);
    var dst := buf;
    var offset := 228;
    dst := WriteOffset(dst, offset, buf, parts, 0, 228, true);
    if !WfAttestationData(x.data) {
      return Err;
    }
    dst := PutFixed(dst, EncAttestationData(x.data), buf, parts, 1, 228, true);
    if |x.signature| != 96 {
      return Err;
    }
    dst := PutFixed(dst, x.signature, buf, parts, 2, 228, true);
    if |x.attestationIndices| > 2048 {
      return Err;
    }
    ghost var fixed := dst;
    ghost var cs := EncAll(EncWord, x.attestationIndices);
    for ii := 0 to |x.attestationIndices|
      invariant dst == fixed + Concat(cs, ii)
    {
      assert cs[ii] == EncWord(x.attestationIndices[ii]);
      dst := dst + EncWord(x.attestationIndices[ii]);
    }
    IndexedAttestationShape(x);
    TailsNext(parts, 0, 3);
    Written(dst, buf, parts, INDEXED_ATTESTATION, 228, parts[0].bytes);
    return Ok(dst);
  }

  method SizeSSZAttesterSlashing(x: AttesterSlashing) returns (size: nat)
    ensures size == SizeAttesterSlashing(x)
  {
    size := 8;
    size := size + SizeIndexedAttestation(x.attestation1);
    size := size + SizeIndexedAttestation(x.attestation2);
  }

  method MarshalAttesterSlashing(x: AttesterSlashing, buf: seq<byte>) returns (r: Result<seq<byte>>)
    ensures r == if WfAttesterSlashing(x) then Ok(buf + EncAttesterSlashing(x)) else Err
  {
    hide LE, EncIndexedAttestation, WfIndexedAttestation;
    ghost var parts := AttesterSlashingParts(x);
    ghost var valid := WfAttesterSlashing(x);
    if valid {
      IndexedAttestationShape(x.attestation1);
      AttesterSlashingShape(x);
    }
    var dst := buf;
    var offset := 8;
    dst := WriteOffset(dst, offset, buf, parts, 0, 8, valid);
    offset := offset + SizeIndexedAttestation(x.attestation1);
    dst := WriteOffset(dst, offset, buf, parts, 1, 8, valid);
    var m := MarshalIndexedAttestation(x.attestation1, dst);
    if m.Err? {
      return Err;
    }
    m := MarshalIndexedAttestation(x.attestation2, m.value);
    if m.Err? {
      return Err;
    }
    TailsNext(parts, 0, 1);
    TailsNext(parts, 1, 2);
    AppendAssoc(buf + Heads(parts, 2, 8), parts[0].bytes, parts[1].bytes);
    Written(m.value, buf, parts, ATTESTER_SLASHING, 8, parts[0].bytes + parts[1].bytes);
    return m;
  }

  method SizeSSZExecutionPayload(x: ExecutionPayload) returns (size: nat)
    ensures size == SizeExecutionPayload(x)
  {
    size := 512;
    size := size + |x.extraData|;
    ghost var start := size;
    for ii := 0 to |x.transactions|
      invariant size == start + SizeDyn(SizeTransaction, x.transactions, ii)
    {
      size := size + 4;
      size := size + |x.transactions[ii]|;
    }
    size := size + |x.withdrawals| * 44;
  }

  method MarshalExecutionPayload(x: ExecutionPayload, buf: seq<byte>) returns (r: Result<seq<byte>>)
    ensures r == if WfExecutionPayload(x) then Ok(buf + EncExecutionPayload(x)) else Err
  {
    hide LE, Heads, Tails, EncDyn, EncList, LayoutLen, FixedLen, ExecutionPayloadParts, EncExecutionPayload;
    ghost var parts := ExecutionPayloadParts(x);
    PayloadStart(x, buf);
    EncDynLen(EncTransaction, SizeTransaction, x.transactions);
    var dst := buf;
    var offset := 512;
    dst := PutFixed(dst, x.parentHash, buf, parts, 0, 512, true);
    dst := PutFixed(dst, x.feeRecipient, buf, parts, 1, 512, true);
    dst := PutFixed(dst, x.stateRoot, buf, parts, 2, 512, true);
    dst := PutFixed(dst, x.receiptsRoot, buf, parts, 3, 512, true);
    dst := PutFixed(dst, x.logsBloom, buf, parts, 4, 512, true);
    dst := PutFixed(dst, x.prevRandao, buf, parts, 5, 512, true);
    dst := PutFixed(dst, LE(x.blockNumber, 8), buf, parts, 6, 512, true);
    dst := PutFixed(dst, LE(x.gasLimit, 8), buf, parts, 7, 512, true);
    dst := PutFixed(dst, LE(x.gasUsed, 8), buf, parts, 8, 512, true);
    dst := PutFixed(dst, LE(x.timestamp, 8), buf, parts, 9, 512, true);
    dst := WriteOffset(dst, offset, buf, parts, 10, 512, true);
    offset := offset + |x.extraData|;
    dst := PutFixed(dst, x.baseFeePerGas, buf, parts, 11, 512, true);
    dst := PutFixed(dst, x.blockHash, buf, parts, 12, 512, true);
    dst := WriteOffset(dst, offset, buf, parts, 13, 512, true);
    ghost var start := offset;
    for ii := 0 to |x.transactions|
      invariant offset == start + SizeDyn(SizeTransaction, x.transactions, ii)
    {
      offset := offset + 4;
      offset := offset + |x.transactions[ii]|;
    }
    dst := WriteOffset(dst, offset, buf, parts, 14, 512, true);

    if |x.extraData| > MAX_EXTRA_DATA {
      return Err;
    }
    dst := dst + x.extraData;
    var m := MarshalTransactions(dst, x.transactions);
    if m.Err? {
      return Err;
    }
    m := MarshalList(m.value, x.withdrawals, MAX_WITHDRAWALS, WfWithdrawal, EncWithdrawal);
    if m.Err? {
      return Err;
    }
    PayloadEnd(x, buf);
    return m;
  }

  lemma PayloadStart(x: ExecutionPayload, buf: seq<byte>)
    ensures buf == buf + Heads(ExecutionPayloadParts(x), 0, 512) && Tails(ExecutionPayloadParts(x), 0) == []
    ensures var ps := ExecutionPayloadParts(x);
            && |ps| == 15
            && ps[0] == Fixed(x.parentHash) && ps[1] == Fixed(x.feeRecipient) && ps[2] == Fixed(x.stateRoot)
            && ps[3] == Fixed(x.receiptsRoot) && ps[4] == Fixed(x.logsBloom) && ps[5] == Fixed(x.prevRandao)
            && ps[6] == Fixed(LE(x.blockNumber, 8)) && ps[7] == Fixed(LE(x.gasLimit, 8))
            && ps[8] == Fixed(LE(x.gasUsed, 8)) && ps[9] == Fixed(LE(x.timestamp, 8)) && ps[10] == Var(x.extraData)
            && ps[11] == Fixed(x.baseFeePerGas) && ps[12] == Fixed(x.blockHash)
            && ps[13] == Var(EncDyn(EncTransaction, x.transactions))
            && ps[14] == Var(EncList(EncWithdrawal, x.withdrawals))
  {
    hide LE, EncDyn, EncList, EncWithdrawal;
  }

  lemma PayloadBodies(x: ExecutionPayload)
    ensures Tails(ExecutionPayloadParts(x), 15)
         == x.extraData + EncDyn(EncTransaction, x.transactions) + EncList(EncWithdrawal, x.withdrawals)
  {
    hide LE, EncDyn, EncList, Tails;
    var parts := ExecutionPayloadParts(x);
    TailsZero(parts);
    TailsSkip(parts, 0, 10);
    TailsNext(parts, 10, 13);
    TailsNext(parts, 13, 14);
    TailsNext(parts, 14, 15);
  }

  lemma PayloadEnd(x: ExecutionPayload, buf: seq<byte>)
    requires WfExecutionPayload(x)
    ensures buf + Heads(ExecutionPayloadParts(x), 15, 512) + x.extraData + EncDyn(EncTransaction, x.transactions)
            + EncList(EncWithdrawal, x.withdrawals)
         == buf + EncExecutionPayload(x)
  {
    hide LE, EncDyn, EncList, LayoutLen, FixedLen, Heads, Tails, ExecutionPayloadParts, WfExecutionPayload;
    var parts := ExecutionPayloadParts(x);
    ExecutionPayloadShape(x);
    FixedLenIsLayoutLen(parts, EXECUTION_PAYLOAD, 15);
    PayloadFixedSize();
    PayloadBodies(x);
  }

  method SizeSSZBeaconBlockBody(x: BeaconBlockBody) returns (size: nat)
    ensures size == SizeBeaconBlockBody(x)
  {
    hide SizeExecutionPayload;
    size := 388;
    size := size + |x.proposerSlashings| * 416;
    ghost var start := size;
    for ii := 0 to |x.attesterSlashings|
      invariant size == start + SizeDyn(SizeAttesterSlashing, x.attesterSlashings, ii)
    {
      size := size + 4;
      var n := SizeSSZAttesterSlashing(x.attesterSlashings[ii]);
      size := size + n;
    }
    start := size;
    for ii := 0 to |x.attestations|
      invariant size == start + SizeDyn(SizeAttestation, x.attestations, ii)
    {
      size := size + 4;
      size := size + SizeAttestation(x.attestations[ii]);
    }
    size := size + |x.deposits| * 1240;
    size := size + |x.voluntaryExits| * 112;
    var n := SizeSSZExecutionPayload(x.executionPayload);
    size := size + n;
    size := size + |x.blsToExecutionChanges| * 172;
  }

  /** The fixed part of a block body; `offset` runs ahead over the seven variable fields. */
  method MarshalBodyHeads(x: BeaconBlockBody, buf: seq<byte>) returns (r: Result<seq<byte>>)
    ensures r.Ok? <==> |x.randaoReveal| == 96 && WfEth1Data(x.eth1Data) && WfSyncAggregate(x.syncAggregate)
    ensures r.Ok? && MarshalsBeaconBlockBody(x) ==> r.value == buf + Heads(BeaconBlockBodyParts(x), 11, 388)
  {
    hide LE, Heads, Tails, EncDyn, EncList, EncEth1Data, EncSyncAggregate, EncExecutionPayload,
         SizeExecutionPayload, SizeAttestation, SizeAttesterSlashing, WfExecutionPayload, MarshalsBeaconBlockBody,
         BeaconBlockBodyParts;
    ghost var parts := BeaconBlockBodyParts(x);
    ghost var valid := MarshalsBeaconBlockBody(x);
    BodyStart(x, buf);
    var dst := buf;
    var offset := 388;
    if |x.randaoReveal| != 96 {
      return Err;
    }
    dst := PutFixed(dst, x.randaoReveal, buf, parts, 0, 388, valid);
    if !WfEth1Data(x.eth1Data) {
      return Err;
    }
    dst := PutFixed(dst, EncEth1Data(x.eth1Data), buf, parts, 1, 388, valid);
    dst := PutFixed(dst, x.graffiti, buf, parts, 2, 388, valid);
    dst := WriteOffset(dst, offset, buf, parts, 3, 388, valid);
    offset := offset + |x.proposerSlashings| * 416;
    dst := WriteOffset(dst, offset, buf, parts, 4, 388, valid);
    ghost var start := offset;
    for ii := 0 to |x.attesterSlashings|
      invariant offset == start + SizeDyn(SizeAttesterSlashing, x.attesterSlashings, ii)
    {
      offset := offset + 4;
      var n := SizeSSZAttesterSlashing(x.attesterSlashings[ii]);
      offset := offset + n;
    }
    dst := WriteOffset(dst, offset, buf, parts, 5, 388, valid);
    start := offset;
    for ii := 0 to |x.attestations|
      invariant offset == start + SizeDyn(SizeAttestation, x.attestations, ii)
    {
      offset := offset + 4;
      offset := offset + SizeAttestation(x.attestations[ii]);
    }
    dst := WriteOffset(dst, offset, buf, parts, 6, 388, valid);
    offset := offset + |x.deposits| * 1240;
    dst := WriteOffset(dst, offset, buf, parts, 7, 388, valid);
    offset := offset + |x.voluntaryExits| * 112;
    if !WfSyncAggregate(x.syncAggregate) {
      return Err;
    }
    dst := PutFixed(dst, EncSyncAggregate(x.syncAggregate), buf, parts, 8, 388, valid);
    dst := WriteOffset(dst, offset, buf, parts, 9, 388, valid);
    var n := SizeSSZExecutionPayload(x.executionPayload);
    offset := offset + n;
    dst := WriteOffset(dst, offset, buf, parts, 10, 388, valid);
    return Ok(dst);
  }

  lemma BodyStart(x: BeaconBlockBody, buf: seq<byte>)
    ensures buf == buf + Heads(BeaconBlockBodyParts(x), 0, 388) && Tails(BeaconBlockBodyParts(x), 0) == []
    ensures var ps := BeaconBlockBodyParts(x);
            && |ps| == 11
            && ps[0] == Fixed(x.randaoReveal) && ps[1] == Fixed(EncEth1Data(x.eth1Data)) && ps[2] == Fixed(x.graffiti)
            && ps[3].Var? && ps[4].Var? && ps[5].Var? && ps[6].Var? && ps[7].Var?
            && ps[8] == Fixed(EncSyncAggregate(x.syncAggregate)) && ps[9].Var? && ps[10].Var?
    ensures MarshalsBeaconBlockBody(x) ==>
              var parts := BeaconBlockBodyParts(x);
              && |parts[3].bytes| == |x.proposerSlashings| * 416
              && |parts[4].bytes| == SizeDyn(SizeAttesterSlashing, x.attesterSlashings, |x.attesterSlashings|)
              && |parts[5].bytes| == SizeDyn(SizeAttestation, x.attestations, |x.attestations|)
              && |parts[6].bytes| == |x.deposits| * 1240
              && |parts[7].bytes| == |x.voluntaryExits| * 112
              && |parts[9].bytes| == SizeExecutionPayload(x.executionPayload)
  {
    hide LE, EncDyn, EncList, EncEth1Data, EncSyncAggregate, EncExecutionPayload, SizeExecutionPayload;
    if MarshalsBeaconBlockBody(x) {
      BodyLists(x);
      ExecutionPayloadShape(x.executionPayload);
    }
  }

  method MarshalBeaconBlockBody(x: BeaconBlockBody, buf: seq<byte>) returns (r: Result<seq<byte>>)
    ensures r == if MarshalsBeaconBlockBody(x) then Ok(buf + EncBeaconBlockBody(x)) else Err
  {
    hide LE, Heads, Tails, EncDyn, EncList, EncEth1Data, EncSyncAggregate, EncExecutionPayload, WfEth1Data,
         WfSyncAggregate, WfExecutionPayload, EncBeaconBlockBody, BeaconBlockBodyParts;
    var m := MarshalBodyHeads(x, buf);
    if m.Err? {
      return Err;
    }
    m := MarshalList(m.value, x.proposerSlashings, MAX_PROPOSER_SLASHINGS, WfProposerSlashing, EncProposerSlashing);
    if m.Err? {
      return Err;
    }
    m := MarshalAttesterSlashings(m.value, x.attesterSlashings);
    if m.Err? {
      return Err;
    }
    m := MarshalAttestations(m.value, x.attestations);
    if m.Err? {
      return Err;
    }
    m := MarshalList(m.value, x.deposits, MAX_DEPOSITS, WfDeposit, EncDeposit);
    if m.Err? {
      return Err;
    }
    m := MarshalList(m.value, x.voluntaryExits, MAX_VOLUNTARY_EXITS, WfSignedVoluntaryExit, EncSignedVoluntaryExit);
    if m.Err? {
      return Err;
    }
    m := MarshalExecutionPayload(x.executionPayload, m.value);
    if m.Err? {
      return Err;
    }
    m := MarshalList(m.value, x.blsToExecutionChanges, MAX_BLS_CHANGES, WfSignedBLSToExecutionChange,
                     EncSignedBLSToExecutionChange);
    if m.Err? {
      return Err;
    }
    BodyEnd(x, buf);
    return m;
  }

  lemma BodyBodies(x: BeaconBlockBody)
    ensures Tails(BeaconBlockBodyParts(x), 11)
         == EncList(EncProposerSlashing, x.proposerSlashings) + EncDyn(EncAttesterSlashing, x.attesterSlashings)
            + EncDyn(EncAttestation, x.attestations) + EncList(EncDeposit, x.deposits)
            + EncList(EncSignedVoluntaryExit, x.voluntaryExits) + EncExecutionPayload(x.executionPayload)
            + EncList(EncSignedBLSToExecutionChange, x.blsToExecutionChanges)
  {
    hide LE, EncDyn, EncList, EncEth1Data, EncSyncAggregate, EncExecutionPayload, Tails;
    var parts := BeaconBlockBodyParts(x);
    TailsZero(parts);
    TailsSkip(parts, 0, 3);
    TailsNext(parts, 3, 4);
    TailsNext(parts, 4, 5);
    TailsNext(parts, 5, 6);
    TailsNext(parts, 6, 7);
    TailsNext(parts, 7, 9);
    TailsNext(parts, 9, 10);
    TailsNext(parts, 10, 11);
  }

  lemma BodyEnd(x: BeaconBlockBody, buf: seq<byte>)
    requires MarshalsBeaconBlockBody(x)
    ensures buf + Heads(BeaconBlockBodyParts(x), 11, 388)
            + EncList(EncProposerSlashing, x.proposerSlashings) + EncDyn(EncAttesterSlashing, x.attesterSlashings)
            + EncDyn(EncAttestation, x.attestations) + EncList(EncDeposit, x.deposits)
            + EncList(EncSignedVoluntaryExit, x.voluntaryExits) + EncExecutionPayload(x.executionPayload)
            + EncList(EncSignedBLSToExecutionChange, x.blsToExecutionChanges)
         == buf + EncBeaconBlockBody(x)
  {
    hide LE, EncDyn, EncList, LayoutLen, FixedLen, Heads, EncExecutionPayload, Tails, BeaconBlockBodyParts,
         MarshalsBeaconBlockBody;
    var parts := BeaconBlockBodyParts(x);
    BeaconBlockBodyShape(x);
    FixedLenIsLayoutLen(parts, BEACON_BLOCK_BODY, 11);
    BodyFixedSize();
    BodyBodies(x);
  }

  method MarshalBeaconBlock(x: BeaconBlock, buf: seq<byte>) returns (r: Result<seq<byte>>)
    ensures r == if MarshalsBeaconBlock(x) then Ok(buf + EncBeaconBlock(x)) else Err
  {
    hide LE, EncBeaconBlockBody, MarshalsBeaconBlockBody;
    ghost var parts := BeaconBlockParts(x);
    var dst := buf;
    var offset := 84;
    dst := PutFixed(dst, LE(x.slot, 8), buf, parts, 0, 84, true);
    dst := PutFixed(dst, LE(x.proposerIndex, 8), buf, parts, 1, 84, true);
    dst := PutFixed(dst, x.parentRoot, buf, parts, 2, 84, true);
    dst := PutFixed(dst, x.stateRoot, buf, parts, 3, 84, true);
    dst := WriteOffset(dst, offset, buf, parts, 4, 84, true);
    r := MarshalBeaconBlockBody(x.body, dst);
    if r.Ok? {
      BeaconBlockShape(x);
      TailsSkip(parts, 0, 4);
      TailsNext(parts, 4, 5);
      Written(r.value, buf, parts, BEACON_BLOCK, 84, parts[4].bytes);
    }
  }

  method MarshalSignedBeaconBlock(x: SignedBeaconBlock, buf: seq<byte>) returns (r: Result<seq<byte>>)
    ensures r == if MarshalsSignedBeaconBlock(x) then Ok(buf + EncSignedBeaconBlock(x)) else Err
  {
    hide LE, EncBeaconBlock, MarshalsBeaconBlock;
    ghost var parts := SignedBeaconBlockParts(x);
    var dst := buf;
    var offset := 100;
    dst := WriteOffset(dst, offset, buf, parts, 0, 100, true);
    if |x.signature| != 96 {
      return Err;
    }
    dst := PutFixed(dst, x.signature, buf, parts, 1, 100, true);
    r := MarshalBeaconBlock(x.block, dst);
    if r.Ok? {
      SignedBeaconBlockShape(x);
      TailsNext(parts, 0, 2);
      Written(r.value, buf, parts, SIGNED_BEACON_BLOCK, 100, parts[0].bytes);
    }
  }
}
