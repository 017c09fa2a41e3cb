/** What is true of the Capella codecs: sizes, offsets, and the round trip in both directions. */
module CapellaLaws {
  import opened Bytes
  import opened Ssz
  import opened SszLists
  import opened Containers
  import opened FixedContainers
  import opened Capella

  // ---------- sizes ----------

  /** No variable part between `i` and `j`: the tails stay as they are. */
  lemma {:induction false} TailsSkip(parts: seq<Part>, i: nat, j: nat)
    requires i <= j <= |parts| && forall k :: i <= k < j ==> parts[k].Fixed?
    ensures Tails(parts, j) == Tails(parts, i)
  {
    if i < j {
      TailsSkip(parts, i, j - 1);
    }
  }

  lemma TailsStep(parts: seq<Part>, i: nat)
    requires i < |parts| && parts[i].Var?
    ensures |Tails(parts, i + 1)| == |Tails(parts, i)| + |parts[i].bytes|
  {
  }

  lemma PayloadFixedSize()
    ensures LayoutLen(EXECUTION_PAYLOAD, 15) == 512
  {
    assert LayoutLen(EXECUTION_PAYLOAD, 5) == 372;
    assert LayoutLen(EXECUTION_PAYLOAD, 10) == 436;
  }

  lemma PayloadTails(x: ExecutionPayload)
    ensures |Tails(ExecutionPayloadParts(x), 15)|
         == |x.extraData| + |EncDyn(EncTransaction, x.transactions)| + |EncList(EncWithdrawal, x.withdrawals)|
  {
    hide EncDyn, EncList, LE, Tails;
    var parts := ExecutionPayloadParts(x);
    assert Tails(parts, 0) == [] by { TailsZero(parts); }
    TailsSkip(parts, 0, 10);
    TailsStep(parts, 10);
    TailsSkip(parts, 11, 13);
    TailsStep(parts, 13);
    TailsStep(parts, 14);
  }

  lemma TailsZero(parts: seq<Part>)
    ensures Tails(parts, 0) == []
  {
  }

  lemma ExecutionPayloadShape(x: ExecutionPayload)
    requires WfExecutionPayload(x)
    ensures Matches(ExecutionPayloadParts(x), EXECUTION_PAYLOAD)
    ensures |EncExecutionPayload(x)| == SizeExecutionPayload(x)
  {
    hide EncDyn, EncList, LE, Tails, LayoutLen, FixedLen, Heads;
    FixedLenIsLayoutLen(ExecutionPayloadParts(x), EXECUTION_PAYLOAD, 15);
    PayloadFixedSize();
    PayloadTails(x);
    EncDynLen(EncTransaction, SizeTransaction, x.transactions);
    WithdrawalExact();
    EncListLen(WfWithdrawal, EncWithdrawal, 44, x.withdrawals);
  }

  lemma BodyFixedSize()
    ensures LayoutLen(BEACON_BLOCK_BODY, 11) == 388
  {
    assert LayoutLen(BEACON_BLOCK_BODY, 5) == 208;
  }

  lemma BodyTails(x: BeaconBlockBody)
    ensures |Tails(BeaconBlockBodyParts(x), 11)|
         == |EncList(EncProposerSlashing, x.proposerSlashings)| + |EncDyn(EncAttesterSlashing, x.attesterSlashings)|
          + |EncDyn(EncAttestation, x.attestations)| + |EncList(EncDeposit, x.deposits)|
          + |EncList(EncSignedVoluntaryExit, x.voluntaryExits)| + |EncExecutionPayload(x.executionPayload)|
          + |EncList(EncSignedBLSToExecutionChange, x.blsToExecutionChanges)|
  {
    hide EncDyn, EncList, EncEth1Data, EncSyncAggregate, EncExecutionPayload, Tails;
    var parts := BeaconBlockBodyParts(x);
    TailsZero(parts);
    TailsSkip(parts, 0, 3);
    TailsStep(parts, 3);
    TailsStep(parts, 4);
    TailsStep(parts, 5);
    TailsStep(parts, 6);
    TailsStep(parts, 7);
    TailsSkip(parts, 8, 9);
    TailsStep(parts, 9);
    TailsStep(parts, 10);
  }

  lemma BodyLists(x: BeaconBlockBody)
    requires MarshalsBeaconBlockBody(x)
    ensures |EncList(EncProposerSlashing, x.proposerSlashings)| == |x.proposerSlashings| * 416
    ensures |EncDyn(EncAttesterSlashing, x.attesterSlashings)|
         == SizeDyn(SizeAttesterSlashing, x.attesterSlashings, |x.attesterSlashings|)
    ensures |EncDyn(EncAttestation, x.attestations)| == SizeDyn(SizeAttestation, x.attestations, |x.attestations|)
    ensures |EncList(EncDeposit, x.deposits)| == |x.deposits| * 1240
    ensures |EncList(EncSignedVoluntaryExit, x.voluntaryExits)| == |x.voluntaryExits| * 112
    ensures |EncList(EncSignedBLSToExecutionChange, x.blsToExecutionChanges)| == |x.blsToExecutionChanges| * 172
  {
    hide EncDyn, EncList, SizeDyn, EncAttestation, EncAttesterSlashing, EncProposerSlashing, EncDeposit,
         EncSignedVoluntaryExit, EncSignedBLSToExecutionChange, SizeAttestation, SizeAttesterSlashing;
    ProposerSlashingExact();
    EncListLen(WfProposerSlashing, EncProposerSlashing, 416, x.proposerSlashings);
    forall i | 0 <= i < |x.attesterSlashings|
      ensures |EncAttesterSlashing(x.attesterSlashings[i])| == SizeAttesterSlashing(x.attesterSlashings[i])
    {
      AttesterSlashingShape(x.attesterSlashings[i]);
    }
    EncDynLen(EncAttesterSlashing, SizeAttesterSlashing, x.attesterSlashings);
    forall i | 0 <= i < |x.attestations|
      ensures |EncAttestation(x.attestations[i])| == SizeAttestation(x.attestations[i])
    {
      AttestationShape(x.attestations[i]);
    }
    EncDynLen(EncAttestation, SizeAttestation, x.attestations);
    DepositExact();
    EncListLen(WfDeposit, EncDeposit, 1240, x.deposits);
    SignedVoluntaryExitExact();
    EncListLen(WfSignedVoluntaryExit, EncSignedVoluntaryExit, 112, x.voluntaryExits);
    SignedBLSToExecutionChangeExact();
    EncListLen(WfSignedBLSToExecutionChange, EncSignedBLSToExecutionChange, 172, x.blsToExecutionChanges);
  }

  lemma BeaconBlockBodyShape(x: BeaconBlockBody)
    requires MarshalsBeaconBlockBody(x)
    ensures Matches(BeaconBlockBodyParts(x), BEACON_BLOCK_BODY)
    ensures |EncBeaconBlockBody(x)| == SizeBeaconBlockBody(x)
  {
    hide EncDyn, EncList, EncEth1Data, EncSyncAggregate, EncExecutionPayload, Tails, LayoutLen, FixedLen, Heads,
         SizeDyn, SizeExecutionPayload;
    Eth1DataExact();
    SyncAggregateExact();
    assert Matches(BeaconBlockBodyParts(x), BEACON_BLOCK_BODY);
    FixedLenIsLayoutLen(BeaconBlockBodyParts(x), BEACON_BLOCK_BODY, 11);
    BodyFixedSize();
    BodyTails(x);
    BodyLists(x);
    ExecutionPayloadShape(x.executionPayload);
  }

  lemma BeaconBlockShape(x: BeaconBlock)
    requires MarshalsBeaconBlock(x)
    ensures Matches(BeaconBlockParts(x), BEACON_BLOCK) && |EncBeaconBlock(x)| == SizeBeaconBlock(x)
  {
    hide EncBeaconBlockBody, SizeBeaconBlockBody, MarshalsBeaconBlockBody, LE, Heads, Tails;
    BeaconBlockBodyShape(x.body);
    var parts := BeaconBlockParts(x);
    FixedLenIsLayoutLen(parts, BEACON_BLOCK, 5);
    TailsZero(parts);
    TailsSkip(parts, 0, 4);
    TailsStep(parts, 4);
  }

  /** What SizeSSZ computes is the number of bytes MarshalSSZ writes. */
  lemma SignedBeaconBlockShape(x: SignedBeaconBlock)
    requires MarshalsSignedBeaconBlock(x)
    ensures Matches(SignedBeaconBlockParts(x), SIGNED_BEACON_BLOCK)
    ensures |EncSignedBeaconBlock(x)| == SizeSignedBeaconBlock(x)
  {
    hide EncBeaconBlock, SizeBeaconBlock, Heads;
    BeaconBlockShape(x.block);
    var parts := SignedBeaconBlockParts(x);
    FixedLenIsLayoutLen(parts, SIGNED_BEACON_BLOCK, 2);
    TailsSkip(parts, 1, 2);
  }

  // ---------- exactness ----------

  lemma TransactionExact()
    ensures Exact(WfTransaction, EncTransaction, DecTransaction)
  {
    forall b: seq<byte>, t: seq<byte> | |b| < TWO32
      ensures DecTransaction(b) == Some(t) <==> WfTransaction(t) && EncTransaction(t) == b
    {
    }
  }

  lemma ExecutionPayloadFields(ps: seq<Part>, x: ExecutionPayload)
    requires Matches(ps, EXECUTION_PAYLOAD) && Short(ps)
    ensures ExecutionPayloadOf(ps) == Some(x) <==> WfExecutionPayload(x) && ExecutionPayloadParts(x) == ps
  {
    hide DecDyn, DecList, EncDyn, EncList, LE, Uint64;
    WithdrawalExact();
    TransactionExact();
    WordPart(x.blockNumber, ps[6]);
    WordPart(x.gasLimit, ps[7]);
    WordPart(x.gasUsed, ps[8]);
    WordPart(x.timestamp, ps[9]);
    DynExact(WfTransaction, EncTransaction, DecTransaction, MAX_TRANSACTIONS, ps[13].bytes, x.transactions);
    ListExact(WfWithdrawal, EncWithdrawal, DecWithdrawal, 44, MAX_WITHDRAWALS, ps[14].bytes, x.withdrawals);
  }

  lemma ExecutionPayloadExact()
    ensures Exact(WfExecutionPayload, EncExecutionPayload, DecExecutionPayload)
  {
    hide Split, Assemble, ExecutionPayloadParts, ExecutionPayloadOf, WfExecutionPayload;
    forall x: ExecutionPayload | WfExecutionPayload(x)
      ensures Matches(ExecutionPayloadParts(x), EXECUTION_PAYLOAD)
    {
      ExecutionPayloadShape(x);
    }
    forall ps: seq<Part>, x: ExecutionPayload | Matches(ps, EXECUTION_PAYLOAD) && Short(ps)
      ensures ExecutionPayloadOf(ps) == Some(x) <==> WfExecutionPayload(x) && ExecutionPayloadParts(x) == ps
    {
      ExecutionPayloadFields(ps, x);
    }
    ContainerExact(WfExecutionPayload, ExecutionPayloadParts, EXECUTION_PAYLOAD, ExecutionPayloadOf,
                   EncExecutionPayload, DecExecutionPayload);
  }

  lemma BodyFixedFields(ps: seq<Part>, x: BeaconBlockBody)
    requires Matches(ps, BEACON_BLOCK_BODY) && Short(ps)
    ensures DecEth1Data(ps[1].bytes) == Some(x.eth1Data)
       <==> WfEth1Data(x.eth1Data) && EncEth1Data(x.eth1Data) == ps[1].bytes
    ensures DecSyncAggregate(ps[8].bytes) == Some(x.syncAggregate)
       <==> WfSyncAggregate(x.syncAggregate) && EncSyncAggregate(x.syncAggregate) == ps[8].bytes
    ensures DecExecutionPayload(ps[9].bytes) == Some(x.executionPayload)
       <==> WfExecutionPayload(x.executionPayload) && EncExecutionPayload(x.executionPayload) == ps[9].bytes
  {
    Eth1DataExact();
    SyncAggregateExact();
    ExecutionPayloadExact();
    Field(WfEth1Data, EncEth1Data, DecEth1Data, ps[1].bytes, x.eth1Data);
    Field(WfSyncAggregate, EncSyncAggregate, DecSyncAggregate, ps[8].bytes, x.syncAggregate);
    Field(WfExecutionPayload, EncExecutionPayload, DecExecutionPayload, ps[9].bytes, x.executionPayload);
  }

  lemma BodyFixedLists(ps: seq<Part>, x: BeaconBlockBody)
    requires Matches(ps, BEACON_BLOCK_BODY) && Short(ps)
    ensures DecList(DecProposerSlashing, 416, MAX_PROPOSER_SLASHINGS, ps[3].bytes) == Some(x.proposerSlashings)
       <==> && |x.proposerSlashings| <= MAX_PROPOSER_SLASHINGS && AllWf(WfProposerSlashing, x.proposerSlashings)
            && EncList(EncProposerSlashing, x.proposerSlashings) == ps[3].bytes
    ensures DecList(DecDeposit, 1240, MAX_DEPOSITS, ps[6].bytes) == Some(x.deposits)
       <==> && |x.deposits| <= MAX_DEPOSITS && AllWf(WfDeposit, x.deposits)
            && EncList(EncDeposit, x.deposits) == ps[6].bytes
    ensures DecList(DecSignedVoluntaryExit, 112, MAX_VOLUNTARY_EXITS, ps[7].bytes) == Some(x.voluntaryExits)
       <==> && |x.voluntaryExits| <= MAX_VOLUNTARY_EXITS && AllWf(WfSignedVoluntaryExit, x.voluntaryExits)
            && EncList(EncSignedVoluntaryExit, x.voluntaryExits) == ps[7].bytes
    ensures DecList(DecSignedBLSToExecutionChange, 172, MAX_BLS_CHANGES, ps[10].bytes) == Some(x.blsToExecutionChanges)
       <==> && |x.blsToExecutionChanges| <= MAX_BLS_CHANGES
            && AllWf(WfSignedBLSToExecutionChange, x.blsToExecutionChanges)
            && EncList(EncSignedBLSToExecutionChange, x.blsToExecutionChanges) == ps[10].bytes
  {
    hide DecList, EncList;
    ProposerSlashingExact();
    ListExact(WfProposerSlashing, EncProposerSlashing, DecProposerSlashing, 416, MAX_PROPOSER_SLASHINGS,
              ps[3].bytes, x.proposerSlashings);
    DepositExact();
    ListExact(WfDeposit, EncDeposit, DecDeposit, 1240, MAX_DEPOSITS, ps[6].bytes, x.deposits);
    SignedVoluntaryExitExact();
    ListExact(WfSignedVoluntaryExit, EncSignedVoluntaryExit, DecSignedVoluntaryExit, 112, MAX_VOLUNTARY_EXITS,
              ps[7].bytes, x.voluntaryExits);
    SignedBLSToExecutionChangeExact();
    ListExact(WfSignedBLSToExecutionChange, EncSignedBLSToExecutionChange, DecSignedBLSToExecutionChange, 172,
              MAX_BLS_CHANGES, ps[10].bytes, x.blsToExecutionChanges);
  }

  lemma BodyDynLists(ps: seq<Part>, x: BeaconBlockBody)
    requires Matches(ps, BEACON_BLOCK_BODY) && Short(ps)
    ensures DecDyn(DecAttesterSlashing, MAX_ATTESTER_SLASHINGS, ps[4].bytes) == Some(x.attesterSlashings)
       <==> && |x.attesterSlashings| <= MAX_ATTESTER_SLASHINGS && AllWf(WfAttesterSlashing, x.attesterSlashings)
            && EncDyn(EncAttesterSlashing, x.attesterSlashings) == ps[4].bytes
    ensures DecDyn(DecAttestation, MAX_ATTESTATIONS, ps[5].bytes) == Some(x.attestations)
       <==> && |x.attestations| <= MAX_ATTESTATIONS && AllWf(WfAttestation, x.attestations)
            && EncDyn(EncAttestation, x.attestations) == ps[5].bytes
  {
    hide DecDyn, EncDyn;
    AttesterSlashingExact();
    DynExact(WfAttesterSlashing, EncAttesterSlashing, DecAttesterSlashing, MAX_ATTESTER_SLASHINGS,
             ps[4].bytes, x.attesterSlashings);
    AttestationExact();
    DynExact(WfAttestation, EncAttestation, DecAttestation, MAX_ATTESTATIONS, ps[5].bytes, x.attestations);
  }

  lemma BeaconBlockBodyFields(ps: seq<Part>, x: BeaconBlockBody)
    requires Matches(ps, BEACON_BLOCK_BODY) && Short(ps)
    ensures BeaconBlockBodyOf(ps) == Some(x) <==> WfBeaconBlockBody(x) && BeaconBlockBodyParts(x) == ps
  {
    hide DecDyn, DecList, EncDyn, EncList, EncEth1Data, EncSyncAggregate, EncExecutionPayload,
         DecEth1Data, DecSyncAggregate, DecExecutionPayload, WfEth1Data, WfSyncAggregate, WfExecutionPayload;
    BodyFixedFields(ps, x);
    BodyFixedLists(ps, x);
    BodyDynLists(ps, x);
  }

  lemma BeaconBlockBodyExact()
    ensures Exact(WfBeaconBlockBody, EncBeaconBlockBody, DecBeaconBlockBody)
  {
    hide Split, Assemble, BeaconBlockBodyParts, BeaconBlockBodyOf;
    forall x: BeaconBlockBody | WfBeaconBlockBody(x)
      ensures Matches(BeaconBlockBodyParts(x), BEACON_BLOCK_BODY)
    {
      BeaconBlockBodyShape(x);
    }
    forall ps: seq<Part>, x: BeaconBlockBody | Matches(ps, BEACON_BLOCK_BODY) && Short(ps)
      ensures BeaconBlockBodyOf(ps) == Some(x) <==> WfBeaconBlockBody(x) && BeaconBlockBodyParts(x) == ps
    {
      BeaconBlockBodyFields(ps, x);
    }
    ContainerExact(WfBeaconBlockBody, BeaconBlockBodyParts, BEACON_BLOCK_BODY, BeaconBlockBodyOf,
                   EncBeaconBlockBody, DecBeaconBlockBody);
  }

  lemma BeaconBlockExact()
    ensures Exact(WfBeaconBlock, EncBeaconBlock, DecBeaconBlock)
  {
    hide Split, Assemble, LE, Uint64, WfBeaconBlockBody, EncBeaconBlockBody, DecBeaconBlockBody;
    BeaconBlockBodyExact();
    forall ps: seq<Part>, x: BeaconBlock | Matches(ps, BEACON_BLOCK) && Short(ps)
      ensures BeaconBlockOf(ps) == Some(x) <==> WfBeaconBlock(x) && BeaconBlockParts(x) == ps
    {
      WordPart(x.slot, ps[0]);
      WordPart(x.proposerIndex, ps[1]);
      Field(WfBeaconBlockBody, EncBeaconBlockBody, DecBeaconBlockBody, ps[4].bytes, x.body);
    }
    ContainerExact(WfBeaconBlock, BeaconBlockParts, BEACON_BLOCK, BeaconBlockOf, EncBeaconBlock, DecBeaconBlock);
  }

  /**
    Below 2^32 bytes, the reader returns a signed block from a buffer exactly when the block is
    well formed and the buffer is what the writer makes of it.
   */
  lemma SignedBeaconBlockExact()
    ensures Exact(WfSignedBeaconBlock, EncSignedBeaconBlock, DecSignedBeaconBlock)
  {
    hide Split, Assemble, WfBeaconBlock, EncBeaconBlock, DecBeaconBlock;
    BeaconBlockExact();
    forall ps: seq<Part>, x: SignedBeaconBlock | Matches(ps, SIGNED_BEACON_BLOCK) && Short(ps)
      ensures SignedBeaconBlockOf(ps) == Some(x) <==> WfSignedBeaconBlock(x) && SignedBeaconBlockParts(x) == ps
    {
      Field(WfBeaconBlock, EncBeaconBlock, DecBeaconBlock, ps[0].bytes, x.block);
    }
    ContainerExact(WfSignedBeaconBlock, SignedBeaconBlockParts, SIGNED_BEACON_BLOCK, SignedBeaconBlockOf,
                   EncSignedBeaconBlock, DecSignedBeaconBlock);
  }

  // ---------- bitlists without a length bit ----------

  lemma RefusedAttestation(a: Attestation)
    requires MarshalsAttestation(a) && !HasLengthBit(a.aggregationBits) && |EncAttestation(a)| < TWO32
    ensures DecAttestation(EncAttestation(a)) == None
  {
    hide Split, Assemble, DecAttestationData, EncAttestationData, BitlistLen;
    AttestationShape(a);
    AssembleThenSplit(AttestationParts(a), ATTESTATION);
  }

  lemma RefusedElement<T>(enc: T -> seq<byte>, dec: seq<byte> -> Option<T>, max: nat, xs: seq<T>, i: nat)
    requires |xs| <= max && |EncDyn(enc, xs)| < TWO32 && i < |xs| && dec(enc(xs[i])) == None
    ensures DecDyn(dec, max, EncDyn(enc, xs)) == None
  {
    hide Assemble, DynSplit;
    AssembleThenDynSplit(EncAll(enc, xs), max);
    assert EncAll(enc, xs)[i] == enc(xs[i]);
  }

  lemma RefusedAttestations(xs: seq<Attestation>, i: nat)
    requires |xs| <= MAX_ATTESTATIONS && AllWf(MarshalsAttestation, xs) && |EncDyn(EncAttestation, xs)| < TWO32
    requires i < |xs| && !HasLengthBit(xs[i].aggregationBits)
    ensures DecDyn(DecAttestation, MAX_ATTESTATIONS, EncDyn(EncAttestation, xs)) == None
  {
    hide Assemble, EncAttestation, DecAttestation, DecDyn;
    ShortElements(EncAll(EncAttestation, xs));
    assert EncAll(EncAttestation, xs)[i] == EncAttestation(xs[i]);
    RefusedAttestation(xs[i]);
    RefusedElement(EncAttestation, DecAttestation, MAX_ATTESTATIONS, xs, i);
  }

  lemma RefusedBody(x: BeaconBlockBody, i: nat)
    requires MarshalsBeaconBlockBody(x) && |EncBeaconBlockBody(x)| < TWO32
    requires i < |x.attestations| && !HasLengthBit(x.attestations[i].aggregationBits)
    ensures DecBeaconBlockBody(EncBeaconBlockBody(x)) == None
  {
    hide Split, Assemble, DecDyn, DecList, EncDyn, EncList, EncEth1Data, EncSyncAggregate, EncExecutionPayload,
         DecEth1Data, DecSyncAggregate, DecExecutionPayload, WfEth1Data, WfSyncAggregate, WfExecutionPayload;
    BeaconBlockBodyShape(x);
    var ps := BeaconBlockBodyParts(x);
    AssembleThenSplit(ps, BEACON_BLOCK_BODY);
    PartsAreShort(ps);
    assert |ps[5].bytes| < TWO32;
    RefusedAttestations(x.attestations, i);
  }

  lemma RefusedBlock(x: BeaconBlock, i: nat)
    requires MarshalsBeaconBlock(x) && |EncBeaconBlock(x)| < TWO32
    requires i < |x.body.attestations| && !HasLengthBit(x.body.attestations[i].aggregationBits)
    ensures DecBeaconBlock(EncBeaconBlock(x)) == None
  {
    hide Split, Assemble, LE, Uint64, MarshalsBeaconBlockBody, EncBeaconBlockBody, DecBeaconBlockBody;
    BeaconBlockShape(x);
    var ps := BeaconBlockParts(x);
    AssembleThenSplit(ps, BEACON_BLOCK);
    PartsAreShort(ps);
    assert |ps[4].bytes| < TWO32;
    RefusedBody(x.body, i);
  }

  lemma RefusedSignedBlock(x: SignedBeaconBlock, i: nat)
    requires MarshalsSignedBeaconBlock(x) && |EncSignedBeaconBlock(x)| < TWO32
    requires i < |x.block.body.attestations| && !HasLengthBit(x.block.body.attestations[i].aggregationBits)
    ensures DecSignedBeaconBlock(EncSignedBeaconBlock(x)) == None
  {
    hide Split, Assemble, MarshalsBeaconBlock, EncBeaconBlock, DecBeaconBlock;
    SignedBeaconBlockShape(x);
    var ps := SignedBeaconBlockParts(x);
    AssembleThenSplit(ps, SIGNED_BEACON_BLOCK);
    PartsAreShort(ps);
    assert |ps[0].bytes| < TWO32;
    RefusedBlock(x.block, i);
  }

  predicate AllHaveLengthBit(x: SignedBeaconBlock) {
    forall i :: 0 <= i < |x.block.body.attestations| ==> HasLengthBit(x.block.body.attestations[i].aggregationBits)
  }

  /**
    What the reader makes of a block the marshaller lets through, below 2^32 bytes: the same block
    if all aggregation bitlists carry a length bit, and nothing otherwise.
   */
  lemma RoundTrip(x: SignedBeaconBlock)
    requires MarshalsSignedBeaconBlock(x) && SizeSignedBeaconBlock(x) < TWO32
    ensures DecSignedBeaconBlock(EncSignedBeaconBlock(x)) == if AllHaveLengthBit(x) then Some(x) else None
  {
    hide EncSignedBeaconBlock, DecSignedBeaconBlock, SizeSignedBeaconBlock, BitlistLen;
    SignedBeaconBlockShape(x);
    SignedBeaconBlockExact();
    var b := EncSignedBeaconBlock(x);
    Field(WfSignedBeaconBlock, EncSignedBeaconBlock, DecSignedBeaconBlock, b, x);
    var atts := x.block.body.attestations;
    if forall i :: 0 <= i < |atts| ==> HasLengthBit(atts[i].aggregationBits) {
      assert AllWf(WfAttestation, atts);
    } else {
      var i :| 0 <= i < |atts| && !HasLengthBit(atts[i].aggregationBits);
      RefusedSignedBlock(x, i);
    }
  }

  /** A block of zeros with one attestation that carries `bits`. */
  function BlockWith(bits: seq<byte>): SignedBeaconBlock {
    var root := Zeros(32);
    var data := AttestationData(0, 0, root, Checkpoint(0, root), Checkpoint(0, root));
    var payload := ExecutionPayload(
                     root, Zeros(20), root, root, Zeros(256), root, 0, 0, 0, 0, [], root, root, [], []);
    var body := BeaconBlockBody(
                  Zeros(96), Eth1Data(root, 0, root), root, [], [], [Attestation(bits, data, Zeros(96))], [], [],
                  SyncAggregate(Zeros(64), Zeros(96)), payload, []);
    SignedBeaconBlock(BeaconBlock(0, 0, root, root, body), Zeros(96))
  }

  /** Its bitlist is the single byte 0: the marshaller accepts the block and the reader refuses what it wrote. */
  lemma WrittenAndRefused()
    ensures var x := BlockWith([0]);
            && MarshalsSignedBeaconBlock(x) && SizeSignedBeaconBlock(x) < TWO32
            && DecSignedBeaconBlock(EncSignedBeaconBlock(x)) == None
  {
    hide EncSignedBeaconBlock, DecSignedBeaconBlock, BlockWith, MarshalsSignedBeaconBlock, SizeSignedBeaconBlock;
    BareBlock();
    RoundTrip(BlockWith([0]));
  }

  lemma BareBlock()
    ensures var x := BlockWith([0]);
            && MarshalsSignedBeaconBlock(x) && SizeSignedBeaconBlock(x) < TWO32
            && |x.block.body.attestations| == 1 && !HasLengthBit(x.block.body.attestations[0].aggregationBits)
  {
    hide Zeros, BitLen8;
    assert SizeDyn(SizeAttestation, BlockWith([0]).block.body.attestations, 1) == 233;
  }

  /** No two buffers below 2^32 bytes read as one block, and no two blocks write one buffer. */
  lemma Canonical(b: seq<byte>, x: SignedBeaconBlock)
    requires |b| < TWO32 && DecSignedBeaconBlock(b) == Some(x)
    ensures WfSignedBeaconBlock(x) && EncSignedBeaconBlock(x) == b && |b| == SizeSignedBeaconBlock(x)
  {
    hide EncSignedBeaconBlock, DecSignedBeaconBlock, SizeSignedBeaconBlock;
    SignedBeaconBlockExact();
    Field(WfSignedBeaconBlock, EncSignedBeaconBlock, DecSignedBeaconBlock, b, x);
    SignedBeaconBlockShape(x);
  }
}
