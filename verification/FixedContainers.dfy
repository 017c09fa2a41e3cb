/**
  The fixed-size containers of a Capella block. Fields the source declares as fixed arrays are
  subset types here; fields it declares as slices may have any length, and `Wf` says which
  lengths its marshaller lets through.
 */
module FixedContainers {
  import opened Bytes
  import opened Ssz
  import opened SszLists
  import opened Containers

  // ---------- Checkpoint: a vote target: an epoch and its root ----------
  datatype Checkpoint = Checkpoint(epoch: u64, root: seq<byte>)

  const CHECKPOINT: seq<Kind> := [FixedOf(8), FixedOf(32)]

  predicate WfCheckpoint(x: Checkpoint) {
    |x.root| == 32
  }

  function CheckpointParts(x: Checkpoint): seq<Part> {
    [Fixed(LE(x.epoch, 8)), Fixed(x.root)]
  }

  function EncCheckpoint(x: Checkpoint): seq<byte> {
    Assemble(CheckpointParts(x))
  }

  function DecCheckpoint(b: seq<byte>): Option<Checkpoint> {
    Cut(CHECKPOINT, CheckpointOf, b)
  }

  function CheckpointOf(ps: seq<Part>): Option<Checkpoint> {
    if !Matches(ps, CHECKPOINT) then None
    else
      Some(Checkpoint(Uint64(ps[0].bytes), ps[1].bytes))
  }

  lemma CheckpointExact()
    ensures Exact(WfCheckpoint, EncCheckpoint, DecCheckpoint)
    ensures forall x :: WfCheckpoint(x) ==> |EncCheckpoint(x)| == 40
  {
    hide Split, Assemble, LE, Uint64;
    forall x: Checkpoint | WfCheckpoint(x)
      ensures Matches(CheckpointParts(x), CHECKPOINT) && |EncCheckpoint(x)| == 40
    {
      FixedContainerLen(CheckpointParts(x), CHECKPOINT);
    }
    forall ps: seq<Part>, x: Checkpoint | Matches(ps, CHECKPOINT) && Short(ps)
      ensures CheckpointOf(ps) == Some(x) <==> WfCheckpoint(x) && CheckpointParts(x) == ps
    {
      WordPart(x.epoch, ps[0]);
    }
    ContainerExact(WfCheckpoint, CheckpointParts, CHECKPOINT, CheckpointOf, EncCheckpoint, DecCheckpoint);
  }

  // ---------- AttestationData: what an attester votes for ----------
  datatype AttestationData = AttestationData(slot: u64, index: u64, beaconBlockHash: Bytes32, source: Checkpoint,
      target: Checkpoint)

  const ATTESTATION_DATA: seq<Kind> := [FixedOf(8), FixedOf(8), FixedOf(32), FixedOf(40), FixedOf(40)]

  predicate WfAttestationData(x: AttestationData) {
    WfCheckpoint(x.source) && WfCheckpoint(x.target)
  }

  function AttestationDataParts(x: AttestationData): seq<Part> {
    [Fixed(LE(x.slot, 8)),
     Fixed(LE(x.index, 8)),
     Fixed(x.beaconBlockHash),
     Fixed(EncCheckpoint(x.source)),
     Fixed(EncCheckpoint(x.target))]
  }

  function EncAttestationData(x: AttestationData): seq<byte> {
    Assemble(AttestationDataParts(x))
  }

  function DecAttestationData(b: seq<byte>): Option<AttestationData> {
    Cut(ATTESTATION_DATA, AttestationDataOf, b)
  }

  function AttestationDataOf(ps: seq<Part>): Option<AttestationData> {
    if !Matches(ps, ATTESTATION_DATA) then None
    else
      var source := DecCheckpoint(ps[3].bytes);
      var target := DecCheckpoint(ps[4].bytes);
      if source.Some? && target.Some? then Some(AttestationData(Uint64(ps[0].bytes), Uint64(ps[1].bytes), ps[2].bytes,
          source.value, target.value)) else None
  }

  lemma AttestationDataExact()
    ensures Exact(WfAttestationData, EncAttestationData, DecAttestationData)
    ensures forall x :: WfAttestationData(x) ==> |EncAttestationData(x)| == 128
  {
    hide Split, Assemble, LE, Uint64;
    CheckpointExact();
    forall x: AttestationData | WfAttestationData(x)
      ensures Matches(AttestationDataParts(x), ATTESTATION_DATA) && |EncAttestationData(x)| == 128
    {
      FixedContainerLen(AttestationDataParts(x), ATTESTATION_DATA);
    }
    forall ps: seq<Part>, x: AttestationData | Matches(ps, ATTESTATION_DATA) && Short(ps)
      ensures AttestationDataOf(ps) == Some(x) <==> WfAttestationData(x) && AttestationDataParts(x) == ps
    {
      WordPart(x.slot, ps[0]);
      WordPart(x.index, ps[1]);
      Field(WfCheckpoint, EncCheckpoint, DecCheckpoint, ps[3].bytes, x.source);
      Field(WfCheckpoint, EncCheckpoint, DecCheckpoint, ps[4].bytes, x.target);
    }
    ContainerExact(WfAttestationData, AttestationDataParts, ATTESTATION_DATA, AttestationDataOf, EncAttestationData,
        DecAttestationData);
  }

  // ---------- BeaconBlockHeader: a block header ----------
  datatype BeaconBlockHeader = BeaconBlockHeader(slot: u64, proposerIndex: u64, parentRoot: seq<byte>,
      stateRoot: seq<byte>, bodyRoot: seq<byte>)

  const BEACON_BLOCK_HEADER: seq<Kind> := [FixedOf(8), FixedOf(8), FixedOf(32), FixedOf(32), FixedOf(32)]

  predicate WfBeaconBlockHeader(x: BeaconBlockHeader) {
    |x.parentRoot| == 32 && |x.stateRoot| == 32 && |x.bodyRoot| == 32
  }

  function BeaconBlockHeaderParts(x: BeaconBlockHeader): seq<Part> {
    [Fixed(LE(x.slot, 8)),
     Fixed(LE(x.proposerIndex, 8)),
     Fixed(x.parentRoot),
     Fixed(x.stateRoot),
     Fixed(x.bodyRoot)]
  }

  function EncBeaconBlockHeader(x: BeaconBlockHeader): seq<byte> {
    Assemble(BeaconBlockHeaderParts(x))
  }

  function DecBeaconBlockHeader(b: seq<byte>): Option<BeaconBlockHeader> {
    Cut(BEACON_BLOCK_HEADER, BeaconBlockHeaderOf, b)
  }

  function BeaconBlockHeaderOf(ps: seq<Part>): Option<BeaconBlockHeader> {
    if !Matches(ps, BEACON_BLOCK_HEADER) then None
    else
      Some(BeaconBlockHeader(Uint64(ps[0].bytes), Uint64(ps[1].bytes), ps[2].bytes, ps[3].bytes, ps[4].bytes))
  }

  lemma BeaconBlockHeaderExact()
    ensures Exact(WfBeaconBlockHeader, EncBeaconBlockHeader, DecBeaconBlockHeader)
    ensures forall x :: WfBeaconBlockHeader(x) ==> |EncBeaconBlockHeader(x)| == 112
  {
    hide Split, Assemble, LE, Uint64;
    forall x: BeaconBlockHeader | WfBeaconBlockHeader(x)
      ensures Matches(BeaconBlockHeaderParts(x), BEACON_BLOCK_HEADER) && |EncBeaconBlockHeader(x)| == 112
    {
      FixedContainerLen(BeaconBlockHeaderParts(x), BEACON_BLOCK_HEADER);
    }
    forall ps: seq<Part>, x: BeaconBlockHeader | Matches(ps, BEACON_BLOCK_HEADER) && Short(ps)
      ensures BeaconBlockHeaderOf(ps) == Some(x) <==> WfBeaconBlockHeader(x) && BeaconBlockHeaderParts(x) == ps
    {
      WordPart(x.slot, ps[0]);
      WordPart(x.proposerIndex, ps[1]);
    }
    ContainerExact(WfBeaconBlockHeader, BeaconBlockHeaderParts, BEACON_BLOCK_HEADER, BeaconBlockHeaderOf,
        EncBeaconBlockHeader, DecBeaconBlockHeader);
  }

  // ---------- SignedBeaconBlockHeader: a signed block header ----------
  datatype SignedBeaconBlockHeader = SignedBeaconBlockHeader(header: BeaconBlockHeader, signature: seq<byte>)

  const SIGNED_BEACON_BLOCK_HEADER: seq<Kind> := [FixedOf(112), FixedOf(96)]

  predicate WfSignedBeaconBlockHeader(x: SignedBeaconBlockHeader) {
    WfBeaconBlockHeader(x.header) && |x.signature| == 96
  }

  function SignedBeaconBlockHeaderParts(x: SignedBeaconBlockHeader): seq<Part> {
    [Fixed(EncBeaconBlockHeader(x.header)), Fixed(x.signature)]
  }

  function EncSignedBeaconBlockHeader(x: SignedBeaconBlockHeader): seq<byte> {
    Assemble(SignedBeaconBlockHeaderParts(x))
  }

  function DecSignedBeaconBlockHeader(b: seq<byte>): Option<SignedBeaconBlockHeader> {
    Cut(SIGNED_BEACON_BLOCK_HEADER, SignedBeaconBlockHeaderOf, b)
  }

  function SignedBeaconBlockHeaderOf(ps: seq<Part>): Option<SignedBeaconBlockHeader> {
    if !Matches(ps, SIGNED_BEACON_BLOCK_HEADER) then None
    else
      var header := DecBeaconBlockHeader(ps[0].bytes);
      if header.Some? then Some(SignedBeaconBlockHeader(header.value, ps[1].bytes)) else None
  }

  lemma SignedBeaconBlockHeaderExact()
    ensures Exact(WfSignedBeaconBlockHeader, EncSignedBeaconBlockHeader, DecSignedBeaconBlockHeader)
    ensures forall x :: WfSignedBeaconBlockHeader(x) ==> |EncSignedBeaconBlockHeader(x)| == 208
  {
    hide Split, Assemble, LE, Uint64;
    BeaconBlockHeaderExact();
    forall x: SignedBeaconBlockHeader | WfSignedBeaconBlockHeader(x)
      ensures Matches(SignedBeaconBlockHeaderParts(x), SIGNED_BEACON_BLOCK_HEADER) &&
              |EncSignedBeaconBlockHeader(x)| == 208
    {
      FixedContainerLen(SignedBeaconBlockHeaderParts(x), SIGNED_BEACON_BLOCK_HEADER);
    }
    forall ps: seq<Part>, x: SignedBeaconBlockHeader | Matches(ps, SIGNED_BEACON_BLOCK_HEADER) && Short(ps)
      ensures SignedBeaconBlockHeaderOf(ps) == Some(x) <==>
              WfSignedBeaconBlockHeader(x) && SignedBeaconBlockHeaderParts(x) == ps
    {
      Field(WfBeaconBlockHeader, EncBeaconBlockHeader, DecBeaconBlockHeader, ps[0].bytes, x.header);
    }
    ContainerExact(WfSignedBeaconBlockHeader, SignedBeaconBlockHeaderParts, SIGNED_BEACON_BLOCK_HEADER,
        SignedBeaconBlockHeaderOf, EncSignedBeaconBlockHeader, DecSignedBeaconBlockHeader);
  }

  // ---------- ProposerSlashing: two conflicting headers of one proposer ----------
  datatype ProposerSlashing = ProposerSlashing(header1: SignedBeaconBlockHeader, header2: SignedBeaconBlockHeader)

  const PROPOSER_SLASHING: seq<Kind> := [FixedOf(208), FixedOf(208)]

  predicate WfProposerSlashing(x: ProposerSlashing) {
    WfSignedBeaconBlockHeader(x.header1) && WfSignedBeaconBlockHeader(x.header2)
  }

  function ProposerSlashingParts(x: ProposerSlashing): seq<Part> {
    [Fixed(EncSignedBeaconBlockHeader(x.header1)), Fixed(EncSignedBeaconBlockHeader(x.header2))]
  }

  function EncProposerSlashing(x: ProposerSlashing): seq<byte> {
    Assemble(ProposerSlashingParts(x))
  }

  function DecProposerSlashing(b: seq<byte>): Option<ProposerSlashing> {
    Cut(PROPOSER_SLASHING, ProposerSlashingOf, b)
  }

  function ProposerSlashingOf(ps: seq<Part>): Option<ProposerSlashing> {
    if !Matches(ps, PROPOSER_SLASHING) then None
    else
      var header1 := DecSignedBeaconBlockHeader(ps[0].bytes);
      var header2 := DecSignedBeaconBlockHeader(ps[1].bytes);
      if header1.Some? && header2.Some? then Some(ProposerSlashing(header1.value, header2.value)) else None
  }

  lemma ProposerSlashingExact()
    ensures Exact(WfProposerSlashing, EncProposerSlashing, DecProposerSlashing)
    ensures forall x :: WfProposerSlashing(x) ==> |EncProposerSlashing(x)| == 416
  {
    hide Split, Assemble, LE, Uint64;
    SignedBeaconBlockHeaderExact();
    forall x: ProposerSlashing | WfProposerSlashing(x)
      ensures Matches(ProposerSlashingParts(x), PROPOSER_SLASHING) && |EncProposerSlashing(x)| == 416
    {
      FixedContainerLen(ProposerSlashingParts(x), PROPOSER_SLASHING);
    }
    forall ps: seq<Part>, x: ProposerSlashing | Matches(ps, PROPOSER_SLASHING) && Short(ps)
      ensures ProposerSlashingOf(ps) == Some(x) <==> WfProposerSlashing(x) && ProposerSlashingParts(x) == ps
    {
      Field(WfSignedBeaconBlockHeader, EncSignedBeaconBlockHeader, DecSignedBeaconBlockHeader, ps[0].bytes, x.header1);
      Field(WfSignedBeaconBlockHeader, EncSignedBeaconBlockHeader, DecSignedBeaconBlockHeader, ps[1].bytes, x.header2);
    }
    ContainerExact(WfProposerSlashing, ProposerSlashingParts, PROPOSER_SLASHING, ProposerSlashingOf,
        EncProposerSlashing, DecProposerSlashing);
  }

  // ---------- Eth1Data: the deposit contract state ----------
  datatype Eth1Data = Eth1Data(depositRoot: seq<byte>, depositCount: u64, blockHash: seq<byte>)

  const ETH1_DATA: seq<Kind> := [FixedOf(32), FixedOf(8), FixedOf(32)]

  predicate WfEth1Data(x: Eth1Data) {
    |x.depositRoot| == 32 && |x.blockHash| == 32
  }

  function Eth1DataParts(x: Eth1Data): seq<Part> {
    [Fixed(x.depositRoot), Fixed(LE(x.depositCount, 8)), Fixed(x.blockHash)]
  }

  function EncEth1Data(x: Eth1Data): seq<byte> {
    Assemble(Eth1DataParts(x))
  }

  function DecEth1Data(b: seq<byte>): Option<Eth1Data> {
    Cut(ETH1_DATA, Eth1DataOf, b)
  }

  function Eth1DataOf(ps: seq<Part>): Option<Eth1Data> {
    if !Matches(ps, ETH1_DATA) then None
    else
      Some(Eth1Data(ps[0].bytes, Uint64(ps[1].bytes), ps[2].bytes))
  }

  lemma Eth1DataExact()
    ensures Exact(WfEth1Data, EncEth1Data, DecEth1Data)
    ensures forall x :: WfEth1Data(x) ==> |EncEth1Data(x)| == 72
  {
    hide Split, Assemble, LE, Uint64;
    forall x: Eth1Data | WfEth1Data(x)
      ensures Matches(Eth1DataParts(x), ETH1_DATA) && |EncEth1Data(x)| == 72
    {
      FixedContainerLen(Eth1DataParts(x), ETH1_DATA);
    }
    forall ps: seq<Part>, x: Eth1Data | Matches(ps, ETH1_DATA) && Short(ps)
      ensures Eth1DataOf(ps) == Some(x) <==> WfEth1Data(x) && Eth1DataParts(x) == ps
    {
      WordPart(x.depositCount, ps[1]);
    }
    ContainerExact(WfEth1Data, Eth1DataParts, ETH1_DATA, Eth1DataOf, EncEth1Data, DecEth1Data);
  }

  // ---------- DepositData: a validator deposit ----------
  datatype DepositData = DepositData(pubkey: Bytes48, withdrawalCredentials: Bytes32, amount: u64, signature: seq<byte>)

  const DEPOSIT_DATA: seq<Kind> := [FixedOf(48), FixedOf(32), FixedOf(8), FixedOf(96)]

  predicate WfDepositData(x: DepositData) {
    |x.signature| == 96
  }

  function DepositDataParts(x: DepositData): seq<Part> {
    [Fixed(x.pubkey), Fixed(x.withdrawalCredentials), Fixed(LE(x.amount, 8)), Fixed(x.signature)]
  }

  function EncDepositData(x: DepositData): seq<byte> {
    Assemble(DepositDataParts(x))
  }

  function DecDepositData(b: seq<byte>): Option<DepositData> {
    Cut(DEPOSIT_DATA, DepositDataOf, b)
  }

  function DepositDataOf(ps: seq<Part>): Option<DepositData> {
    if !Matches(ps, DEPOSIT_DATA) then None
    else
      Some(DepositData(ps[0].bytes, ps[1].bytes, Uint64(ps[2].bytes), ps[3].bytes))
  }

  lemma DepositDataExact()
    ensures Exact(WfDepositData, EncDepositData, DecDepositData)
    ensures forall x :: WfDepositData(x) ==> |EncDepositData(x)| == 184
  {
    hide Split, Assemble, LE, Uint64;
    forall x: DepositData | WfDepositData(x)
      ensures Matches(DepositDataParts(x), DEPOSIT_DATA) && |EncDepositData(x)| == 184
    {
      FixedContainerLen(DepositDataParts(x), DEPOSIT_DATA);
    }
    forall ps: seq<Part>, x: DepositData | Matches(ps, DEPOSIT_DATA) && Short(ps)
      ensures DepositDataOf(ps) == Some(x) <==> WfDepositData(x) && DepositDataParts(x) == ps
    {
      WordPart(x.amount, ps[2]);
    }
    ContainerExact(WfDepositData, DepositDataParts, DEPOSIT_DATA, DepositDataOf, EncDepositData, DecDepositData);
  }

  /** The 33 levels of a Merkle branch, read back from their 1056 bytes. */
  lemma BranchPart(proof: seq<seq<byte>>, b: seq<byte>)
    requires |b| == 1056
    ensures Chunks(b, 32) == Some(proof) <==> |proof| == 33 && AllOfSize(proof, 32) && Concat(proof, |proof|) == b
  {
    if Chunks(b, 32).Some? {
      ChunksThenConcat(b, 32);
      ConcatLen(Chunks(b, 32).value, 32, |Chunks(b, 32).value|);
    }
    if |proof| == 33 && AllOfSize(proof, 32) && Concat(proof, |proof|) == b {
      ConcatThenChunks(proof, 32);
    }
  }

  // ---------- Deposit: a deposit with its Merkle branch ----------
  datatype Deposit = Deposit(proof: seq<seq<byte>>, data: DepositData)

  const DEPOSIT: seq<Kind> := [FixedOf(1056), FixedOf(184)]

  predicate WfDeposit(x: Deposit) {
    |x.proof| == 33 && AllOfSize(x.proof, 32) && WfDepositData(x.data)
  }

  function DepositParts(x: Deposit): seq<Part> {
    [Fixed(Concat(x.proof, |x.proof|)), Fixed(EncDepositData(x.data))]
  }

  function EncDeposit(x: Deposit): seq<byte> {
    Assemble(DepositParts(x))
  }

  function DecDeposit(b: seq<byte>): Option<Deposit> {
    Cut(DEPOSIT, DepositOf, b)
  }

  function DepositOf(ps: seq<Part>): Option<Deposit> {
    if !Matches(ps, DEPOSIT) then None
    else
      var proof := Chunks(ps[0].bytes, 32);
      var data := DecDepositData(ps[1].bytes);
      if proof.Some? && data.Some? then Some(Deposit(proof.value, data.value)) else None
  }

  lemma DepositExact()
    ensures Exact(WfDeposit, EncDeposit, DecDeposit)
    ensures forall x :: WfDeposit(x) ==> |EncDeposit(x)| == 1240
  {
    hide Split, Assemble, LE, Uint64;
    DepositDataExact();
    forall x: Deposit | WfDeposit(x)
      ensures Matches(DepositParts(x), DEPOSIT) && |EncDeposit(x)| == 1240
    {
      ConcatLen(x.proof, 32, 33);
      FixedContainerLen(DepositParts(x), DEPOSIT);
    }
    forall ps: seq<Part>, x: Deposit | Matches(ps, DEPOSIT) && Short(ps)
      ensures DepositOf(ps) == Some(x) <==> WfDeposit(x) && DepositParts(x) == ps
    {
      BranchPart(x.proof, ps[0].bytes);
      Field(WfDepositData, EncDepositData, DecDepositData, ps[1].bytes, x.data);
    }
    ContainerExact(WfDeposit, DepositParts, DEPOSIT, DepositOf, EncDeposit, DecDeposit);
  }

  // ---------- VoluntaryExit: an exit request ----------
  datatype VoluntaryExit = VoluntaryExit(epoch: u64, validatorIndex: u64)

  const VOLUNTARY_EXIT: seq<Kind> := [FixedOf(8), FixedOf(8)]

  predicate WfVoluntaryExit(x: VoluntaryExit) {
    true
  }

  function VoluntaryExitParts(x: VoluntaryExit): seq<Part> {
    [Fixed(LE(x.epoch, 8)), Fixed(LE(x.validatorIndex, 8))]
  }

  function EncVoluntaryExit(x: VoluntaryExit): seq<byte> {
    Assemble(VoluntaryExitParts(x))
  }

  function DecVoluntaryExit(b: seq<byte>): Option<VoluntaryExit> {
    Cut(VOLUNTARY_EXIT, VoluntaryExitOf, b)
  }

  function VoluntaryExitOf(ps: seq<Part>): Option<VoluntaryExit> {
    if !Matches(ps, VOLUNTARY_EXIT) then None
    else
      Some(VoluntaryExit(Uint64(ps[0].bytes), Uint64(ps[1].bytes)))
  }

  lemma VoluntaryExitExact()
    ensures Exact(WfVoluntaryExit, EncVoluntaryExit, DecVoluntaryExit)
    ensures forall x :: WfVoluntaryExit(x) ==> |EncVoluntaryExit(x)| == 16
  {
    hide Split, Assemble, LE, Uint64;
    forall x: VoluntaryExit | WfVoluntaryExit(x)
      ensures Matches(VoluntaryExitParts(x), VOLUNTARY_EXIT) && |EncVoluntaryExit(x)| == 16
    {
      FixedContainerLen(VoluntaryExitParts(x), VOLUNTARY_EXIT);
    }
    forall ps: seq<Part>, x: VoluntaryExit | Matches(ps, VOLUNTARY_EXIT) && Short(ps)
      ensures VoluntaryExitOf(ps) == Some(x) <==> WfVoluntaryExit(x) && VoluntaryExitParts(x) == ps
    {
      WordPart(x.epoch, ps[0]);
      WordPart(x.validatorIndex, ps[1]);
    }
    ContainerExact(WfVoluntaryExit, VoluntaryExitParts, VOLUNTARY_EXIT, VoluntaryExitOf, EncVoluntaryExit,
        DecVoluntaryExit);
  }

  // ---------- SignedVoluntaryExit: a signed exit request ----------
  datatype SignedVoluntaryExit = SignedVoluntaryExit(exit: VoluntaryExit, signature: Bytes96)

  const SIGNED_VOLUNTARY_EXIT: seq<Kind> := [FixedOf(16), FixedOf(96)]

  predicate WfSignedVoluntaryExit(x: SignedVoluntaryExit) {
    WfVoluntaryExit(x.exit)
  }

  function SignedVoluntaryExitParts(x: SignedVoluntaryExit): seq<Part> {
    [Fixed(EncVoluntaryExit(x.exit)), Fixed(x.signature)]
  }

  function EncSignedVoluntaryExit(x: SignedVoluntaryExit): seq<byte> {
    Assemble(SignedVoluntaryExitParts(x))
  }

  function DecSignedVoluntaryExit(b: seq<byte>): Option<SignedVoluntaryExit> {
    Cut(SIGNED_VOLUNTARY_EXIT, SignedVoluntaryExitOf, b)
  }

  function SignedVoluntaryExitOf(ps: seq<Part>): Option<SignedVoluntaryExit> {
    if !Matches(ps, SIGNED_VOLUNTARY_EXIT) then None
    else
      var exit := DecVoluntaryExit(ps[0].bytes);
      if exit.Some? then Some(SignedVoluntaryExit(exit.value, ps[1].bytes)) else None
  }

  lemma SignedVoluntaryExitExact()
    ensures Exact(WfSignedVoluntaryExit, EncSignedVoluntaryExit, DecSignedVoluntaryExit)
    ensures forall x :: WfSignedVoluntaryExit(x) ==> |EncSignedVoluntaryExit(x)| == 112
  {
    hide Split, Assemble, LE, Uint64;
    VoluntaryExitExact();
    forall x: SignedVoluntaryExit | WfSignedVoluntaryExit(x)
      ensures Matches(SignedVoluntaryExitParts(x), SIGNED_VOLUNTARY_EXIT) && |EncSignedVoluntaryExit(x)| == 112
    {
      FixedContainerLen(SignedVoluntaryExitParts(x), SIGNED_VOLUNTARY_EXIT);
    }
    forall ps: seq<Part>, x: SignedVoluntaryExit | Matches(ps, SIGNED_VOLUNTARY_EXIT) && Short(ps)
      ensures SignedVoluntaryExitOf(ps) == Some(x) <==> WfSignedVoluntaryExit(x) && SignedVoluntaryExitParts(x) == ps
    {
      Field(WfVoluntaryExit, EncVoluntaryExit, DecVoluntaryExit, ps[0].bytes, x.exit);
    }
    ContainerExact(WfSignedVoluntaryExit, SignedVoluntaryExitParts, SIGNED_VOLUNTARY_EXIT, SignedVoluntaryExitOf,
        EncSignedVoluntaryExit, DecSignedVoluntaryExit);
  }

  // ---------- SyncAggregate: the sync committee vote ----------
  datatype SyncAggregate = SyncAggregate(syncCommitteeBits: seq<byte>, syncCommitteeSignature: Bytes96)

  const SYNC_AGGREGATE: seq<Kind> := [FixedOf(64), FixedOf(96)]

  predicate WfSyncAggregate(x: SyncAggregate) {
    |x.syncCommitteeBits| == 64
  }

  function SyncAggregateParts(x: SyncAggregate): seq<Part> {
    [Fixed(x.syncCommitteeBits), Fixed(x.syncCommitteeSignature)]
  }

  function EncSyncAggregate(x: SyncAggregate): seq<byte> {
    Assemble(SyncAggregateParts(x))
  }

  function DecSyncAggregate(b: seq<byte>): Option<SyncAggregate> {
    Cut(SYNC_AGGREGATE, SyncAggregateOf, b)
  }

  function SyncAggregateOf(ps: seq<Part>): Option<SyncAggregate> {
    if !Matches(ps, SYNC_AGGREGATE) then None
    else
      Some(SyncAggregate(ps[0].bytes, ps[1].bytes))
  }

  lemma SyncAggregateExact()
    ensures Exact(WfSyncAggregate, EncSyncAggregate, DecSyncAggregate)
    ensures forall x :: WfSyncAggregate(x) ==> |EncSyncAggregate(x)| == 160
  {
    hide Split, Assemble, LE, Uint64;
    forall x: SyncAggregate | WfSyncAggregate(x)
      ensures Matches(SyncAggregateParts(x), SYNC_AGGREGATE) && |EncSyncAggregate(x)| == 160
    {
      FixedContainerLen(SyncAggregateParts(x), SYNC_AGGREGATE);
    }
    forall ps: seq<Part>, x: SyncAggregate | Matches(ps, SYNC_AGGREGATE) && Short(ps)
      ensures SyncAggregateOf(ps) == Some(x) <==> WfSyncAggregate(x) && SyncAggregateParts(x) == ps
    {
    }
    ContainerExact(WfSyncAggregate, SyncAggregateParts, SYNC_AGGREGATE, SyncAggregateOf, EncSyncAggregate,
        DecSyncAggregate);
  }

  // ---------- BLSToExecutionChange: a withdrawal address change ----------
  datatype BLSToExecutionChange = BLSToExecutionChange(validatorIndex: u64, fromBLSPubKey: Bytes48,
      toExecutionAddress: Bytes20)

  const BLSTO_EXECUTION_CHANGE: seq<Kind> := [FixedOf(8), FixedOf(48), FixedOf(20)]

  predicate WfBLSToExecutionChange(x: BLSToExecutionChange) {
    true
  }

  function BLSToExecutionChangeParts(x: BLSToExecutionChange): seq<Part> {
    [Fixed(LE(x.validatorIndex, 8)), Fixed(x.fromBLSPubKey), Fixed(x.toExecutionAddress)]
  }

  function EncBLSToExecutionChange(x: BLSToExecutionChange): seq<byte> {
    Assemble(BLSToExecutionChangeParts(x))
  }

  function DecBLSToExecutionChange(b: seq<byte>): Option<BLSToExecutionChange> {
    Cut(BLSTO_EXECUTION_CHANGE, BLSToExecutionChangeOf, b)
  }

  function BLSToExecutionChangeOf(ps: seq<Part>): Option<BLSToExecutionChange> {
    if !Matches(ps, BLSTO_EXECUTION_CHANGE) then None
    else
      Some(BLSToExecutionChange(Uint64(ps[0].bytes), ps[1].bytes, ps[2].bytes))
  }

  lemma BLSToExecutionChangeExact()
    ensures Exact(WfBLSToExecutionChange, EncBLSToExecutionChange, DecBLSToExecutionChange)
    ensures forall x :: WfBLSToExecutionChange(x) ==> |EncBLSToExecutionChange(x)| == 76
  {
    hide Split, Assemble, LE, Uint64;
    forall x: BLSToExecutionChange | WfBLSToExecutionChange(x)
      ensures Matches(BLSToExecutionChangeParts(x), BLSTO_EXECUTION_CHANGE) && |EncBLSToExecutionChange(x)| == 76
    {
      FixedContainerLen(BLSToExecutionChangeParts(x), BLSTO_EXECUTION_CHANGE);
    }
    forall ps: seq<Part>, x: BLSToExecutionChange | Matches(ps, BLSTO_EXECUTION_CHANGE) && Short(ps)
      ensures BLSToExecutionChangeOf(ps) == Some(x) <==> WfBLSToExecutionChange(x) && BLSToExecutionChangeParts(x) == ps
    {
      WordPart(x.validatorIndex, ps[0]);
    }
    ContainerExact(WfBLSToExecutionChange, BLSToExecutionChangeParts, BLSTO_EXECUTION_CHANGE, BLSToExecutionChangeOf,
        EncBLSToExecutionChange, DecBLSToExecutionChange);
  }

  // ---------- SignedBLSToExecutionChange: a signed withdrawal address change ----------
  datatype SignedBLSToExecutionChange = SignedBLSToExecutionChange(message: BLSToExecutionChange, signature: Bytes96)

  const SIGNED_BLSTO_EXECUTION_CHANGE: seq<Kind> := [FixedOf(76), FixedOf(96)]

  predicate WfSignedBLSToExecutionChange(x: SignedBLSToExecutionChange) {
    WfBLSToExecutionChange(x.message)
  }

  function SignedBLSToExecutionChangeParts(x: SignedBLSToExecutionChange): seq<Part> {
    [Fixed(EncBLSToExecutionChange(x.message)), Fixed(x.signature)]
  }

  function EncSignedBLSToExecutionChange(x: SignedBLSToExecutionChange): seq<byte> {
    Assemble(SignedBLSToExecutionChangeParts(x))
  }

  function DecSignedBLSToExecutionChange(b: seq<byte>): Option<SignedBLSToExecutionChange> {
    Cut(SIGNED_BLSTO_EXECUTION_CHANGE, SignedBLSToExecutionChangeOf, b)
  }

  function SignedBLSToExecutionChangeOf(ps: seq<Part>): Option<SignedBLSToExecutionChange> {
    if !Matches(ps, SIGNED_BLSTO_EXECUTION_CHANGE) then None
    else
      var message := DecBLSToExecutionChange(ps[0].bytes);
      if message.Some? then Some(SignedBLSToExecutionChange(message.value, ps[1].bytes)) else None
  }

  lemma SignedBLSToExecutionChangeExact()
    ensures Exact(WfSignedBLSToExecutionChange, EncSignedBLSToExecutionChange, DecSignedBLSToExecutionChange)
    ensures forall x :: WfSignedBLSToExecutionChange(x) ==> |EncSignedBLSToExecutionChange(x)| == 172
  {
    hide Split, Assemble, LE, Uint64;
    BLSToExecutionChangeExact();
    forall x: SignedBLSToExecutionChange | WfSignedBLSToExecutionChange(x)
      ensures Matches(SignedBLSToExecutionChangeParts(x), SIGNED_BLSTO_EXECUTION_CHANGE) &&
              |EncSignedBLSToExecutionChange(x)| == 172
    {
      FixedContainerLen(SignedBLSToExecutionChangeParts(x), SIGNED_BLSTO_EXECUTION_CHANGE);
    }
    forall ps: seq<Part>, x: SignedBLSToExecutionChange | Matches(ps, SIGNED_BLSTO_EXECUTION_CHANGE) && Short(ps)
      ensures SignedBLSToExecutionChangeOf(ps) == Some(x) <==>
              WfSignedBLSToExecutionChange(x) && SignedBLSToExecutionChangeParts(x) == ps
    {
      Field(WfBLSToExecutionChange, EncBLSToExecutionChange, DecBLSToExecutionChange, ps[0].bytes, x.message);
    }
    ContainerExact(WfSignedBLSToExecutionChange, SignedBLSToExecutionChangeParts, SIGNED_BLSTO_EXECUTION_CHANGE,
        SignedBLSToExecutionChangeOf, EncSignedBLSToExecutionChange, DecSignedBLSToExecutionChange);
  }

  // ---------- Withdrawal: a withdrawal ----------
  datatype Withdrawal = Withdrawal(index: u64, validatorIndex: u64, address: Bytes20, amount: u64)

  const WITHDRAWAL: seq<Kind> := [FixedOf(8), FixedOf(8), FixedOf(20), FixedOf(8)]

  predicate WfWithdrawal(x: Withdrawal) {
    true
  }

  function WithdrawalParts(x: Withdrawal): seq<Part> {
    [Fixed(LE(x.index, 8)), Fixed(LE(x.validatorIndex, 8)), Fixed(x.address), Fixed(LE(x.amount, 8))]
  }

  function EncWithdrawal(x: Withdrawal): seq<byte> {
    Assemble(WithdrawalParts(x))
  }

  function DecWithdrawal(b: seq<byte>): Option<Withdrawal> {
    Cut(WITHDRAWAL, WithdrawalOf, b)
  }

  function WithdrawalOf(ps: seq<Part>): Option<Withdrawal> {
    if !Matches(ps, WITHDRAWAL) then None
    else
      Some(Withdrawal(Uint64(ps[0].bytes), Uint64(ps[1].bytes), ps[2].bytes, Uint64(ps[3].bytes)))
  }

  lemma WithdrawalExact()
    ensures Exact(WfWithdrawal, EncWithdrawal, DecWithdrawal)
    ensures forall x :: WfWithdrawal(x) ==> |EncWithdrawal(x)| == 44
  {
    hide Split, Assemble, LE, Uint64;
    forall x: Withdrawal | WfWithdrawal(x)
      ensures Matches(WithdrawalParts(x), WITHDRAWAL) && |EncWithdrawal(x)| == 44
    {
      FixedContainerLen(WithdrawalParts(x), WITHDRAWAL);
    }
    forall ps: seq<Part>, x: Withdrawal | Matches(ps, WITHDRAWAL) && Short(ps)
      ensures WithdrawalOf(ps) == Some(x) <==> WfWithdrawal(x) && WithdrawalParts(x) == ps
    {
      WordPart(x.index, ps[0]);
      WordPart(x.validatorIndex, ps[1]);
      WordPart(x.amount, ps[3]);
    }
    ContainerExact(WfWithdrawal, WithdrawalParts, WITHDRAWAL, WithdrawalOf, EncWithdrawal, DecWithdrawal);
  }
}
