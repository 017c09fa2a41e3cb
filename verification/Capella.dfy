/**
  The variable-size containers of a Capella block, up to the signed block itself. For each one:
  what its marshaller lets through (`Marshals`), what survives a round trip (`Wf`), its bytes
  (`Enc`), its reader (`Dec`) and the size its SizeSSZ computes (`Size`). The two predicates
  differ in one place: the marshaller accepts an aggregation bitlist without a length bit.
  List limits and vector lengths are those of the mainnet preset.
 */
module Capella {
  import opened Bytes
  import opened Ssz
  import opened SszLists
  import opened Containers
  import opened FixedContainers

  // ---------- element codecs ----------

  predicate WfWord(n: u64) {
    true
  }

  function EncWord(n: u64): seq<byte> {
    LE(n, 8)
  }

  function DecWord(b: seq<byte>): Option<u64> {
    if |b| == 8 then Some(Uint64(b)) else None
  }

  lemma WordExact()
    ensures Exact(WfWord, EncWord, DecWord)
  {
    forall b: seq<byte>, n: u64 | |b| < TWO32
      ensures DecWord(b) == Some(n) <==> WfWord(n) && EncWord(n) == b
    {
      if |b| == 8 {
        Uint64Exact(n, b);
      }
    }
  }

  const MAX_TRANSACTION := 1073741824

  predicate WfTransaction(t: seq<byte>) {
    |t| <= MAX_TRANSACTION
  }

  function EncTransaction(t: seq<byte>): seq<byte> {
    t
  }

  function SizeTransaction(t: seq<byte>): nat {
    |t|
  }

  function DecTransaction(b: seq<byte>): Option<seq<byte>> {
    if |b| <= MAX_TRANSACTION then Some(b) else None
  }

  // ---------- bitlists ----------

  function BitLen8(b: byte): nat {
    if b == 0 then 0 else 1 + BitLen8(b / 2)
  }

  /** The number of bits before the length bit; a bitlist without one counts as empty. */
  function BitlistLen(bits: seq<byte>): nat {
    if bits == [] || bits[|bits| - 1] == 0 then 0
    else 8 * (|bits| - 1) + BitLen8(bits[|bits| - 1]) - 1
  }

  predicate HasLengthBit(bits: seq<byte>) {
    bits != [] && bits[|bits| - 1] != 0
  }

  // ---------- Attestation ----------

  datatype Attestation = Attestation(aggregationBits: seq<byte>, data: AttestationData, signature: Bytes96)

  const ATTESTATION: seq<Kind> := [Variable, FixedOf(128), FixedOf(96)]

  predicate MarshalsAttestation(x: Attestation) {
    WfAttestationData(x.data) && BitlistLen(x.aggregationBits) <= 2048
  }

  predicate WfAttestation(x: Attestation) {
    MarshalsAttestation(x) && HasLengthBit(x.aggregationBits)
  }

  function AttestationParts(x: Attestation): seq<Part> {
    [Var(x.aggregationBits), Fixed(EncAttestationData(x.data)), Fixed(x.signature)]
  }

  function EncAttestation(x: Attestation): seq<byte> {
    Assemble(AttestationParts(x))
  }

  function DecAttestation(b: seq<byte>): Option<Attestation> {
    Cut(ATTESTATION, AttestationOf, b)
  }

  function AttestationOf(ps: seq<Part>): Option<Attestation> {
    if !Matches(ps, ATTESTATION) then None
    else
      var data := DecAttestationData(ps[1].bytes);
      var bits := ps[0].bytes;
      if data.Some? && HasLengthBit(bits) && BitlistLen(bits) <= 2048
      then Some(Attestation(bits, data.value, ps[2].bytes))
      else None
  }

  function SizeAttestation(x: Attestation): nat {
    228 + |x.aggregationBits|
  }

  lemma AttestationShape(x: Attestation)
    requires MarshalsAttestation(x)
    ensures Matches(AttestationParts(x), ATTESTATION) && |EncAttestation(x)| == SizeAttestation(x)
  {
    AttestationDataExact();
    var parts := AttestationParts(x);
    FixedLenIsLayoutLen(parts, ATTESTATION, 3);
    assert Tails(parts, 3) == Tails(parts, 2) == Tails(parts, 1) == x.aggregationBits;
  }

  lemma AttestationExact()
    ensures Exact(WfAttestation, EncAttestation, DecAttestation)
  {
    hide Split, Assemble, EncAttestationData, DecAttestationData, WfAttestationData, BitlistLen;
    AttestationDataExact();
    forall x: Attestation | WfAttestation(x)
      ensures Matches(AttestationParts(x), ATTESTATION)
    {
      AttestationShape(x);
    }
    forall ps: seq<Part>, x: Attestation | Matches(ps, ATTESTATION) && Short(ps)
      ensures AttestationOf(ps) == Some(x) <==> WfAttestation(x) && AttestationParts(x) == ps
    {
      Field(WfAttestationData, EncAttestationData, DecAttestationData, ps[1].bytes, x.data);
    }
    ContainerExact(WfAttestation, AttestationParts, ATTESTATION, AttestationOf, EncAttestation, DecAttestation);
  }

  // ---------- IndexedAttestation ----------

  datatype IndexedAttestation =
    IndexedAttestation(attestationIndices: seq<u64>, data: AttestationData, signature: seq<byte>)

  const INDEXED_ATTESTATION: seq<Kind> := [Variable, FixedOf(128), FixedOf(96)]

  predicate WfIndexedAttestation(x: IndexedAttestation) {
    |x.attestationIndices| <= 2048 && WfAttestationData(x.data) && |x.signature| == 96
  }

  function IndexedAttestationParts(x: IndexedAttestation): seq<Part> {
    [Var(EncList(EncWord, x.attestationIndices)), Fixed(EncAttestationData(x.data)), Fixed(x.signature)]
  }

  function EncIndexedAttestation(x: IndexedAttestation): seq<byte> {
    Assemble(IndexedAttestationParts(x))
  }

  function DecIndexedAttestation(b: seq<byte>): Option<IndexedAttestation> {
    Cut(INDEXED_ATTESTATION, IndexedAttestationOf, b)
  }

  function IndexedAttestationOf(ps: seq<Part>): Option<IndexedAttestation> {
    if !Matches(ps, INDEXED_ATTESTATION) then None
    else
      var indices := DecList(DecWord, 8, 2048, ps[0].bytes);
      var data := DecAttestationData(ps[1].bytes);
      if indices.Some? && data.Some? then Some(IndexedAttestation(indices.value, data.value, ps[2].bytes)) else None
  }

  function SizeIndexedAttestation(x: IndexedAttestation): nat {
    228 + |x.attestationIndices| * 8
  }

  lemma IndexedAttestationShape(x: IndexedAttestation)
    requires WfIndexedAttestation(x)
    ensures Matches(IndexedAttestationParts(x), INDEXED_ATTESTATION)
    ensures |EncIndexedAttestation(x)| == SizeIndexedAttestation(x)
  {
    AttestationDataExact();
    EncListLen(WfWord, EncWord, 8, x.attestationIndices);
    var parts := IndexedAttestationParts(x);
    FixedLenIsLayoutLen(parts, INDEXED_ATTESTATION, 3);
    assert Tails(parts, 3) == Tails(parts, 2) == Tails(parts, 1) == parts[0].bytes;
  }

  lemma IndexedAttestationExact()
    ensures Exact(WfIndexedAttestation, EncIndexedAttestation, DecIndexedAttestation)
  {
    hide Split, Assemble, DecList, EncList, EncAttestationData, DecAttestationData, WfAttestationData;
    AttestationDataExact();
    WordExact();
    forall x: IndexedAttestation | WfIndexedAttestation(x)
      ensures Matches(IndexedAttestationParts(x), INDEXED_ATTESTATION)
    {
      IndexedAttestationShape(x);
    }
    forall ps: seq<Part>, x: IndexedAttestation | Matches(ps, INDEXED_ATTESTATION) && Short(ps)
      ensures IndexedAttestationOf(ps) == Some(x) <==> WfIndexedAttestation(x) && IndexedAttestationParts(x) == ps
    {
      ListExact(WfWord, EncWord, DecWord, 8, 2048, ps[0].bytes, x.attestationIndices);
      Field(WfAttestationData, EncAttestationData, DecAttestationData, ps[1].bytes, x.data);
    }
    ContainerExact(WfIndexedAttestation, IndexedAttestationParts, INDEXED_ATTESTATION, IndexedAttestationOf,
                   EncIndexedAttestation, DecIndexedAttestation);
  }

  // ---------- AttesterSlashing ----------

  datatype AttesterSlashing =
    AttesterSlashing(attestation1: IndexedAttestation, attestation2: IndexedAttestation)

  const ATTESTER_SLASHING: seq<Kind> := [Variable, Variable]

  predicate WfAttesterSlashing(x: AttesterSlashing) {
    WfIndexedAttestation(x.attestation1) && WfIndexedAttestation(x.attestation2)
  }

  function AttesterSlashingParts(x: AttesterSlashing): seq<Part> {
    [Var(EncIndexedAttestation(x.attestation1)), Var(EncIndexedAttestation(x.attestation2))]
  }

  function EncAttesterSlashing(x: AttesterSlashing): seq<byte> {
    Assemble(AttesterSlashingParts(x))
  }

  function DecAttesterSlashing(b: seq<byte>): Option<AttesterSlashing> {
    Cut(ATTESTER_SLASHING, AttesterSlashingOf, b)
  }

  function AttesterSlashingOf(ps: seq<Part>): Option<AttesterSlashing> {
    if !Matches(ps, ATTESTER_SLASHING) then None
    else
      var a1 := DecIndexedAttestation(ps[0].bytes);
      var a2 := DecIndexedAttestation(ps[1].bytes);
      if a1.Some? && a2.Some? then Some(AttesterSlashing(a1.value, a2.value)) else None
  }

  function SizeAttesterSlashing(x: AttesterSlashing): nat {
    8 + SizeIndexedAttestation(x.attestation1) + SizeIndexedAttestation(x.attestation2)
  }

  lemma AttesterSlashingShape(x: AttesterSlashing)
    requires WfAttesterSlashing(x)
    ensures Matches(AttesterSlashingParts(x), ATTESTER_SLASHING)
    ensures |EncAttesterSlashing(x)| == SizeAttesterSlashing(x)
  {
    IndexedAttestationShape(x.attestation1);
    IndexedAttestationShape(x.attestation2);
    var parts := AttesterSlashingParts(x);
    FixedLenIsLayoutLen(parts, ATTESTER_SLASHING, 2);
    assert Tails(parts, 2) == Tails(parts, 1) + parts[1].bytes;
  }

  lemma AttesterSlashingExact()
    ensures Exact(WfAttesterSlashing, EncAttesterSlashing, DecAttesterSlashing)
  {
    hide Split, Assemble, EncIndexedAttestation, DecIndexedAttestation, WfIndexedAttestation;
    IndexedAttestationExact();
    forall ps: seq<Part>, x: AttesterSlashing | Matches(ps, ATTESTER_SLASHING) && Short(ps)
      ensures AttesterSlashingOf(ps) == Some(x) <==> WfAttesterSlashing(x) && AttesterSlashingParts(x) == ps
    {
      Field(WfIndexedAttestation, EncIndexedAttestation, DecIndexedAttestation, ps[0].bytes, x.attestation1);
      Field(WfIndexedAttestation, EncIndexedAttestation, DecIndexedAttestation, ps[1].bytes, x.attestation2);
    }
    ContainerExact(WfAttesterSlashing, AttesterSlashingParts, ATTESTER_SLASHING, AttesterSlashingOf,
                   EncAttesterSlashing, DecAttesterSlashing);
  }

  // ---------- ExecutionPayload ----------

  datatype ExecutionPayload = ExecutionPayload(
    parentHash: Bytes32, feeRecipient: Bytes20, stateRoot: Bytes32, receiptsRoot: Bytes32,
    logsBloom: Bytes256, prevRandao: Bytes32, blockNumber: u64, gasLimit: u64, gasUsed: u64,
    timestamp: u64, extraData: seq<byte>, baseFeePerGas: Bytes32, blockHash: Bytes32,
    transactions: seq<seq<byte>>, withdrawals: seq<Withdrawal>)

  const EXECUTION_PAYLOAD: seq<Kind> :=
    [FixedOf(32), FixedOf(20), FixedOf(32), FixedOf(32), FixedOf(256), FixedOf(32), FixedOf(8), FixedOf(8),
     FixedOf(8), FixedOf(8), Variable, FixedOf(32), FixedOf(32), Variable, Variable]

  const MAX_EXTRA_DATA := 32
  const MAX_TRANSACTIONS := 1048576
  const MAX_WITHDRAWALS := 16

  predicate WfExecutionPayload(x: ExecutionPayload) {
    && |x.extraData| <= MAX_EXTRA_DATA
    && |x.transactions| <= MAX_TRANSACTIONS && AllWf(WfTransaction, x.transactions)
    && |x.withdrawals| <= MAX_WITHDRAWALS
  }

  function ExecutionPayloadParts(x: ExecutionPayload): seq<Part> {
    [Fixed(x.parentHash), Fixed(x.feeRecipient), Fixed(x.stateRoot), Fixed(x.receiptsRoot), Fixed(x.logsBloom),
     Fixed(x.prevRandao), Fixed(LE(x.blockNumber, 8)), Fixed(LE(x.gasLimit, 8)), Fixed(LE(x.gasUsed, 8)),
     Fixed(LE(x.timestamp, 8)), Var(x.extraData), Fixed(x.baseFeePerGas), Fixed(x.blockHash),
     Var(EncDyn(EncTransaction, x.transactions)), Var(EncList(EncWithdrawal, x.withdrawals))]
  }

  function EncExecutionPayload(x: ExecutionPayload): seq<byte> {
    Assemble(ExecutionPayloadParts(x))
  }

  function DecExecutionPayload(b: seq<byte>): Option<ExecutionPayload> {
    Cut(EXECUTION_PAYLOAD, ExecutionPayloadOf, b)
  }

  function ExecutionPayloadOf(ps: seq<Part>): Option<ExecutionPayload> {
    if !Matches(ps, EXECUTION_PAYLOAD) then None
    else
      var txs := DecDyn(DecTransaction, MAX_TRANSACTIONS, ps[13].bytes);
      var wds := DecList(DecWithdrawal, 44, MAX_WITHDRAWALS, ps[14].bytes);
      if |ps[10].bytes| <= MAX_EXTRA_DATA && txs.Some? && wds.Some?
      then Some(ExecutionPayload(
                  ps[0].bytes, ps[1].bytes, ps[2].bytes, ps[3].bytes, ps[4].bytes, ps[5].bytes,
                  Uint64(ps[6].bytes), Uint64(ps[7].bytes), Uint64(ps[8].bytes), Uint64(ps[9].bytes),
                  ps[10].bytes, ps[11].bytes, ps[12].bytes, txs.value, wds.value))
      else None
  }

  function SizeExecutionPayload(x: ExecutionPayload): nat {
    512 + |x.extraData| + SizeDyn(SizeTransaction, x.transactions, |x.transactions|) + |x.withdrawals| * 44
  }

  // ---------- BeaconBlockBody ----------

  datatype BeaconBlockBody = BeaconBlockBody(
    randaoReveal: seq<byte>, eth1Data: Eth1Data, graffiti: Bytes32,
    proposerSlashings: seq<ProposerSlashing>, attesterSlashings: seq<AttesterSlashing>,
    attestations: seq<Attestation>, deposits: seq<Deposit>, voluntaryExits: seq<SignedVoluntaryExit>,
    syncAggregate: SyncAggregate, executionPayload: ExecutionPayload,
    blsToExecutionChanges: seq<SignedBLSToExecutionChange>)

  const BEACON_BLOCK_BODY: seq<Kind> :=
    [FixedOf(96), FixedOf(72), FixedOf(32), Variable, Variable, Variable, Variable, Variable,
     FixedOf(160), Variable, Variable]

  const MAX_PROPOSER_SLASHINGS := 16
  const MAX_ATTESTER_SLASHINGS := 2
  const MAX_ATTESTATIONS := 128
  const MAX_DEPOSITS := 16
  const MAX_VOLUNTARY_EXITS := 16
  const MAX_BLS_CHANGES := 16

  predicate MarshalsBeaconBlockBody(x: BeaconBlockBody) {
    && |x.randaoReveal| == 96 && WfEth1Data(x.eth1Data) && WfSyncAggregate(x.syncAggregate)
    && |x.proposerSlashings| <= MAX_PROPOSER_SLASHINGS && AllWf(WfProposerSlashing, x.proposerSlashings)
    && |x.attesterSlashings| <= MAX_ATTESTER_SLASHINGS && AllWf(WfAttesterSlashing, x.attesterSlashings)
    && |x.attestations| <= MAX_ATTESTATIONS && AllWf(MarshalsAttestation, x.attestations)
    && |x.deposits| <= MAX_DEPOSITS && AllWf(WfDeposit, x.deposits)
    && |x.voluntaryExits| <= MAX_VOLUNTARY_EXITS
    && WfExecutionPayload(x.executionPayload)
    && |x.blsToExecutionChanges| <= MAX_BLS_CHANGES
  }

  predicate WfBeaconBlockBody(x: BeaconBlockBody) {
    MarshalsBeaconBlockBody(x) && AllWf(WfAttestation, x.attestations)
  }

  function BeaconBlockBodyParts(x: BeaconBlockBody): seq<Part> {
    [Fixed(x.randaoReveal), Fixed(EncEth1Data(x.eth1Data)), Fixed(x.graffiti),
     Var(EncList(EncProposerSlashing, x.proposerSlashings)),
     Var(EncDyn(EncAttesterSlashing, x.attesterSlashings)),
     Var(EncDyn(EncAttestation, x.attestations)),
     Var(EncList(EncDeposit, x.deposits)),
     Var(EncList(EncSignedVoluntaryExit, x.voluntaryExits)),
     Fixed(EncSyncAggregate(x.syncAggregate)),
     Var(EncExecutionPayload(x.executionPayload)),
     Var(EncList(EncSignedBLSToExecutionChange, x.blsToExecutionChanges))]
  }

  function EncBeaconBlockBody(x: BeaconBlockBody): seq<byte> {
    Assemble(BeaconBlockBodyParts(x))
  }

  function DecBeaconBlockBody(b: seq<byte>): Option<BeaconBlockBody> {
    Cut(BEACON_BLOCK_BODY, BeaconBlockBodyOf, b)
  }

  function BeaconBlockBodyOf(ps: seq<Part>): Option<BeaconBlockBody> {
    if !Matches(ps, BEACON_BLOCK_BODY) then None
    else
      var eth1 := DecEth1Data(ps[1].bytes);
      var proposer := DecList(DecProposerSlashing, 416, MAX_PROPOSER_SLASHINGS, ps[3].bytes);
      var attester := DecDyn(DecAttesterSlashing, MAX_ATTESTER_SLASHINGS, ps[4].bytes);
      var atts := DecDyn(DecAttestation, MAX_ATTESTATIONS, ps[5].bytes);
      var deposits := DecList(DecDeposit, 1240, MAX_DEPOSITS, ps[6].bytes);
      var exits := DecList(DecSignedVoluntaryExit, 112, MAX_VOLUNTARY_EXITS, ps[7].bytes);
      var sync := DecSyncAggregate(ps[8].bytes);
      var payload := DecExecutionPayload(ps[9].bytes);
      var changes := DecList(DecSignedBLSToExecutionChange, 172, MAX_BLS_CHANGES, ps[10].bytes);
      if && eth1.Some? && proposer.Some? && attester.Some? && atts.Some? && deposits.Some?
         && exits.Some? && sync.Some? && payload.Some? && changes.Some?
      then Some(BeaconBlockBody(
                  ps[0].bytes, eth1.value, ps[2].bytes, proposer.value, attester.value, atts.value,
                  deposits.value, exits.value, sync.value, payload.value, changes.value))
      else None
  }

  function SizeBeaconBlockBody(x: BeaconBlockBody): nat {
    388 + |x.proposerSlashings| * 416
    + SizeDyn(SizeAttesterSlashing, x.attesterSlashings, |x.attesterSlashings|)
    + SizeDyn(SizeAttestation, x.attestations, |x.attestations|)
    + |x.deposits| * 1240 + |x.voluntaryExits| * 112
    + SizeExecutionPayload(x.executionPayload) + |x.blsToExecutionChanges| * 172
  }

  // ---------- BeaconBlock ----------

  datatype BeaconBlock = BeaconBlock(
    slot: u64, proposerIndex: u64, parentRoot: Bytes32, stateRoot: Bytes32, body: BeaconBlockBody)

  const BEACON_BLOCK: seq<Kind> := [FixedOf(8), FixedOf(8), FixedOf(32), FixedOf(32), Variable]

  predicate MarshalsBeaconBlock(x: BeaconBlock) {
    MarshalsBeaconBlockBody(x.body)
  }

  predicate WfBeaconBlock(x: BeaconBlock) {
    WfBeaconBlockBody(x.body)
  }

  function BeaconBlockParts(x: BeaconBlock): seq<Part> {
    [Fixed(LE(x.slot, 8)), Fixed(LE(x.proposerIndex, 8)), Fixed(x.parentRoot), Fixed(x.stateRoot),
     Var(EncBeaconBlockBody(x.body))]
  }

  function EncBeaconBlock(x: BeaconBlock): seq<byte> {
    Assemble(BeaconBlockParts(x))
  }

  function DecBeaconBlock(b: seq<byte>): Option<BeaconBlock> {
    Cut(BEACON_BLOCK, BeaconBlockOf, b)
  }

  function BeaconBlockOf(ps: seq<Part>): Option<BeaconBlock> {
    if !Matches(ps, BEACON_BLOCK) then None
    else
      var body := DecBeaconBlockBody(ps[4].bytes);
      if body.Some?
      then Some(BeaconBlock(Uint64(ps[0].bytes), Uint64(ps[1].bytes), ps[2].bytes, ps[3].bytes, body.value))
      else None
  }

  function SizeBeaconBlock(x: BeaconBlock): nat {
    84 + SizeBeaconBlockBody(x.body)
  }

  // ---------- SignedBeaconBlock ----------

  datatype SignedBeaconBlock = SignedBeaconBlock(block: BeaconBlock, signature: seq<byte>)

  const SIGNED_BEACON_BLOCK: seq<Kind> := [Variable, FixedOf(96)]

  predicate MarshalsSignedBeaconBlock(x: SignedBeaconBlock) {
    |x.signature| == 96 && MarshalsBeaconBlock(x.block)
  }

  predicate WfSignedBeaconBlock(x: SignedBeaconBlock) {
    |x.signature| == 96 && WfBeaconBlock(x.block)
  }

  function SignedBeaconBlockParts(x: SignedBeaconBlock): seq<Part> {
    [Var(EncBeaconBlock(x.block)), Fixed(x.signature)]
  }

  function EncSignedBeaconBlock(x: SignedBeaconBlock): seq<byte> {
    Assemble(SignedBeaconBlockParts(x))
  }

  function DecSignedBeaconBlock(b: seq<byte>): Option<SignedBeaconBlock> {
    Cut(SIGNED_BEACON_BLOCK, SignedBeaconBlockOf, b)
  }

  function SignedBeaconBlockOf(ps: seq<Part>): Option<SignedBeaconBlock> {
    if !Matches(ps, SIGNED_BEACON_BLOCK) then None
    else
      var block := DecBeaconBlock(ps[0].bytes);
      if block.Some? then Some(SignedBeaconBlock(block.value, ps[1].bytes)) else None
  }

  function SizeSignedBeaconBlock(x: SignedBeaconBlock): nat {
    100 + SizeBeaconBlock(x.block)
  }
}
