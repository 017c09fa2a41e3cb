/**
  The wire form in literal terms: every container's bytes field by field, every offset as a number,
  every list limit as a number. Together with the exactness laws, which say that a reader accepts
  precisely what the writer makes, this pins both sides to the layout of the specification.
 */
module WireForm {
  import opened Bytes
  import opened Ssz
  import opened SszLists
  import opened Containers
  import opened FixedContainers
  import opened Capella
  import opened CapellaLaws
  import opened CapellaMarshal

  // ---------- words ----------

  lemma {:induction false} DigitIs(n: nat, i: nat)
    ensures Digit(n, i) == n / Pow256(i) % 256
  {
    if i > 0 {
      DigitIs(n / 256, i - 1);
      DivDiv(n, Pow256(i - 1));
    }
  }

  lemma DivDiv(n: nat, p: nat)
    requires p > 0
    ensures n / 256 / p == n / (256 * p)
  {
    var q, r := n / 256 / p, n / 256 % p;
    assert n == (q * p + r) * 256 + n % 256;
    assert n == q * (256 * p) + (r * 256 + n % 256);
    DivUnique(n, 256 * p, q, r * 256 + n % 256);
  }

  lemma DivUnique(n: nat, m: nat, q: nat, r: nat)
    requires m > 0 && n == q * m + r && r < m
    ensures n / m == q
  {
    ModUnique(n, m, q, r);
    assert n == n / m * m + n % m;
    assert (n / m - q) * m == 0;
  }

  /** A written word: the byte at place `i` has weight 256^i, and nothing else is written. */
  lemma WordBytes(n: nat, k: nat, i: nat)
    requires i < k
    ensures |LE(n, k)| == k && LE(n, k)[i] == n / Pow256(i) % 256
  {
    DigitIs(n, i);
  }

  /** A word read from eight bytes, as a number. */
  lemma WordValue(s: seq<byte>)
    requires |s| == 8
    ensures var b: seq<int> := s;
            Uint64(s) == b[0] + 0x100 * b[1] + 0x1_0000 * b[2] + 0x100_0000 * b[3] + 0x1_0000_0000 * b[4]
                         + 0x100_0000_0000 * b[5] + 0x1_0000_0000_0000 * b[6] + 0x100_0000_0000_0000 * b[7]
  {
    LowFour(s);
    LowFour(s[4..]);
  }

  lemma LowFour(s: seq<byte>)
    requires |s| >= 4
    ensures var b: seq<int> := s;
            FromLE(s) == b[0] + 256 * b[1] + 65536 * b[2] + 16777216 * b[3] + 4294967296 * FromLE(s[4..])
  {
    assert s[1..][1..] == s[2..] && s[2..][1..] == s[3..] && s[3..][1..] == s[4..];
    assert FromLE(s) == s[0] + 256 * FromLE(s[1..]);
    assert FromLE(s[1..]) == s[1] + 256 * FromLE(s[2..]);
    assert FromLE(s[2..]) == s[2] + 256 * FromLE(s[3..]);
    assert FromLE(s[3..]) == s[3] + 256 * FromLE(s[4..]);
  }

  // ---------- fixed-size containers ----------

  lemma TwoFields(a: seq<byte>, b: seq<byte>)
    ensures Assemble([Fixed(a), Fixed(b)]) == a + b
  {
    hide Heads, Tails;
    var ps := [Fixed(a), Fixed(b)];
    NoTails(ps, 2);
    HeadsOf(ps, 0, FixedSize(ps));
    HeadsOf(ps, 1, FixedSize(ps));
    NoHeads(ps, FixedSize(ps));
  }

  lemma ThreeFields(a: seq<byte>, b: seq<byte>, c: seq<byte>)
    ensures Assemble([Fixed(a), Fixed(b), Fixed(c)]) == a + b + c
  {
    hide Heads, Tails;
    var ps := [Fixed(a), Fixed(b), Fixed(c)];
    NoTails(ps, 3);
    HeadsOf(ps, 0, FixedSize(ps));
    HeadsOf(ps, 1, FixedSize(ps));
    HeadsOf(ps, 2, FixedSize(ps));
    NoHeads(ps, FixedSize(ps));
  }

  lemma FourFields(a: seq<byte>, b: seq<byte>, c: seq<byte>, d: seq<byte>)
    ensures Assemble([Fixed(a), Fixed(b), Fixed(c), Fixed(d)]) == a + b + c + d
  {
    hide Heads, Tails;
    var ps := [Fixed(a), Fixed(b), Fixed(c), Fixed(d)];
    NoTails(ps, 4);
    HeadsOf(ps, 0, FixedSize(ps));
    HeadsOf(ps, 1, FixedSize(ps));
    HeadsOf(ps, 2, FixedSize(ps));
    HeadsOf(ps, 3, FixedSize(ps));
    NoHeads(ps, FixedSize(ps));
  }

  lemma FiveFields(a: seq<byte>, b: seq<byte>, c: seq<byte>, d: seq<byte>, e: seq<byte>)
    ensures Assemble([Fixed(a), Fixed(b), Fixed(c), Fixed(d), Fixed(e)]) == a + b + c + d + e
  {
    hide Heads, Tails;
    var ps := [Fixed(a), Fixed(b), Fixed(c), Fixed(d), Fixed(e)];
    NoTails(ps, 5);
    NoHeads(ps, FixedSize(ps));
    HeadsFive(ps, 0, FixedSize(ps));
  }

  lemma NoHeads(ps: seq<Part>, base: nat)
    ensures Heads(ps, 0, base) == []
  {
  }

  lemma HeadsOf(ps: seq<Part>, k: nat, base: nat)
    requires k < |ps|
    ensures Heads(ps, k + 1, base) == Heads(ps, k, base) + Head(ps[k], base + |Tails(ps, k)|)
  {
    hide Tails, Head;
  }

  lemma HeadsFive(ps: seq<Part>, k: nat, base: nat)
    requires k + 5 <= |ps|
    ensures Heads(ps, k + 5, base)
         == Heads(ps, k, base) + Head(ps[k], base + |Tails(ps, k)|) + Head(ps[k + 1], base + |Tails(ps, k + 1)|)
            + Head(ps[k + 2], base + |Tails(ps, k + 2)|) + Head(ps[k + 3], base + |Tails(ps, k + 3)|)
            + Head(ps[k + 4], base + |Tails(ps, k + 4)|)
  {
    hide Heads, Tails, Head;
    HeadsOf(ps, k, base);
    HeadsOf(ps, k + 1, base);
    HeadsOf(ps, k + 2, base);
    HeadsOf(ps, k + 3, base);
    HeadsOf(ps, k + 4, base);
  }

  lemma CheckpointBytes(x: Checkpoint)
    ensures EncCheckpoint(x) == LE(x.epoch, 8) + x.root
  {
    hide Assemble, LE;
    TwoFields(LE(x.epoch, 8), x.root);
  }

  lemma AttestationDataBytes(x: AttestationData)
    ensures EncAttestationData(x)
         == LE(x.slot, 8) + LE(x.index, 8) + x.beaconBlockHash + LE(x.source.epoch, 8) + x.source.root
            + LE(x.target.epoch, 8) + x.target.root
  {
    hide Assemble, LE, EncCheckpoint;
    CheckpointBytes(x.source);
    CheckpointBytes(x.target);
    FiveFields(LE(x.slot, 8), LE(x.index, 8), x.beaconBlockHash, EncCheckpoint(x.source), EncCheckpoint(x.target));
  }

  lemma BeaconBlockHeaderBytes(x: BeaconBlockHeader)
    ensures EncBeaconBlockHeader(x)
         == LE(x.slot, 8) + LE(x.proposerIndex, 8) + x.parentRoot + x.stateRoot + x.bodyRoot
  {
    hide Assemble, LE;
    FiveFields(LE(x.slot, 8), LE(x.proposerIndex, 8), x.parentRoot, x.stateRoot, x.bodyRoot);
  }

  lemma SignedBeaconBlockHeaderBytes(x: SignedBeaconBlockHeader)
    ensures EncSignedBeaconBlockHeader(x) == EncBeaconBlockHeader(x.header) + x.signature
  {
    hide Assemble, EncBeaconBlockHeader;
    TwoFields(EncBeaconBlockHeader(x.header), x.signature);
  }

  lemma ProposerSlashingBytes(x: ProposerSlashing)
    ensures EncProposerSlashing(x) == EncSignedBeaconBlockHeader(x.header1) + EncSignedBeaconBlockHeader(x.header2)
  {
    hide Assemble, EncSignedBeaconBlockHeader;
    TwoFields(EncSignedBeaconBlockHeader(x.header1), EncSignedBeaconBlockHeader(x.header2));
  }

  lemma Eth1DataBytes(x: Eth1Data)
    ensures EncEth1Data(x) == x.depositRoot + LE(x.depositCount, 8) + x.blockHash
  {
    hide Assemble, LE;
    ThreeFields(x.depositRoot, LE(x.depositCount, 8), x.blockHash);
  }

  lemma DepositDataBytes(x: DepositData)
    ensures EncDepositData(x) == x.pubkey + x.withdrawalCredentials + LE(x.amount, 8) + x.signature
  {
    hide Assemble, LE;
    FourFields(x.pubkey, x.withdrawalCredentials, LE(x.amount, 8), x.signature);
  }

  /** A deposit: the branch level by level in 32 bytes each, then the data from byte 1056 on. */
  lemma DepositBytes(x: Deposit)
    requires WfDeposit(x)
    ensures |EncDeposit(x)| == 1240 && EncDeposit(x)[1056..] == EncDepositData(x.data)
    ensures forall i :: 0 <= i < 33 ==> EncDeposit(x)[32 * i..32 * i + 32] == x.proof[i]
  {
    hide Assemble, EncDepositData;
    DepositExact();
    ConcatLen(x.proof, 32, 33);
    TwoFields(Concat(x.proof, 33), EncDepositData(x.data));
    forall i | 0 <= i < 33
      ensures EncDeposit(x)[32 * i..32 * i + 32] == x.proof[i]
    {
      ConcatAt(x.proof, 32, 33, i);
      assert EncDeposit(x)[32 * i..32 * i + 32] == Concat(x.proof, 33)[32 * i..32 * i + 32];
    }
  }

  lemma VoluntaryExitBytes(x: VoluntaryExit)
    ensures EncVoluntaryExit(x) == LE(x.epoch, 8) + LE(x.validatorIndex, 8)
  {
    hide Assemble, LE;
    TwoFields(LE(x.epoch, 8), LE(x.validatorIndex, 8));
  }

  lemma SignedVoluntaryExitBytes(x: SignedVoluntaryExit)
    ensures EncSignedVoluntaryExit(x) == LE(x.exit.epoch, 8) + LE(x.exit.validatorIndex, 8) + x.signature
  {
    hide Assemble, LE, EncVoluntaryExit;
    VoluntaryExitBytes(x.exit);
    TwoFields(EncVoluntaryExit(x.exit), x.signature);
  }

  lemma SyncAggregateBytes(x: SyncAggregate)
    ensures EncSyncAggregate(x) == x.syncCommitteeBits + x.syncCommitteeSignature
  {
    hide Assemble;
    TwoFields(x.syncCommitteeBits, x.syncCommitteeSignature);
  }

  lemma BLSToExecutionChangeBytes(x: BLSToExecutionChange)
    ensures EncBLSToExecutionChange(x) == LE(x.validatorIndex, 8) + x.fromBLSPubKey + x.toExecutionAddress
  {
    hide Assemble, LE;
    ThreeFields(LE(x.validatorIndex, 8), x.fromBLSPubKey, x.toExecutionAddress);
  }

  lemma SignedBLSToExecutionChangeBytes(x: SignedBLSToExecutionChange)
    ensures EncSignedBLSToExecutionChange(x)
         == LE(x.message.validatorIndex, 8) + x.message.fromBLSPubKey + x.message.toExecutionAddress + x.signature
  {
    hide Assemble, LE, EncBLSToExecutionChange;
    BLSToExecutionChangeBytes(x.message);
    TwoFields(EncBLSToExecutionChange(x.message), x.signature);
  }

  lemma WithdrawalBytes(x: Withdrawal)
    ensures EncWithdrawal(x) == LE(x.index, 8) + LE(x.validatorIndex, 8) + x.address + LE(x.amount, 8)
  {
    hide Assemble, LE;
    FourFields(LE(x.index, 8), LE(x.validatorIndex, 8), x.address, LE(x.amount, 8));
  }

  // ---------- lists ----------

  lemma {:induction false} ConcatAt(cs: seq<seq<byte>>, n: nat, k: nat, i: nat)
    requires i < k <= |cs| && forall j :: 0 <= j < k ==> |cs[j]| == n
    ensures n * i + n <= |Concat(cs, k)| && Concat(cs, k)[n * i..n * i + n] == cs[i]
  {
    ConcatSize(cs, n, k);
    ConcatSize(cs, n, k - 1);
    if i < k - 1 {
      ConcatAt(cs, n, k - 1, i);
      var before := Concat(cs, k - 1);
      assert Concat(cs, k)[n * i..n * i + n] == before[n * i..n * i + n];
    }
  }

  lemma {:induction false} ConcatSize(cs: seq<seq<byte>>, n: nat, k: nat)
    requires k <= |cs| && forall j :: 0 <= j < k ==> |cs[j]| == n
    ensures |Concat(cs, k)| == n * k
  {
    if k > 0 {
      ConcatSize(cs, n, k - 1);
    }
  }

  /** A list of fixed-size elements: the i-th element begins at i times the element size. */
  lemma ListBytes<T>(enc: T -> seq<byte>, n: nat, xs: seq<T>, i: nat)
    requires i < |xs| && forall j :: 0 <= j < |xs| ==> |enc(xs[j])| == n
    ensures |EncList(enc, xs)| == n * |xs| && EncList(enc, xs)[n * i..n * i + n] == enc(xs[i])
  {
    var cs := EncAll(enc, xs);
    ConcatSize(cs, n, |xs|);
    ConcatAt(cs, n, |xs|, i);
  }

  /** The bytes of the first `i` elements. */
  function Before<T>(enc: T -> seq<byte>, xs: seq<T>, i: nat): nat
    requires i <= |xs|
  {
    if i == 0 then 0 else Before(enc, xs, i - 1) + |enc(xs[i - 1])|
  }

  /**
    A list of variable-size elements: four bytes of table for each, and the i-th entry names the
    place behind the table and the elements before it, where the i-th element lies.
   */
  lemma DynBytes<T>(enc: T -> seq<byte>, xs: seq<T>, i: nat)
    requires i < |xs| && |EncDyn(enc, xs)| < TWO32
    ensures var b, o := EncDyn(enc, xs), 4 * |xs| + Before(enc, xs, i);
            && o + |enc(xs[i])| <= |b| && 4 * i + 4 <= |b|
            && Uint32(b[4 * i..4 * i + 4]) == o && b[o..o + |enc(xs[i])|] == enc(xs[i])
  {
    hide Assemble, Tails, Before, FixedLen, FromLE, Uint32;
    var cs := EncAll(enc, xs);
    assert Vars(cs)[i] == Var(enc(xs[i]));
    VarsFixedLen(cs, |xs|);
    VarsFixedLen(cs, i);
    TailsBefore(enc, xs, i);
    OffsetPointsAtTail(Vars(cs), i);
  }

  lemma {:induction false} TailsBefore<T>(enc: T -> seq<byte>, xs: seq<T>, i: nat)
    requires i <= |xs|
    ensures |Tails(Vars(EncAll(enc, xs)), i)| == Before(enc, xs, i)
  {
    if i > 0 {
      TailsBefore(enc, xs, i - 1);
    }
  }

  // ---------- variable-size containers ----------

  lemma AttestationBytes(x: Attestation)
    requires MarshalsAttestation(x)
    ensures EncAttestation(x) == LE(228, 4) + EncAttestationData(x.data) + x.signature + x.aggregationBits
  {
    hide LE, EncAttestationData, Heads, Tails;
    AttestationShape(x);
    HeadAndTwo(AttestationParts(x), ATTESTATION, 228);
  }

  lemma IndexedAttestationBytes(x: IndexedAttestation)
    requires WfIndexedAttestation(x)
    ensures EncIndexedAttestation(x)
         == LE(228, 4) + EncAttestationData(x.data) + x.signature + EncList(EncWord, x.attestationIndices)
    ensures |EncList(EncWord, x.attestationIndices)| == 8 * |x.attestationIndices|
    ensures forall i :: 0 <= i < |x.attestationIndices| ==>
              EncList(EncWord, x.attestationIndices)[8 * i..8 * i + 8] == LE(x.attestationIndices[i], 8)
  {
    hide LE, EncAttestationData, EncList, Heads, Tails;
    IndexedAttestationShape(x);
    HeadAndTwo(IndexedAttestationParts(x), INDEXED_ATTESTATION, 228);
    EncListLen(WfWord, EncWord, 8, x.attestationIndices);
    forall i | 0 <= i < |x.attestationIndices|
      ensures EncList(EncWord, x.attestationIndices)[8 * i..8 * i + 8] == LE(x.attestationIndices[i], 8)
    {
      ListBytes(EncWord, 8, x.attestationIndices, i);
    }
  }

  lemma HeadAndTwo(ps: seq<Part>, layout: seq<Kind>, base: nat)
    requires |ps| == 3 && Matches(ps, layout) && ps[0].Var? && ps[1].Fixed? && ps[2].Fixed?
    requires LayoutLen(layout, 3) == base
    ensures Assemble(ps) == LE(base, 4) + ps[1].bytes + ps[2].bytes + ps[0].bytes
  {
    hide LE, Heads, Tails;
    FixedLenIsLayoutLen(ps, layout, 3);
    TailsZero(ps);
    TailsOf(ps, 0);
    TailsOf(ps, 1);
    TailsOf(ps, 2);
    NoHeads(ps, base);
    HeadsOf(ps, 0, base);
    HeadsOf(ps, 1, base);
    HeadsOf(ps, 2, base);
  }

  lemma TailsOf(ps: seq<Part>, k: nat)
    requires k < |ps|
    ensures Tails(ps, k + 1) == Tails(ps, k) + if ps[k].Var? then ps[k].bytes else []
  {
  }

  lemma AttesterSlashingBytes(x: AttesterSlashing)
    requires WfAttesterSlashing(x)
    ensures EncAttesterSlashing(x)
         == LE(8, 4) + LE(236 + 8 * |x.attestation1.attestationIndices|, 4)
            + EncIndexedAttestation(x.attestation1) + EncIndexedAttestation(x.attestation2)
  {
    hide LE, EncIndexedAttestation, Heads, Tails;
    AttesterSlashingShape(x);
    IndexedAttestationShape(x.attestation1);
    var ps := AttesterSlashingParts(x);
    FixedLenIsLayoutLen(ps, ATTESTER_SLASHING, 2);
    TailsZero(ps);
    TailsOf(ps, 0);
    TailsOf(ps, 1);
    NoHeads(ps, 8);
    HeadsOf(ps, 0, 8);
    HeadsOf(ps, 1, 8);
  }

  lemma PayloadTailLens(x: ExecutionPayload)
    ensures var ps := ExecutionPayloadParts(x);
            && |ps| == 15
            && (forall k :: 0 <= k <= 10 ==> |Tails(ps, k)| == 0)
            && (forall k :: 11 <= k <= 13 ==> |Tails(ps, k)| == |x.extraData|)
            && |Tails(ps, 14)| == |x.extraData| + |EncDyn(EncTransaction, x.transactions)|
  {
    hide LE, EncDyn, EncList, Tails;
    var ps := ExecutionPayloadParts(x);
    TailsZero(ps);
    forall k | 0 <= k <= 10
      ensures |Tails(ps, k)| == 0
    {
      TailsSkip(ps, 0, k);
    }
    TailsOf(ps, 10);
    forall k | 11 <= k <= 13
      ensures |Tails(ps, k)| == |x.extraData|
    {
      TailsSkip(ps, 11, k);
    }
    TailsOf(ps, 13);
  }

  /** The execution payload: fields in this order, with offsets 512 and on where the three lists stand. */
  lemma ExecutionPayloadBytes(x: ExecutionPayload)
    requires WfExecutionPayload(x)
    ensures var txs, wds := EncDyn(EncTransaction, x.transactions), EncList(EncWithdrawal, x.withdrawals);
            EncExecutionPayload(x) ==
            x.parentHash + x.feeRecipient + x.stateRoot + x.receiptsRoot + x.logsBloom + x.prevRandao
            + LE(x.blockNumber, 8) + LE(x.gasLimit, 8) + LE(x.gasUsed, 8) + LE(x.timestamp, 8)
            + LE(512, 4) + x.baseFeePerGas + x.blockHash + LE(512 + |x.extraData|, 4)
            + LE(512 + |x.extraData| + |txs|, 4) + x.extraData + txs + wds
  {
    hide LE, EncDyn, EncList, Heads, Tails, ExecutionPayloadParts, WfExecutionPayload, EncExecutionPayload, HeadLen;
    var ps := ExecutionPayloadParts(x);
    PayloadStart(x, []);
    PayloadTailLens(x);
    HeadsFive(ps, 0, 512);
    FromNothing(x.parentHash);
    HeadsFive(ps, 5, 512);
    HeadsFive(ps, 10, 512);
    PayloadEnd(x, []);
    FromNothing(Heads(ps, 15, 512));
    FromNothing(EncExecutionPayload(x));
    NoHeads(ps, 512);
  }

  lemma BodyTailLens(x: BeaconBlockBody)
    ensures var ps := BeaconBlockBodyParts(x);
            && |ps| == 11
            && (forall k :: 0 <= k <= 3 ==> |Tails(ps, k)| == 0)
            && (forall k :: 3 <= k < 8 ==> |Tails(ps, k + 1)| == |Tails(ps, k)| + |ps[k].bytes|)
            && |Tails(ps, 9)| == |Tails(ps, 8)| && |Tails(ps, 10)| == |Tails(ps, 9)| + |ps[9].bytes|
  {
    hide EncDyn, EncList, EncEth1Data, EncSyncAggregate, EncExecutionPayload, Tails;
    var ps := BeaconBlockBodyParts(x);
    TailsZero(ps);
    forall k | 0 <= k <= 3
      ensures |Tails(ps, k)| == 0
    {
      TailsSkip(ps, 0, k);
    }
    forall k | 3 <= k < 8
      ensures |Tails(ps, k + 1)| == |Tails(ps, k)| + |ps[k].bytes|
    {
      TailsOf(ps, k);
    }
    TailsOf(ps, 8);
    TailsOf(ps, 9);
  }

  /** The lengths of the variable parts of a body, in the order of their fields. */
  datatype BodySizes = BodySizes(
    proposer: nat, attester: nat, attestations: nat, deposits: nat, exits: nat, payload: nat)

  function SizesOf(x: BeaconBlockBody): BodySizes {
    BodySizes(416 * |x.proposerSlashings|, |EncDyn(EncAttesterSlashing, x.attesterSlashings)|,
              |EncDyn(EncAttestation, x.attestations)|, 1240 * |x.deposits|, 112 * |x.voluntaryExits|,
              |EncExecutionPayload(x.executionPayload)|)
  }

  /** The block body: fields in this order, offsets from 388 on, then the bodies in the same order. */
  lemma BeaconBlockBodyBytes(x: BeaconBlockBody)
    requires MarshalsBeaconBlockBody(x)
    ensures var n := SizesOf(x);
            EncBeaconBlockBody(x) ==
            x.randaoReveal + EncEth1Data(x.eth1Data) + x.graffiti + LE(388, 4) + LE(388 + n.proposer, 4)
            + LE(388 + n.proposer + n.attester, 4) + LE(388 + n.proposer + n.attester + n.attestations, 4)
            + LE(388 + n.proposer + n.attester + n.attestations + n.deposits, 4)
            + EncSyncAggregate(x.syncAggregate)
            + LE(388 + n.proposer + n.attester + n.attestations + n.deposits + n.exits, 4)
            + LE(388 + n.proposer + n.attester + n.attestations + n.deposits + n.exits + n.payload, 4)
            + EncList(EncProposerSlashing, x.proposerSlashings) + EncDyn(EncAttesterSlashing, x.attesterSlashings)
            + EncDyn(EncAttestation, x.attestations) + EncList(EncDeposit, x.deposits)
            + EncList(EncSignedVoluntaryExit, x.voluntaryExits) + EncExecutionPayload(x.executionPayload)
            + EncList(EncSignedBLSToExecutionChange, x.blsToExecutionChanges)
  {
    hide LE, EncDyn, EncList, EncEth1Data, EncSyncAggregate, EncExecutionPayload, Heads, Tails, MarshalsBeaconBlockBody,
         EncBeaconBlockBody, BeaconBlockBodyParts;
    var ps := BeaconBlockBodyParts(x);
    BodyTailLens(x);
    BodyHeads(x);
    BodyEnd(x, []);
    FromNothing(Heads(ps, 11, 388));
    FromNothing(EncBeaconBlockBody(x));
  }

  lemma BodyHeads(x: BeaconBlockBody)
    requires MarshalsBeaconBlockBody(x)
    ensures var n := SizesOf(x);
            Heads(BeaconBlockBodyParts(x), 11, 388) ==
            x.randaoReveal + EncEth1Data(x.eth1Data) + x.graffiti + LE(388, 4) + LE(388 + n.proposer, 4)
            + LE(388 + n.proposer + n.attester, 4) + LE(388 + n.proposer + n.attester + n.attestations, 4)
            + LE(388 + n.proposer + n.attester + n.attestations + n.deposits, 4)
            + EncSyncAggregate(x.syncAggregate)
            + LE(388 + n.proposer + n.attester + n.attestations + n.deposits + n.exits, 4)
            + LE(388 + n.proposer + n.attester + n.attestations + n.deposits + n.exits + n.payload, 4)
  {
    hide LE, EncDyn, EncList, EncEth1Data, EncSyncAggregate, EncExecutionPayload, Heads, Tails, MarshalsBeaconBlockBody,
         EncBeaconBlockBody, BeaconBlockBodyParts, SizeDyn, SizeExecutionPayload;
    var ps := BeaconBlockBodyParts(x);
    BodyStart(x, []);
    BodyTailLens(x);
    BodyLists(x);
    BodyPartLens(x);
    NoHeads(ps, 388);
    HeadsFive(ps, 0, 388);
    FromNothing(x.randaoReveal);
    HeadsFive(ps, 5, 388);
    HeadsOf(ps, 10, 388);
  }

  lemma FromNothing(s: seq<byte>)
    ensures [] + s == s
  {
  }

  lemma BodyPartLens(x: BeaconBlockBody)
    ensures var ps := BeaconBlockBodyParts(x);
            && |ps[4].bytes| == |EncDyn(EncAttesterSlashing, x.attesterSlashings)|
            && |ps[5].bytes| == |EncDyn(EncAttestation, x.attestations)|
            && |ps[9].bytes| == |EncExecutionPayload(x.executionPayload)|
  {
    hide LE, EncDyn, EncList, EncEth1Data, EncSyncAggregate, EncExecutionPayload;
  }

  lemma BeaconBlockBytes(x: BeaconBlock)
    ensures EncBeaconBlock(x)
         == LE(x.slot, 8) + LE(x.proposerIndex, 8) + x.parentRoot + x.stateRoot + LE(84, 4) + EncBeaconBlockBody(x.body)
  {
    hide EncBeaconBlockBody, LE, Tails, Heads;
    var ps := BeaconBlockParts(x);
    assert Matches(ps, BEACON_BLOCK);
    FixedLenIsLayoutLen(ps, BEACON_BLOCK, 5);
    TailsZero(ps);
    forall k | 0 <= k <= 4
      ensures Tails(ps, k) == []
    {
      TailsSkip(ps, 0, k);
    }
    TailsOf(ps, 4);
    NoHeads(ps, 84);
    HeadsFive(ps, 0, 84);
  }

  /** Block and signature: the block begins at byte 100, its body at byte 84 of the block. */
  lemma SignedBeaconBlockBytes(x: SignedBeaconBlock)
    requires MarshalsSignedBeaconBlock(x)
    ensures EncSignedBeaconBlock(x)
         == LE(100, 4) + x.signature
            + (LE(x.block.slot, 8) + LE(x.block.proposerIndex, 8) + x.block.parentRoot + x.block.stateRoot
               + LE(84, 4) + EncBeaconBlockBody(x.block.body))
  {
    hide EncBeaconBlock, LE, MarshalsBeaconBlock, Heads, Tails;
    BeaconBlockBytes(x.block);
    var ps := SignedBeaconBlockParts(x);
    assert Matches(ps, SIGNED_BEACON_BLOCK);
    FixedLenIsLayoutLen(ps, SIGNED_BEACON_BLOCK, 2);
    TailsZero(ps);
    TailsOf(ps, 0);
    TailsOf(ps, 1);
    NoHeads(ps, 100);
    HeadsOf(ps, 0, 100);
    HeadsOf(ps, 1, 100);
  }

  // ---------- what the marshaller lets through ----------

  predicate RootsFit(d: AttestationData) { |d.source.root| == 32 && |d.target.root| == 32 }

  /** At most 2048 bits: no length bit, or one in the first 256 bytes, or the lowest bit of the next. */
  lemma BitsFit(bits: seq<byte>)
    ensures BitlistLen(bits) <= 2048
       <==> bits == [] || bits[|bits| - 1] == 0 || |bits| <= 256 || (|bits| == 257 && bits[256] == 1)
  {
    if bits != [] {
      LengthBit(bits[|bits| - 1]);
    }
  }

  lemma {:induction false} LengthBit(b: byte)
    ensures BitLen8(b) <= 8 && (b == 0 <==> BitLen8(b) == 0) && (b == 1 <==> BitLen8(b) == 1)
  {
    BitLenAtMost(b, 8);
    assert Pow2(8) == 4 * Pow2(6) && Pow2(6) == 4 * Pow2(4) && Pow2(4) == 16;
    if b > 1 {
      assert BitLen8(b / 2) > 0;
    }
  }

  function Pow2(k: nat): (p: nat)
    ensures p > 0
  {
    if k == 0 then 1 else 2 * Pow2(k - 1)
  }

  /** The bit length is the number of places up to the highest bit that is set. */
  lemma {:induction false} BitLenAtMost(b: byte, k: nat)
    ensures BitLen8(b) <= k <==> b < Pow2(k)
  {
    if b != 0 && k > 0 {
      BitLenAtMost(b / 2, k - 1);
    }
  }

  predicate AttestationFits(a: Attestation) {
    && RootsFit(a.data)
    && var bits := a.aggregationBits;
       bits == [] || bits[|bits| - 1] == 0 || |bits| <= 256 || (|bits| == 257 && bits[256] == 1)
  }

  predicate IndexedFits(a: IndexedAttestation) {
    |a.attestationIndices| <= 2048 && RootsFit(a.data) && |a.signature| == 96
  }

  predicate HeaderFits(h: SignedBeaconBlockHeader) {
    |h.header.parentRoot| == 32 && |h.header.stateRoot| == 32 && |h.header.bodyRoot| == 32 && |h.signature| == 96
  }

  /**
    The marshaller accepts a block if and only if every byte field has its length and every list
    is within its limit: 16 proposer slashings of four times 32 bytes, 2 attester slashings of at
    most 2048 indices, 128 attestations of at most 2048 bits, 16 deposits with 33 levels, 16 exits,
    32 bytes of extra data, 2^20 transactions of at most 2^30 bytes, 16 withdrawals, 16 address changes.
   */
  lemma AcceptedExactly(x: SignedBeaconBlock)
    ensures MarshalsSignedBeaconBlock(x) <==>
            var b := x.block.body;
            && |x.signature| == 96 && |b.randaoReveal| == 96
            && |b.eth1Data.depositRoot| == 32 && |b.eth1Data.blockHash| == 32
            && |b.syncAggregate.syncCommitteeBits| == 64
            && |b.proposerSlashings| <= 16
            && (forall i :: 0 <= i < |b.proposerSlashings| ==>
                  HeaderFits(b.proposerSlashings[i].header1) && HeaderFits(b.proposerSlashings[i].header2))
            && |b.attesterSlashings| <= 2
            && (forall i :: 0 <= i < |b.attesterSlashings| ==>
                  IndexedFits(b.attesterSlashings[i].attestation1) && IndexedFits(b.attesterSlashings[i].attestation2))
            && |b.attestations| <= 128
            && (forall i :: 0 <= i < |b.attestations| ==> AttestationFits(b.attestations[i]))
            && |b.deposits| <= 16
            && (forall i :: 0 <= i < |b.deposits| ==>
                  |b.deposits[i].proof| == 33 && |b.deposits[i].data.signature| == 96)
            && (forall i, j :: 0 <= i < |b.deposits| && 0 <= j < |b.deposits[i].proof| ==>
                  |b.deposits[i].proof[j]| == 32)
            && |b.voluntaryExits| <= 16
            && |b.executionPayload.extraData| <= 32
            && |b.executionPayload.transactions| <= 1048576
            && (forall i :: 0 <= i < |b.executionPayload.transactions| ==>
                  |b.executionPayload.transactions[i]| <= 1073741824)
            && |b.executionPayload.withdrawals| <= 16
            && |b.blsToExecutionChanges| <= 16
  {
    hide BitlistLen;
    var b := x.block.body;
    forall i | 0 <= i < |b.attestations|
      ensures MarshalsAttestation(b.attestations[i]) <==> AttestationFits(b.attestations[i])
    {
      BitsFit(b.attestations[i].aggregationBits);
    }
    forall i | 0 <= i < |b.attesterSlashings|
      ensures WfAttesterSlashing(b.attesterSlashings[i])
         <==> IndexedFits(b.attesterSlashings[i].attestation1) && IndexedFits(b.attesterSlashings[i].attestation2)
    {
    }
  }
}
