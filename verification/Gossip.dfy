/**
  Gossip payloads: snappy blocks around SSZ, the hand-written attestation codec, and the two
  readers that take a shortcut past the full decoding. Snappy itself is a parameter.
 */
module Gossip {
  import opened Bytes
  import opened Ssz
  import opened SszLists
  import opened Containers
  import opened FixedContainers
  import opened Capella
  import opened CapellaLaws
  import opened WireForm

  const MAX_GOSSIP: nat := 10 * 1024 * 1024

  datatype Snappy = Snappy(
    encode: seq<byte> -> seq<byte>,
    decodedLen: seq<byte> -> Option<nat>,
    decode: seq<byte> -> Option<seq<byte>>)

  function MaxCompressedLen(n: nat): nat {
    32 + n + n / 6
  }

  /** What the code relies on: decoding undoes encoding, the length field is true, and blocks are bounded. */
  ghost predicate Lawful(s: Snappy) {
    && (forall x :: s.decode(s.encode(x)) == Some(x) && |s.encode(x)| <= MaxCompressedLen(|x|))
    && (forall m :: s.decode(m).Some? ==> s.decodedLen(m) == Some(|s.decode(m).value|))
  }

  function DecodeSnappy(s: Snappy, msg: seq<byte>, maxSize: nat): Option<seq<byte>> {
    match s.decodedLen(msg)
    case None => None
    case Some(size) => if size > maxSize then None else s.decode(msg)
  }

  function EncodeGossip(s: Snappy, b: seq<byte>): Option<seq<byte>> {
    if |b| > MAX_GOSSIP then None else Some(s.encode(b))
  }

  function DecodeGossip<T>(s: Snappy, unmarshal: seq<byte> -> Option<T>, b: seq<byte>): Option<T> {
    if |b| > MaxCompressedLen(MAX_GOSSIP) then None
    else
      match DecodeSnappy(s, b, MAX_GOSSIP)
      case None => None
      case Some(raw) => unmarshal(raw)
  }

  lemma MaxCompressedMonotone(m: nat, n: nat)
    requires m <= n
    ensures MaxCompressedLen(m) <= MaxCompressedLen(n)
  {
  }

  /** The limits in numbers: 10 MiB of content, and what snappy makes of that at most. */
  lemma GossipLimits<T>(s: Snappy, unmarshal: seq<byte> -> Option<T>, b: seq<byte>)
    ensures EncodeGossip(s, b) == if |b| <= 10_485_760 then Some(s.encode(b)) else None
    ensures DecodeGossip(s, unmarshal, b).Some? ==>
              |b| <= 12_233_418 && s.decodedLen(b).Some? && s.decodedLen(b).value <= 10_485_760
    ensures |b| <= 12_233_418 && s.decodedLen(b).Some? && s.decodedLen(b).value <= 10_485_760 && s.decode(b).Some? ==>
              DecodeGossip(s, unmarshal, b) == unmarshal(s.decode(b).value)
  {
  }

  /** Whatever can be encoded for gossip is let through and decoded to the same bytes. */
  lemma GossipRoundTrip<T>(s: Snappy, unmarshal: seq<byte> -> Option<T>, b: seq<byte>)
    requires Lawful(s)
    ensures EncodeGossip(s, b).Some? <==> |b| <= MAX_GOSSIP
    ensures |b| <= MAX_GOSSIP ==> DecodeGossip(s, unmarshal, EncodeGossip(s, b).value) == unmarshal(b)
  {
    if |b| <= MAX_GOSSIP {
      assert s.decode(s.encode(b)) == Some(b);
      MaxCompressedMonotone(|b|, MAX_GOSSIP);
    }
  }

  // ---------- the hand-written attestation containers ----------

  datatype VoteTarget = VoteTarget(epoch: u64, root: Bytes32)

  datatype Vote = Vote(slot: u64, committeeIndex: u64, beaconBlockRoot: Bytes32, source: VoteTarget, target: VoteTarget)

  datatype SingleAttestation = SingleAttestation(
    committeeIndex: u64, attesterIndex: u64, data: Vote, signature: Bytes96)

  function AppendTarget(b: seq<byte>, c: VoteTarget): seq<byte> {
    b + LE(c.epoch, 8) + c.root
  }

  function UnmarshalTarget(b: seq<byte>): VoteTarget
    requires |b| == 40
  {
    VoteTarget(Uint64(b[..8]), b[8..40])
  }

  function MarshalVote(d: Vote): (b: seq<byte>)
    ensures |b| == 128
  {
    AppendTarget(AppendTarget(LE(d.slot, 8) + LE(d.committeeIndex, 8) + d.beaconBlockRoot, d.source), d.target)
  }

  function UnmarshalVote(b: seq<byte>): Option<Vote> {
    if |b| != 128 then None
    else Some(Vote(Uint64(b[0..8]), Uint64(b[8..16]), b[16..48], UnmarshalTarget(b[48..88]),
        UnmarshalTarget(b[88..128])))
  }

  function MarshalSingle(a: SingleAttestation): (b: seq<byte>)
    ensures |b| == 240
  {
    LE(a.committeeIndex, 8) + LE(a.attesterIndex, 8) + MarshalVote(a.data) + a.signature
  }

  function UnmarshalSingle(b: seq<byte>): Option<SingleAttestation> {
    if |b| != 240 then None
    else
      var data := UnmarshalVote(b[16..144]);
      if data.None? then None
      else Some(SingleAttestation(Uint64(b[0..8]), Uint64(b[8..16]), data.value, b[144..240]))
  }

  lemma TargetExact(c: VoteTarget, b: seq<byte>)
    requires |b| == 40
    ensures AppendTarget([], c) == b <==> UnmarshalTarget(b) == c
  {
    hide LE, FromLE;
    Uint64Exact(c.epoch, b[..8]);
    var w := AppendTarget([], c);
    assert w[..8] == LE(c.epoch, 8) && w[8..40] == c.root;
    assert b == b[..8] + b[8..40];
  }

  lemma VoteCut(d: Vote)
    ensures var w := MarshalVote(d);
            && w[0..8] == LE(d.slot, 8) && w[8..16] == LE(d.committeeIndex, 8) && w[16..48] == d.beaconBlockRoot
            && w[48..88] == AppendTarget([], d.source) && w[88..128] == AppendTarget([], d.target)
  {
    hide LE;
  }

  lemma VoteExact(d: Vote, b: seq<byte>)
    requires |b| == 128
    ensures MarshalVote(d) == b <==> UnmarshalVote(b) == Some(d)
  {
    hide LE, FromLE, UnmarshalTarget, AppendTarget, MarshalVote;
    VoteCut(d);
    Uint64Exact(d.slot, b[0..8]);
    Uint64Exact(d.committeeIndex, b[8..16]);
    TargetExact(d.source, b[48..88]);
    TargetExact(d.target, b[88..128]);
    Pieces128(b, MarshalVote(d));
  }

  lemma Pieces128(b: seq<byte>, c: seq<byte>)
    requires |b| == |c| == 128
    ensures b == c <==> && b[0..8] == c[0..8] && b[8..16] == c[8..16] && b[16..48] == c[16..48]
                        && b[48..88] == c[48..88] && b[88..128] == c[88..128]
  {
    assert b == b[0..8] + b[8..16] + b[16..48] + b[48..88] + b[88..128];
    assert c == c[0..8] + c[8..16] + c[16..48] + c[48..88] + c[88..128];
  }

  /** The hand-written attestation data and the generated one are the same bytes. */
  lemma VoteIsAttestationData(v: Vote)
    ensures MarshalVote(v)
         == EncAttestationData(AttestationData(v.slot, v.committeeIndex, v.beaconBlockRoot,
                                               Checkpoint(v.source.epoch, v.source.root),
                                               Checkpoint(v.target.epoch, v.target.root)))
  {
    hide LE, EncAttestationData;
    AttestationDataBytes(AttestationData(v.slot, v.committeeIndex, v.beaconBlockRoot,
                                         Checkpoint(v.source.epoch, v.source.root),
                                         Checkpoint(v.target.epoch, v.target.root)));
  }

  /** The bytes of an attestation, field by field: 240 of them. */
  lemma SingleBytes(a: SingleAttestation)
    ensures MarshalSingle(a)
         == LE(a.committeeIndex, 8) + LE(a.attesterIndex, 8)
            + (LE(a.data.slot, 8) + LE(a.data.committeeIndex, 8) + a.data.beaconBlockRoot
               + LE(a.data.source.epoch, 8) + a.data.source.root + LE(a.data.target.epoch, 8) + a.data.target.root)
            + a.signature
  {
    hide LE;
  }

  lemma SingleCut(a: SingleAttestation)
    ensures var w := MarshalSingle(a);
            && w[0..8] == LE(a.committeeIndex, 8) && w[8..16] == LE(a.attesterIndex, 8)
            && w[16..144] == MarshalVote(a.data) && w[144..240] == a.signature
  {
    hide LE, MarshalVote;
  }

  /** The attestation codec: reading gives an attestation exactly from the bytes it writes, on any 240 bytes. */
  lemma SingleExact(a: SingleAttestation, b: seq<byte>)
    ensures UnmarshalSingle(b) == Some(a) <==> MarshalSingle(a) == b
    ensures UnmarshalSingle(b).Some? <==> |b| == 240
  {
    hide LE, FromLE, UnmarshalVote, MarshalVote, MarshalSingle;
    if |b| == 240 {
      SingleCut(a);
      Uint64Exact(a.committeeIndex, b[0..8]);
      Uint64Exact(a.attesterIndex, b[8..16]);
      VoteExact(a.data, b[16..144]);
      assert UnmarshalVote(b[16..144]).Some? by { VoteLength(b[16..144]); }
      Pieces240(b, MarshalSingle(a));
    }
  }

  lemma VoteLength(b: seq<byte>)
    ensures UnmarshalVote(b).Some? <==> |b| == 128
  {
  }

  lemma Pieces240(b: seq<byte>, c: seq<byte>)
    requires |b| == |c| == 240
    ensures b == c <==>
            b[0..8] == c[0..8] && b[8..16] == c[8..16] && b[16..144] == c[16..144] && b[144..240] == c[144..240]
  {
    assert b == b[0..8] + b[8..16] + b[16..144] + b[144..240];
    assert c == c[0..8] + c[8..16] + c[16..144] + c[144..240];
  }

  /** The receiver of UnmarshalSSZ: its fields are written one after the other. */
  class AttestationReceiver {
    var committeeIndex: u64
    var attesterIndex: u64
    var data: Vote
    var signature: Bytes96

    constructor (a: SingleAttestation)
      ensures Value() == a
    {
      committeeIndex, attesterIndex, data, signature := a.committeeIndex, a.attesterIndex, a.data, a.signature;
    }

    function Value(): SingleAttestation
      reads this
    {
      SingleAttestation(committeeIndex, attesterIndex, data, signature)
    }

    /** Appends field after field to a buffer. */
    method MarshalSSZ() returns (b: seq<byte>)
      ensures b == MarshalSingle(Value())
    {
      b := [];
      b := b + LE(committeeIndex, 8);
      b := b + LE(attesterIndex, 8);
      var vote := LE(data.slot, 8);
      vote := vote + LE(data.committeeIndex, 8);
      vote := vote + data.beaconBlockRoot;
      vote := AppendTarget(vote, data.source);
      vote := AppendTarget(vote, data.target);
      b := b + vote;
      b := b + signature;
    }

    method UnmarshalData(b: seq<byte>)
      requires |b| == 128
      modifies `data
      ensures Some(data) == UnmarshalVote(b)
    {
      data := data.(slot := Uint64(b[0..8]));
      data := data.(committeeIndex := Uint64(b[8..16]));
      data := data.(beaconBlockRoot := b[16..48]);
      data := data.(source := UnmarshalTarget(b[48..88]));
      data := data.(target := UnmarshalTarget(b[88..128]));
    }

    /** A wrong length leaves the receiver as it was. */
    method UnmarshalSSZ(b: seq<byte>) returns (ok: bool)
      modifies this
      ensures ok == UnmarshalSingle(b).Some?
      ensures Value() == if ok then UnmarshalSingle(b).value else old(Value())
    {
      if |b| != 240 {
        return false;
      }
      committeeIndex := Uint64(b[0..8]);
      attesterIndex := Uint64(b[8..16]);
      UnmarshalData(b[16..144]);
      signature := b[144..240];
      return true;
    }
  }

  // ---------- the attestation shortcut ----------

  /** Attester and slot straight from their places in the bytes. */
  function ParseAttestation(s: Snappy, buf: seq<byte>): Option<(u64, u64)> {
    match DecodeSnappy(s, buf, 300)
    case None => None
    case Some(msg) => if |msg| != 240 then None else Some((Uint64(msg[8..16]), Uint64(msg[16..24])))
  }

  /** The shortcut succeeds exactly when the full decoding does, and reads the same two numbers. */
  lemma ParseRefinesUnmarshal(s: Snappy, buf: seq<byte>)
    requires Lawful(s)
    ensures ParseAttestation(s, buf)
         == match DecodeSnappy(s, buf, MAX_GOSSIP) {
              case None => None
              case Some(raw) =>
                match UnmarshalSingle(raw)
                case None => None
                case Some(a) => Some((a.attesterIndex, a.data.slot))
            }
  {
    hide FromLE;
    match s.decode(buf) {
      case Some(msg) =>
        if |msg| == 240 {
          assert msg[16..24] == msg[16..144][0..8];
        }
      case None =>
    }
  }

  // ---------- the block header shortcut ----------

  const HEADER_AT: nat := 100
  const HEADER_LEN: nat := 112

  function DecodeBlockHeader(s: Snappy, encodedBlock: seq<byte>): Option<SignedBeaconBlockHeader> {
    match DecodeSnappy(s, encodedBlock, MAX_GOSSIP)
    case None => None
    case Some(raw) =>
      if |raw| < HEADER_AT + HEADER_LEN || Uint32(raw[..4]) != HEADER_AT then None
      else
        match DecBeaconBlockHeader(raw[HEADER_AT..HEADER_AT + HEADER_LEN])
        case None => None
        case Some(h) => Some(SignedBeaconBlockHeader(h.(bodyRoot := []), raw[4..HEADER_AT]))
  }

  /** What the header reader takes from where: 212 bytes at least, the offset 100 in front, and no body root. */
  lemma HeaderByPlaces(s: Snappy, encodedBlock: seq<byte>)
    ensures DecodeBlockHeader(s, encodedBlock)
         == match DecodeSnappy(s, encodedBlock, 10_485_760) {
              case None => None
              case Some(raw) =>
                if |raw| < 212 || raw[..4] != [100, 0, 0, 0] then None
                else Some(SignedBeaconBlockHeader(
                            BeaconBlockHeader(Uint64(raw[100..108]), Uint64(raw[108..116]), raw[116..148],
                                              raw[148..180], []),
                            raw[4..100]))
            }
  {
    hide FromLE, DecBeaconBlockHeader, LE;
    match DecodeSnappy(s, encodedBlock, 10_485_760) {
      case None =>
      case Some(raw) =>
        if |raw| >= 212 {
          HundredInFour();
          Uint32Exact(100, raw[..4]);
          HeaderFields(raw[100..212]);
          SliceOfSlice(raw, 100, 212, 0, 8);
          SliceOfSlice(raw, 100, 212, 8, 16);
          SliceOfSlice(raw, 100, 212, 16, 48);
          SliceOfSlice(raw, 100, 212, 48, 80);
        }
    }
  }

  lemma HundredInFour()
    ensures LE(100, 4) == [100, 0, 0, 0]
  {
    assert Digit(100, 0) == 100 && Digit(100, 1) == 0 && Digit(100, 2) == Digit(0, 1) == 0;
    assert Digit(100, 3) == Digit(0, 2) == Digit(0, 1);
  }

  lemma SliceOfSlice(raw: seq<byte>, i: nat, j: nat, k: nat, l: nat)
    requires k <= l <= j - i && i <= j <= |raw|
    ensures raw[i..j][k..l] == raw[i + k..i + l]
  {
    assert forall x :: 0 <= x < l - k ==> raw[i..j][k..l][x] == raw[i..j][k + x] == raw[i + k + x];
  }

  lemma HeaderFields(b: seq<byte>)
    requires |b| == 112
    ensures DecBeaconBlockHeader(b)
         == Some(BeaconBlockHeader(Uint64(b[..8]), Uint64(b[8..16]), b[16..48], b[48..80], b[80..]))
  {
    hide FromLE, DecBeaconBlockHeader, EncBeaconBlockHeader, LE;
    var h := BeaconBlockHeader(Uint64(b[..8]), Uint64(b[8..16]), b[16..48], b[48..80], b[80..]);
    BeaconBlockHeaderExact();
    BeaconBlockHeaderBytes(h);
    Uint64Exact(h.slot, b[..8]);
    Uint64Exact(h.proposerIndex, b[8..16]);
    assert b == b[..8] + b[8..16] + b[16..48] + b[48..80] + b[80..];
    Field(WfBeaconBlockHeader, EncBeaconBlockHeader, DecBeaconBlockHeader, b, h);
  }

  /** The header a signed block announces, without a body root. */
  function HeaderOf(x: SignedBeaconBlock): SignedBeaconBlockHeader {
    SignedBeaconBlockHeader(
      BeaconBlockHeader(x.block.slot, x.block.proposerIndex, x.block.parentRoot, x.block.stateRoot, []), x.signature)
  }

  /** Bytes 100 to 212 of a signed block read as a header whose body root is whatever follows the state root. */
  lemma HeaderInBlock(x: SignedBeaconBlock, raw: seq<byte>)
    requires MarshalsSignedBeaconBlock(x) && raw == EncSignedBeaconBlock(x)
    ensures |raw| >= 212 && raw[..4] == LE(100, 4) && raw[4..100] == x.signature
    ensures EncBeaconBlockHeader(BeaconBlockHeader(x.block.slot, x.block.proposerIndex, x.block.parentRoot,
                                                   x.block.stateRoot, raw[180..212])) == raw[100..212]
  {
    hide LE, EncBeaconBlock, EncSignedBeaconBlock, EncBeaconBlockBody, EncBeaconBlockHeader, MarshalsBeaconBlockBody;
    SignedBeaconBlockBytes(x);
    SignedBeaconBlockShape(x);
    var b := x.block;
    BeaconBlockHeaderBytes(BeaconBlockHeader(b.slot, b.proposerIndex, b.parentRoot, b.stateRoot, raw[180..212]));
    assert raw[100..180] == LE(b.slot, 8) + LE(b.proposerIndex, 8) + b.parentRoot + b.stateRoot;
    assert raw[100..212] == raw[100..180] + raw[180..212];
  }

  /**
    Every signed block the marshaller lets through, up to the gossip size cap, is accepted by the
    header reader, which returns its slot, proposer, parent root, state root and signature.
   */
  lemma HeaderOfMarshalledBlock(s: Snappy, x: SignedBeaconBlock)
    requires Lawful(s) && MarshalsSignedBeaconBlock(x) && SizeSignedBeaconBlock(x) <= MAX_GOSSIP
    ensures DecodeBlockHeader(s, s.encode(EncSignedBeaconBlock(x))) == Some(HeaderOf(x))
  {
    hide LE, FromLE, EncSignedBeaconBlock, DecBeaconBlockHeader, EncBeaconBlockHeader, MarshalsBeaconBlock,
         SizeSignedBeaconBlock;
    var raw, b := EncSignedBeaconBlock(x), x.block;
    SignedBeaconBlockShape(x);
    HeaderInBlock(x, raw);
    Uint32Exact(100, raw[..4]);
    var h := BeaconBlockHeader(b.slot, b.proposerIndex, b.parentRoot, b.stateRoot, raw[180..212]);
    BeaconBlockHeaderExact();
    Field(WfBeaconBlockHeader, EncBeaconBlockHeader, DecBeaconBlockHeader, raw[100..212], h);
    assert s.decode(s.encode(raw)) == Some(raw);
  }

  /** The header reader agrees with the full reader on every payload the full reader accepts. */
  lemma HeaderRefinesFullDecoding(s: Snappy, encodedBlock: seq<byte>, raw: seq<byte>, x: SignedBeaconBlock)
    requires Lawful(s) && DecodeSnappy(s, encodedBlock, MAX_GOSSIP) == Some(raw)
    requires DecSignedBeaconBlock(raw) == Some(x)
    ensures DecodeBlockHeader(s, encodedBlock) == Some(HeaderOf(x))
  {
    hide LE, FromLE, EncSignedBeaconBlock, DecSignedBeaconBlock, DecBeaconBlockHeader, EncBeaconBlockHeader,
         SizeSignedBeaconBlock;
    assert |raw| <= MAX_GOSSIP;
    Canonical(raw, x);
    HeaderOfMarshalledBlock(s, x);
    assert s.decode(s.encode(raw)) == Some(raw);
  }
}
