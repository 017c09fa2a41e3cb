# Verified model of the gateway

The gateway relays Ethereum consensus gossip between a consensus-layer client and the mumP2P mesh.
This project models the parts of it that carry hard promises and proves those promises with Dafny 4.11:
`dafny verify dfyconfig.toml` checks everything.

| files | what they model |
|---|---|
| `Bytes`, `Ssz`, `SszLists`, `Containers` | little-endian words and the SSZ container law: heads with offsets, bodies later, nested lists |
| `FixedContainers`, `Capella`, `CapellaLaws` | the generated containers up to the signed Capella block, their sizes, and exactness of read against write |
| `WireForm` | the same containers in literal terms: bytes field by field, offsets and limits as numbers |
| `CapellaMarshal`, `CapellaUnmarshal` | the generated code in its own form: a buffer, a running offset, loops, a reader that advances |
| `Gossip`, `ReqResp`, `MessageId` | gossip payloads, the hand-written attestation codec, the two shortcut readers, request/response chunks, message ids |
| `Enrollment`, `EnrollmentHost` | self-enrollment as a protocol of disk writes, requests and crashes, and the code that performs it |
| `Multisets`, `Packer`, `Payloads`, `PackRoundTrip`, `Aggregator`, `SlotGate` | attestation packing and its round trip, payload contents, the service loop's account, and the slot window |
| `Text`, `Topics`, `Forks` | topic names, their caches, and fork digest tracking |
| `Admission`, `Dedup`, `Connections`, `Accelerate`, `KnownValidators` | mesh admission, cross-direction deduplication, connection caps, the acceleration window, validator chunks |

Code that updates things step by step is a method or a class here, proved against functions; what the code promises is
proved of those functions and of the state machines built from them. Concurrent code is modelled as steps. Where the
choice of step decides whether a promise holds, both sizes are modelled: the promise for the large step, and for the small
one what remains true and a run in which the rest fails.

Four findings, all but the third against the code's own comments and log lines:

- The comment at pkg/service/enrollment/enrollment.go:418-421 says that a 400 cannot follow a committed key. It can,
  when the configuration changed between boots. `Enrollment.MixedOptionsCreateTwo` is the run,
  `Enrollment.SafeExactlyWhenUniform` the exact condition under which enrollment keeps its promise.
- The log line at pkg/service/aggregator/aggregator.go:114 announces a fallback when packs cannot be marshalled. The packer
  is emptied all the same. `Aggregator.Service.BuildAndEmit` states exactly what is dropped, `Aggregator.PacksLostExactly`
  when, and `Aggregator.AttestationIsDropped` shows it on a protobuf that refuses. An AttestationPack holds only bytes and
  integers, which Go's protobuf is not known to refuse, so for packs this is a latent error branch.
- The marshaller accepts an aggregation bitlist without a length bit, which the reader refuses.
  `CapellaLaws.RoundTrip` states the round trip with that exact condition, `CapellaLaws.WrittenAndRefused` gives a block.
- The comment at pkg/service/gossipsub-gateway/beacon_block_measures.go:16 speaks of slots behind the clock. Lines 55-56
  take the absolute difference, so a block four slots ahead is held back too, and a block held back is not remembered. One
  slot later the same payload from the other side is published to where it first came from: `Dedup.EarlyBlockIsEchoed` is
  the run in both directions, `Dedup.MeshEchoExactly` and `Dedup.CLEchoExactly` say exactly which arrivals are safe.

Foreign code enters as parameters with stated laws: block snappy (decoding undoes encoding, the length field is true,
blocks are bounded by 32+n+n/6), framed snappy (reads back, at most 10 bytes plus 8 per 64 KiB), protobuf (reads back
what it wrote, may fail to write), XXHash and SHA-256 (any function), the enrollment authority (body check, join key,
thumbprint lookup, insert, in this order). The runtime behind the generated SSZ code is not part of the repository; offsets,
lists and bitlists follow the sections "Serialization" and "Deserialization" of the Ethereum consensus specification's
`ssz/simple-serialize.md`. Every hypothesis of a result is in its contract.

## Model

| member | source | states |
|---|---|---|
| `Ssz.SplitExact` | pkg/protocol/fastssz_codegen/structs_encoding.go:8948-9206 | The container law behind every generated codec, for any layout of fixed and variable fields: cutting a buffer below 2^32 bytes gives these parts if and only if the parts fit the layout and assembling them (heads with offsets first, bodies later) gives back that very buffer. Nothing non-canonical is accepted, nothing written is refused |
| `Ssz.OffsetPointsAtTail` | pkg/protocol/fastssz_codegen/structs_encoding.go:8948-9100 | The offset written in a variable field's head equals the position where that field's bytes begin, if and only if that position is below 2^32; the bytes at that position are the field's |
| `SszLists.ListExact` | pkg/protocol/fastssz_codegen/structs_encoding.go:9061-9081 | A list of fixed-size elements reads back as `xs` if and only if `xs` is within the limit, well formed, and `buf` is its concatenation |
| `SszLists.DynExact` | pkg/protocol/fastssz_codegen/structs_encoding.go:9025-9059 | A list of variable-size elements, with its own inner table of offsets, reads back as `xs` if and only if `xs` is within the limit, well formed, and `buf` is its encoding |
| `SszLists.EncDynLen` | pkg/protocol/fastssz_codegen/structs_encoding.go:9214-9248 | The encoded length of a list of variable-size elements is the sum SizeSSZ computes: the element sizes plus four bytes each |
| `Containers.ContainerExact` | pkg/protocol/fastssz_codegen/structs_encoding.go:339-404 | A container codec reads exactly what it writes as soon as its fields do, whatever the fields are |
| `FixedContainers.CheckpointExact` | pkg/protocol/fastssz_codegen/structs_encoding.go:126-173 | Checkpoint: a buffer reads as a value if and only if the value is well formed and its encoding is that buffer; the encoding has the fixed size |
| `FixedContainers.AttestationDataExact` | pkg/protocol/fastssz_codegen/structs_encoding.go:209-288 | AttestationData: a buffer reads as a value if and only if the value is well formed and its encoding is that buffer; the encoding has the fixed size |
| `FixedContainers.BeaconBlockHeaderExact` | pkg/protocol/fastssz_codegen/structs_encoding.go:5865-5938 | BeaconBlockHeader: a buffer reads as a value if and only if the value is well formed and its encoding is that buffer; the encoding has the fixed size |
| `FixedContainers.SignedBeaconBlockHeaderExact` | pkg/protocol/fastssz_codegen/structs_encoding.go:5770-5824 | SignedBeaconBlockHeader: a buffer reads as a value if and only if the value is well formed and its encoding is that buffer; the encoding has the fixed size |
| `FixedContainers.ProposerSlashingExact` | pkg/protocol/fastssz_codegen/structs_encoding.go:1859-1916 | ProposerSlashing: a buffer reads as a value if and only if the value is well formed and its encoding is that buffer; the encoding has the fixed size |
| `FixedContainers.Eth1DataExact` | pkg/protocol/fastssz_codegen/structs_encoding.go:1555-1612 | Eth1Data: a buffer reads as a value if and only if the value is well formed and its encoding is that buffer; the encoding has the fixed size |
| `FixedContainers.DepositDataExact` | pkg/protocol/fastssz_codegen/structs_encoding.go:462-521 | DepositData: a buffer reads as a value if and only if the value is well formed and its encoding is that buffer; the encoding has the fixed size |
| `FixedContainers.DepositExact` | pkg/protocol/fastssz_codegen/structs_encoding.go:563-626 | Deposit: a buffer reads as a value if and only if the value is well formed and its encoding is that buffer; the encoding has the fixed size |
| `FixedContainers.VoluntaryExitExact` | pkg/protocol/fastssz_codegen/structs_encoding.go:1301-1344 | VoluntaryExit: a buffer reads as a value if and only if the value is well formed and its encoding is that buffer; the encoding has the fixed size |
| `FixedContainers.SignedVoluntaryExitExact` | pkg/protocol/fastssz_codegen/structs_encoding.go:1376-1426 | SignedVoluntaryExit: a buffer reads as a value if and only if the value is well formed and its encoding is that buffer; the encoding has the fixed size |
| `FixedContainers.SyncAggregateExact` | pkg/protocol/fastssz_codegen/structs_encoding.go:6248-6295 | SyncAggregate: a buffer reads as a value if and only if the value is well formed and its encoding is that buffer; the encoding has the fixed size |
| `FixedContainers.BLSToExecutionChangeExact` | pkg/protocol/fastssz_codegen/structs_encoding.go:7567-7616 | BLSToExecutionChange: a buffer reads as a value if and only if the value is well formed and its encoding is that buffer; the encoding has the fixed size |
| `FixedContainers.SignedBLSToExecutionChangeExact` | pkg/protocol/fastssz_codegen/structs_encoding.go:7726-7776 | SignedBLSToExecutionChange: a buffer reads as a value if and only if the value is well formed and its encoding is that buffer; the encoding has the fixed size |
| `FixedContainers.WithdrawalExact` | pkg/protocol/fastssz_codegen/structs_encoding.go:7813-7868 | Withdrawal: a buffer reads as a value if and only if the value is well formed and its encoding is that buffer; the encoding has the fixed size |
| `Capella.AttestationExact` | pkg/protocol/fastssz_codegen/structs_encoding.go:339-418 | Attestation: read and write are exact, and the reader wants a bitlist with a length bit within the limit |
| `Capella.IndexedAttestationExact` | pkg/protocol/fastssz_codegen/structs_encoding.go:777-865 | IndexedAttestation: read and write are exact, with at most 2048 indices |
| `Capella.AttesterSlashingExact` | pkg/protocol/fastssz_codegen/structs_encoding.go:1958-2047 | AttesterSlashing: read and write are exact through two nested variable-size attestations |
| `CapellaLaws.ExecutionPayloadExact` | pkg/protocol/fastssz_codegen/structs_encoding.go:7022-7230 | ExecutionPayloadCapella: read and write are exact through the extra data, the list of transactions and the list of withdrawals |
| `CapellaLaws.BeaconBlockBodyExact` | pkg/protocol/fastssz_codegen/structs_encoding.go:8948-9248 | BeaconBlockBodyCapella: read and write are exact through seven variable-size fields, two of them lists of variable-size elements |
| `CapellaLaws.BeaconBlockExact` | pkg/protocol/fastssz_codegen/structs_encoding.go:8820-8905 | BeaconBlockCapella: read and write are exact |
| `CapellaLaws.SignedBeaconBlockExact` | pkg/protocol/fastssz_codegen/structs_encoding.go:8711-8781 | SignedBeaconBlockCapella: read and write are exact through all nesting |
| `CapellaLaws.SignedBeaconBlockShape` | pkg/protocol/fastssz_codegen/structs_encoding.go:8767-8781 | The output length of every block the marshaller accepts equals SizeSSZ |
| `CapellaLaws.RoundTrip` | pkg/protocol/fastssz_codegen/structs_encoding.go:8711-8764 | What unmarshalling makes of a signed block the marshaller accepts, below 2^32 bytes: the same block if all aggregation bitlists carry a length bit, and a refusal otherwise |
| `CapellaLaws.RefusedSignedBlock` | pkg/protocol/fastssz_codegen/structs_encoding.go:373-404 | A block with one aggregation bitlist without a length bit, anywhere in its attestations, is refused through all nesting |
| `CapellaLaws.WrittenAndRefused` | pkg/protocol/fastssz_codegen/structs_encoding.go:339-404 | A concrete block with the bitlist [0] that the marshaller accepts and the reader refuses |
| `CapellaLaws.Canonical` | pkg/protocol/fastssz_codegen/structs_encoding.go:8739-8764 | A buffer that reads as a block is that block's own encoding, of its own SizeSSZ: no two buffers read as one block |
| `WireForm.WordBytes` | pkg/protocol/consensus/attestation.go:40-48 | A written integer: the byte at place i has weight 256^i, and there are exactly as many as asked for |
| `WireForm.WordValue` | pkg/protocol/consensus/attestation.go:50-60 | Eight bytes read as the number with these weights, lowest first |
| `WireForm.CheckpointBytes` | pkg/protocol/fastssz_codegen/structs_encoding.go:126-145 | Checkpoint: epoch, then root |
| `WireForm.AttestationDataBytes` | pkg/protocol/fastssz_codegen/structs_encoding.go:209-246 | AttestationData: slot, index, block root, source epoch and root, target epoch and root |
| `WireForm.BeaconBlockHeaderBytes` | pkg/protocol/fastssz_codegen/structs_encoding.go:5865-5900 | BeaconBlockHeader: slot, proposer, parent root, state root, body root |
| `WireForm.SignedBeaconBlockHeaderBytes` | pkg/protocol/fastssz_codegen/structs_encoding.go:5770-5792 | SignedBeaconBlockHeader: header, then signature |
| `WireForm.ProposerSlashingBytes` | pkg/protocol/fastssz_codegen/structs_encoding.go:1859-1884 | ProposerSlashing: first header, then second |
| `WireForm.Eth1DataBytes` | pkg/protocol/fastssz_codegen/structs_encoding.go:1555-1580 | Eth1Data: deposit root, deposit count, block hash |
| `WireForm.DepositDataBytes` | pkg/protocol/fastssz_codegen/structs_encoding.go:462-484 | DepositData: public key, withdrawal credentials, amount, signature |
| `WireForm.DepositBytes` | pkg/protocol/fastssz_codegen/structs_encoding.go:563-596 | Deposit: level i of the branch at byte 32 i, the data from byte 1056 |
| `WireForm.VoluntaryExitBytes` | pkg/protocol/fastssz_codegen/structs_encoding.go:1301-1312 | VoluntaryExit: epoch, then validator |
| `WireForm.SignedVoluntaryExitBytes` | pkg/protocol/fastssz_codegen/structs_encoding.go:1376-1394 | SignedVoluntaryExit: epoch, validator, signature |
| `WireForm.SyncAggregateBytes` | pkg/protocol/fastssz_codegen/structs_encoding.go:6248-6264 | SyncAggregate: bits, then signature |
| `WireForm.BLSToExecutionChangeBytes` | pkg/protocol/fastssz_codegen/structs_encoding.go:7567-7582 | BLSToExecutionChange: validator, old public key, new address |
| `WireForm.SignedBLSToExecutionChangeBytes` | pkg/protocol/fastssz_codegen/structs_encoding.go:7726-7744 | SignedBLSToExecutionChange: validator, old public key, new address, signature |
| `WireForm.WithdrawalBytes` | pkg/protocol/fastssz_codegen/structs_encoding.go:7813-7829 | Withdrawal: index, validator, address, amount |
| `WireForm.ListBytes` | pkg/protocol/fastssz_codegen/structs_encoding.go:9014-9023 | A list of elements of n bytes: element i lies at byte n i |
| `WireForm.DynBytes` | pkg/protocol/fastssz_codegen/structs_encoding.go:9025-9041 | A list of variable-size elements below 2^32 bytes: entry i of the table is the place behind the table and the elements before it, and there element i lies |
| `WireForm.AttestationBytes` | pkg/protocol/fastssz_codegen/structs_encoding.go:339-363 | Attestation: offset 228, data, signature, then the bits |
| `WireForm.IndexedAttestationBytes` | pkg/protocol/fastssz_codegen/structs_encoding.go:777-812 | IndexedAttestation: offset 228, data, signature, then the indices, eight bytes each |
| `WireForm.AttesterSlashingBytes` | pkg/protocol/fastssz_codegen/structs_encoding.go:1958-1988 | AttesterSlashing: offset 8, the second offset as a number, then both attestations |
| `WireForm.ExecutionPayloadBytes` | pkg/protocol/fastssz_codegen/structs_encoding.go:7022-7118 | ExecutionPayloadCapella: its fifteen fields in order, with 512 and on as offsets, then the three lists |
| `WireForm.BeaconBlockBodyBytes` | pkg/protocol/fastssz_codegen/structs_encoding.go:8948-9100 | BeaconBlockBodyCapella: its eleven fields in order, with 388 and on as offsets, then the seven bodies |
| `WireForm.BeaconBlockBytes` | pkg/protocol/fastssz_codegen/structs_encoding.go:8820-8850 | BeaconBlockCapella: slot, proposer, both roots, offset 84, body |
| `WireForm.SignedBeaconBlockBytes` | pkg/protocol/fastssz_codegen/structs_encoding.go:8711-8734 | SignedBeaconBlockCapella: offset 100, signature, then the block |
| `WireForm.BitsFit` | pkg/protocol/fastssz_codegen/structs_encoding.go:356-361 | A bitlist has at most 2048 bits if and only if it has no length bit, or at most 256 bytes, or a 257th byte that is 1 |
| `WireForm.AcceptedExactly` | pkg/protocol/fastssz_codegen/structs_encoding.go:8948-9100 | The marshaller accepts a signed block if and only if every byte field has its length and every list is within its limit, all as numbers: 16 proposer slashings, 2 attester slashings of 2048 indices, 128 attestations of 2048 bits, 16 deposits of 33 levels, 16 exits, 32 bytes of extra data, 2^20 transactions of 2^30 bytes, 16 withdrawals, 16 address changes |
| `CapellaMarshal.MarshalList` | pkg/protocol/fastssz_codegen/structs_encoding.go:9014-9023 | The loop over a list of fixed-size elements appends their concatenation to the buffer |
| `CapellaMarshal.MarshalOffsets` | pkg/protocol/fastssz_codegen/structs_encoding.go:9030-9036 | The loop that reuses `offset` for an inner table writes, for every element, the offset the container law asks for |
| `CapellaMarshal.MarshalAttesterSlashings` | pkg/protocol/fastssz_codegen/structs_encoding.go:9025-9041 | Limit check, the loop that reuses `offset` for the inner table, then the bodies: the buffer grows by the list's encoding, or the limit is refused |
| `CapellaMarshal.MarshalAttestations` | pkg/protocol/fastssz_codegen/structs_encoding.go:9043-9059 | As for slashings, for the attestations |
| `CapellaMarshal.MarshalTransactions` | pkg/protocol/fastssz_codegen/structs_encoding.go:7083-7101 | As above for the transactions, each within its own limit |
| `CapellaMarshal.MarshalAttestation` | pkg/protocol/fastssz_codegen/structs_encoding.go:339-365 | Appends exactly the encoding of an attestation, or refuses it |
| `CapellaMarshal.MarshalIndexedAttestation` | pkg/protocol/fastssz_codegen/structs_encoding.go:777-809 | Appends exactly the encoding of an indexed attestation, or refuses it |
| `CapellaMarshal.MarshalAttesterSlashing` | pkg/protocol/fastssz_codegen/structs_encoding.go:1958-1983 | Appends exactly the encoding of a slashing; the second offset is the first one plus SizeSSZ of the first attestation |
| `Capella.AttesterSlashingShape` | pkg/protocol/fastssz_codegen/structs_encoding.go:2031-2047 | The encoding of every slashing the marshaller accepts has exactly the length SizeSSZ computes, and its parts fit the layout |
| `CapellaMarshal.SizeSSZExecutionPayload` | pkg/protocol/fastssz_codegen/structs_encoding.go:7214-7230 | The loop over transactions computes the length of the encoding |
| `CapellaMarshal.SizeSSZBeaconBlockBody` | pkg/protocol/fastssz_codegen/structs_encoding.go:9214-9248 | The loops over slashings and attestations compute the length of the encoding |
| `CapellaMarshal.MarshalExecutionPayload` | pkg/protocol/fastssz_codegen/structs_encoding.go:7022-7115 | Appends exactly the encoding of a payload, offsets first and bodies later, or refuses it |
| `CapellaMarshal.MarshalBeaconBlockBody` | pkg/protocol/fastssz_codegen/structs_encoding.go:8948-9100 | Appends exactly the encoding of a body: every offset running through `offset` is the one the container law asks for |
| `CapellaMarshal.MarshalBeaconBlock` | pkg/protocol/fastssz_codegen/structs_encoding.go:8820-8845 | Appends exactly the encoding of a block, or refuses it |
| `CapellaMarshal.MarshalSignedBeaconBlock` | pkg/protocol/fastssz_codegen/structs_encoding.go:8711-8731 | Appends exactly the encoding of a signed block after whatever the buffer held, or refuses it |
| `CapellaUnmarshal.ReadOffset` | pkg/protocol/fastssz_codegen/structs_encoding.go:9115-9168 | The offset marker: an offset is accepted if and only if it is the fixed size when first, not below the last one otherwise, and within the buffer |
| `CapellaUnmarshal.UnmarshalAttestation` | pkg/protocol/fastssz_codegen/structs_encoding.go:373-404 | Reads heads and then bodies while advancing through the buffer, and returns exactly what the Attestation decoding is: same value, same refusals |
| `CapellaUnmarshal.UnmarshalIndexedAttestation` | pkg/protocol/fastssz_codegen/structs_encoding.go:817-851 | Reads heads and then bodies while advancing through the buffer, and returns exactly what the IndexedAttestation decoding is: same value, same refusals |
| `CapellaUnmarshal.UnmarshalAttesterSlashing` | pkg/protocol/fastssz_codegen/structs_encoding.go:1991-2024 | Reads heads and then bodies while advancing through the buffer, and returns exactly what the AttesterSlashing decoding is: same value, same refusals |
| `CapellaUnmarshal.UnmarshalExecutionPayload` | pkg/protocol/fastssz_codegen/structs_encoding.go:7123-7206 | Reads heads and then bodies while advancing through the buffer, and returns exactly what the ExecutionPayload decoding is: same value, same refusals |
| `CapellaUnmarshal.UnmarshalBeaconBlockBody` | pkg/protocol/fastssz_codegen/structs_encoding.go:9108-9206 | Reads heads and then bodies while advancing through the buffer, and returns exactly what the BeaconBlockBody decoding is: same value, same refusals |
| `CapellaUnmarshal.UnmarshalBeaconBlock` | pkg/protocol/fastssz_codegen/structs_encoding.go:8853-8888 | Reads heads and then bodies while advancing through the buffer, and returns exactly what the BeaconBlock decoding is: same value, same refusals |
| `CapellaUnmarshal.UnmarshalSignedBeaconBlock` | pkg/protocol/fastssz_codegen/structs_encoding.go:8739-8764 | Reads heads and then bodies while advancing through the buffer, and returns exactly what the SignedBeaconBlock decoding is: same value, same refusals |
| `Gossip.GossipRoundTrip` | pkg/protocol/consensus/codec.go:27-50 | Whatever EncodeGossip writes, up to the size cap, DecodeGossip lets through its compressed-size bound and decodes to the same bytes |
| `Gossip.GossipLimits` | pkg/protocol/consensus/codec.go:27-50 | In numbers: more than 10485760 bytes are not encoded; more than 12233418 compressed bytes, or a length field above 10485760, are not decoded; everything else that decompresses is handed to the unmarshaller |
| `Gossip.VoteExact` | pkg/protocol/consensus/attestation.go:40-68 | AttestationData: 128 bytes read as a value if and only if they are what that value marshals to |
| `Gossip.VoteIsAttestationData` | pkg/protocol/consensus/attestation.go:40-55 | The hand-written AttestationData and the generated one are the same bytes |
| `Gossip.SingleExact` | pkg/protocol/consensus/attestation.go:70-93 | SingleAttestation: bytes read as a value if and only if they are what that value marshals to, and every 240 bytes read as some value |
| `Gossip.SingleBytes` | pkg/protocol/consensus/attestation.go:70-79 | SingleAttestation: committee, attester, the seven fields of the data, signature |
| `Gossip.AttestationReceiver.MarshalSSZ` | pkg/protocol/consensus/attestation.go:70-79 | The buffer filled field after field is the encoding of the receiver's value |
| `Gossip.AttestationReceiver.UnmarshalSSZ` | pkg/protocol/consensus/attestation.go:82-93 | Writes every field of the receiver from its place; a wrong length leaves the receiver as it was |
| `Gossip.ParseRefinesUnmarshal` | pkg/utils/topics.go:64-76 | The shortcut reader succeeds if and only if decompressing and SingleAttestation.UnmarshalSSZ do, and returns that attester and slot |
| `Gossip.HeaderOfMarshalledBlock` | pkg/protocol/consensus/block.go:26-46 | Every marshalled signed block within the size cap is accepted by the header reader, which returns its slot, proposer, parent root, state root and signature, the body root cleared |
| `Gossip.HeaderRefinesFullDecoding` | pkg/protocol/consensus/block.go:26-46 | On every payload the full block reader accepts, the header reader returns that block's header |
| `Gossip.HeaderByPlaces` | pkg/protocol/consensus/block.go:26-46 | On any payload: at least 212 bytes that begin with the offset 100, and then slot, proposer, parent and state root from bytes 100 to 180, the signature from bytes 4 to 100, and no body root |
| `Enrollment.SafeExactlyWhenUniform` | pkg/service/enrollment/enrollment.go:365-513 | Over a set of configurations, every run of boots, crashes at any point, lost or garbled answers, 401s, server errors and other hosts' enrollments creates at most one credential upstream, is never refused as a conflict with an own earlier attempt, and saves only a credential that matches its key and its server record, if and only if no usable configuration of the set passes the authority's body check while another fails it |
| `Enrollment.MixedOptionsCreateTwo` | pkg/service/enrollment/enrollment.go:418-424 | The run that breaks it: an answer is lost after the insert, the next boot's changed configuration is answered 400 and the pending key is dropped, and the first configuration then creates a second credential |
| `Enrollment.StepKeeps` | pkg/service/enrollment/enrollment.go:328-513 | Each single event (disk write, request, crash, restart) keeps the invariant: every record this host created can still be claimed by the saved credential or by the pending key |
| `Enrollment.PostKeeps` | pkg/service/enrollment/enrollment.go:402-416 | The same for a request, whatever the authority answers and whatever becomes of the answer |
| `Enrollment.AnswerKeeps` | pkg/service/enrollment/enrollment.go:413-459 | With uniform configurations, dropping the pending key on 400 or 409 and keeping it otherwise keeps every own record claimable |
| `Enrollment.RunKeeps` | pkg/service/enrollment/enrollment.go:482-513 | The invariant holds after every run |
| `Enrollment.LostRecordIsRecovered` | pkg/service/enrollment/enrollment.go:328-361 | Whatever happened before, a boot in which nothing fails claims the record an earlier attempt left upstream, saves it, drops the pending key and creates no other |
| `Enrollment.FirstEnrollment` | pkg/service/enrollment/enrollment.go:365-478 | From every state between boots with nothing saved and nothing pending, a boot in which nothing fails (the answer is a 201) makes one record and ends with the credential for it saved, returned, and no key pending |
| `EnrollmentHost.CrashAfterAnyEffect` | pkg/service/enrollment/enrollment.go:365-478 | Wherever the trace of disk and authority is cut by a crash, the cut is itself a run of the protocol that ends with that very disk and those records |
| `EnrollmentHost.SafeAlongTheTrace` | pkg/service/enrollment/enrollment.go:365-513 | With uniform configurations the host is safe, and the invariant holds, at every point of the trace |
| `EnrollmentHost.CrashIsRecovered` | pkg/service/enrollment/enrollment.go:328-361 | Wherever the trace is cut by a crash, a boot in which nothing fails claims the record left upstream and creates no other |
| `EnrollmentHost.Host.PendingKey` | pkg/service/enrollment/enrollment.go:328-361 | Reuses the pending key, or generates one and writes it before it is used: leaves exactly the trace of the protocol's events, effect by effect |
| `EnrollmentHost.Host.RetryPost` | pkg/utils/retryer.go:41-59 | Performs as many of three requests as it takes to an answer of the authority or a cancellation; the records and what the answer tells follow from the fates of those requests alone |
| `EnrollmentHost.Host.Request` | pkg/service/enrollment/enrollment.go:402-424 | One request against the authority as the comments describe it: body check, join key, thumbprint lookup, insert; whatever then becomes of the answer, one effect on record |
| `EnrollmentHost.Host.Settle` | pkg/service/enrollment/enrollment.go:413-478 | Enrolled if and only if the status is 200 or 201 with a client id and the credential can be stored; the key is dropped then, and on 400 and 409; the trace is that of the protocol |
| `EnrollmentHost.Host.Keep` | pkg/service/enrollment/enrollment.go:455-468 | The credential is on disk before the pending key is dropped: the trace in the other order is not the protocol's |
| `EnrollmentHost.Host.Reuse` | pkg/service/enrollment/enrollment.go:482-507 | A saved credential is returned if it is sound and not another peer's, else the boot fails and nothing changes; returned, it makes the pending key stale; the trace is that of the protocol |
| `EnrollmentHost.Host.Enroll` | pkg/service/enrollment/enrollment.go:365-478 | From the missing credential to the outcome, as a function of disk, records, options and surroundings: which credential is saved, which record made, when the key is dropped; the trace is that of the protocol |
| `EnrollmentHost.Host.LoadOrEnroll` | pkg/service/enrollment/enrollment.go:482-513 | A saved credential is returned if and only if it is sound and not another peer's. With nothing saved and nothing failing, options that pass the body check end enrolled: the credential for the authority's record is saved and returned. Run and trace grow by exactly one boot; with uniform configurations the host is safe after every effect of it, and what is returned is what is saved |
| `Packer.GroupedAddsOne` | pkg/service/aggregator/attestation_packer.go:42-70 | An Add adds exactly one unit to what the packer holds, and that unit is the attestation on its subnet if and only if its data does not collide with other data stored under the same hash |
| `Packer.GroupedKeeps` | pkg/service/aggregator/attestation_packer.go:42-70 | Both maps keep the same keys, stored data stays an encoded AttestationData under its own hash, and every item stays decodable (subnet below 64, 96-byte signature) |
| `Packer.GroupedExactly` | pkg/service/aggregator/attestation_packer.go:42-70 | What an Add does to the two maps: under the hash of the encoded vote the vote is stored unless something is, an item with committee, attester, subnet and signature is appended, every other group stays |
| `Packer.EncodedVoteIs` | pkg/service/aggregator/attestation_packer.go:50-55 | A vote is packed as the compressed 128 bytes of its fields in order |
| `Packer.BatchExactly` | pkg/service/aggregator/attestation_packer.go:42-87 | For any sequence of Adds the packs carry exactly the multiset of (subnet, attestation) added, if and only if no two different data in the batch share a hash |
| `Packer.CollidesExactly` | pkg/service/aggregator/attestation_packer.go:42-70 | One more addition to a batch without collisions collides in the packer if and only if the longer batch holds two different data under one hash |
| `Payloads.PackCarriesGroup` | pkg/service/aggregator/attestation_packer.go:72-127 | The pack written for a group decodes, and carries exactly that group's units |
| `Payloads.MsgCarriesContainers` | pkg/service/aggregator/aggregator.go:134-152 | A naive payload decodes, and carries exactly what its containers list |
| `Payloads.PackContentsExactly` | pkg/service/aggregator/attestation_packer.go:90-127 | A pack reads as these units if and only if it unmarshals, its data is a vote, every item has a subnet below 64 and 96 bytes of signature, and unit by unit committee, attester, vote, signature and subnet are those of the items |
| `Payloads.ContentsByPrefix` | pkg/service/aggregator/aggregator.go:18-22 | The bytes 0 and 8 announce a pack, 0 and 7 a naive message, anything else is refused |
| `Payloads.AttestationPacker.Add` | pkg/service/aggregator/attestation_packer.go:42-70 | Succeeds if and only if the topic is an attestation subnet and the message reads as an attestation, then groups it; else changes nothing |
| `Payloads.AttestationPacker.EncodeCurrent` | pkg/service/aggregator/attestation_packer.go:72-87 | One payload per group in any map order, each the bytes 0 and 8 before the protobuf of that group's vote and items; all decode and together carry exactly what the packer holds; nothing when one group cannot be marshalled |
| `Payloads.AttestationPacker.TotalItems` | pkg/service/aggregator/attestation_packer.go:129-135 | Counts what the packer holds |
| `Payloads.AttestationPacker.Clean` | pkg/service/aggregator/attestation_packer.go:141-144 | Empties both maps |
| `Payloads.Decode` | pkg/service/aggregator/attestation_packer.go:90-127 | Accepts a pack if and only if it, its data and all items are good, and delivers each unit exactly once under its topic |
| `Payloads.DecodeAggregatedMessage` | pkg/service/aggregator/aggregator.go:62-85 | Either prefix, or refused; what is delivered is exactly what the payload carries, each unit once |
| `Payloads.DeliveryReadsBack` | pkg/service/aggregator/attestation_packer.go:107-124 | From a delivered topic and message the subnet, the lower-cased digest and the attestation read back |
| `Payloads.DeliveryExactly` | pkg/service/aggregator/attestation_packer.go:107-124 | The topic and the bytes a unit is delivered as, in full |
| `PackRoundTrip.PackAndUnpack` | pkg/service/aggregator/attestation_packer.go:42-127 | Adds, packs and decodes: if the packs marshal, what is delivered is exactly one message for each attestation added, on its subnet's topic, if and only if no two different data share a hash |
| `PackRoundTrip.SameUnitsSameDeliveries` | pkg/service/aggregator/attestation_packer.go:107-124 | The same units are delivered if and only if the same topics and messages are, counted with multiplicity |
| `Aggregator.Run` | pkg/service/aggregator/aggregator.go:97-190 | The loop of a new service over any events: that conservation as a function of the events alone, every payload emitted at an open tick, and with the default gate and a clock that does not go back every payload inside its slot's window |
| `Aggregator.FollowsTake` | pkg/service/aggregator/aggregator.go:167-179 | Over an item the packer stays what the batch decides, and the account records a collision if and only if some batch so far has one |
| `Aggregator.FollowsEmission` | pkg/service/aggregator/aggregator.go:180-187 | Over an open tick the packer starts a new batch and no earlier collision is forgotten or invented |
| `Aggregator.PacksLostExactly` | pkg/service/aggregator/aggregator.go:112-130 | Packed attestations are lost if and only if some group cannot be marshalled, and then all of them are |
| `Aggregator.AttestationIsDropped` | pkg/service/aggregator/aggregator.go:112-130 | The loss shown: on a lawful wire whose protobuf refuses, any attestation is taken, packed and gone after the next emission, with nothing emitted |
| `Aggregator.EmittedInWindow` | pkg/service/aggregator/aggregator.go:180-187 | With the default gate every payload of a run was emitted in its slot's window, counted from the block arrivals before it |
| `Aggregator.CreditExactly` | pkg/service/aggregator/aggregator.go:167-179 | An item is accounted as something else than itself exactly when its data collides with other data of the same batch |
| `Aggregator.Service.TakeItem` | pkg/service/aggregator/aggregator.go:167-179 | An item is packed if it can be, else batched under its topic; packer, batches and account change by exactly that item and nothing is emitted |
| `Aggregator.Service.PackItem` | pkg/service/aggregator/aggregator.go:168-171 | Packs an item if and only if it reads as an attestation on a subnet; account balanced |
| `Aggregator.Service.BatchItem` | pkg/service/aggregator/aggregator.go:176-179 | Appends the message to its topic's batch; account balanced |
| `Aggregator.Service.BuildAndEmit` | pkg/service/aggregator/aggregator.go:108-153 | Packs and batches go out and both stores are empty; what is dropped is exactly the packs when one of them cannot be marshalled and exactly the batches when their message cannot, and the number of payloads follows |
| `Aggregator.Service.EmitBatches` | pkg/service/aggregator/aggregator.go:134-152 | The verbatim batches become one message, topics in any map order; they are dropped if and only if it cannot be marshalled |
| `Aggregator.Service.Drain` | pkg/service/aggregator/aggregator.go:138-148 | Every batch becomes a container exactly once and the map ends empty |
| `Aggregator.Service.OnTick` | pkg/service/aggregator/aggregator.go:180-187 | Held by the gate nothing changes; else nothing is left behind |
| `Aggregator.Service.Loop` | pkg/service/aggregator/aggregator.go:97-190 | Over any sequence of items, block arrivals and ticks the account, the packer, the collision record, the block stamp and the emission times are what the events decide |
| `SlotGate.SlotBrackets` | pkg/protocol/consensus/slots.go:11-23 | SlotStartTime(SlotAt(t)) <= t < SlotStartTime(SlotAt(t)+1), if and only if t is not before genesis and the next slot's nanosecond offset fits int64; past that the start wraps around |
| `SlotGate.SlotByDivision` | pkg/protocol/consensus/slots.go:11-23 | In range, the slot is the time since genesis divided by 12 s, and its start is that many times 12 s after genesis |
| `SlotGate.GateExactly` | pkg/service/aggregator/aggregator.go:199-233 | For every gate with a fallback and every ordered history, the last stamp lets an emission out if and only if all blocks past the slot's first millisecond are 2000 ms old, or there is none and the fallback is reached, and the cap is not |
| `SlotGate.DefaultGateExactly` | pkg/service/aggregator/aggregator.go:199-233 | The default gate in nanoseconds and milliseconds: a tick is held if and only if it comes 8 s into the slot or later, or less than 2000 ms after a block seen past the slot's first millisecond, or before 4 s when there is no such block |
| `SlotGate.NoGate` | pkg/service/aggregator/aggregator.go:199-207 | Without a configuration or a positive fallback nothing is held, and without a cap nothing is held for being late |
| `SlotGate.EmissionsInWindow` | pkg/service/aggregator/aggregator.go:199-233 | With the default gate, for every ordered history of block arrivals and ticks, an emission lies strictly after 2 s and before 8 s of its slot, at least 2000 ms after every block that arrived in it, and at 4 s or later when none did |
| `SlotGate.OpenGateStaysOpen` | pkg/service/aggregator/aggregator.go:199-233 | With no new block an open gate holds again exactly from the 8 s cap of its slot on |
| `SlotGate.GateOpens` | pkg/service/aggregator/aggregator.go:199-233 | Between 4 s and the cap, and 2 s past the last block, the gate is open |
| `Forks.ActiveIsSupported` | pkg/protocol/forks/service.go:71-120 | After the first successful load every run of refreshes and messages keeps the active digest nonempty and supported |
| `Forks.TrafficOnlyMovesForward` | pkg/protocol/forks/service.go:88-120 | Between two refreshes traffic changes the active digest at most once, only from the announced digest to the one other supported digest, and never back |
| `Forks.SwitchesExactly` | pkg/protocol/forks/service.go:88-97 | From the announced digest the switch happens if and only if some message carries the other supported digest, whatever its case and surrounding blanks |
| `Forks.FutureTakesOver` | pkg/protocol/forks/service.go:71-120 | End to end: after a refresh with two different digests the announced one is active until the first message that carries the future one, in any case and between any blanks; from then on the future one is active, whatever else comes in |
| `Forks.HalfRefresh` | pkg/protocol/forks/service.go:71-81 | Seen between its two writes a refresh leaves the active digest supported if and only if the observed digest decides or the new one was supported already: why a refresh counts as one step |
| `Forks.SanitizeIdempotent` | pkg/protocol/forks/service.go:135-137 | Sanitizing a digest twice is sanitizing it once |
| `Forks.Service.ApplyForkDigest` | pkg/protocol/forks/service.go:71-81 | A digest is supported afterwards if and only if it is not blank and is the sanitized current or future one; the announced digest is the sanitized current one unless that is blank |
| `Forks.Service.ObserveMessageDigest` | pkg/protocol/forks/service.go:88-97 | Performs the observation step and returns whether it changed anything |
| `Forks.Service.ActiveDigest` | pkg/protocol/forks/service.go:108-120 | Returns the active digest; after a load it is nonempty and supported, and it is the observed one whenever that is supported |
| `Forks.Service.TopicSupported` | pkg/protocol/forks/service.go:123-133 | The answer depends on the topic and the supported set alone, never on the cache; the cache keeps agreeing with parsing |
| `Forks.Service.LoadFromBootstrap` | pkg/protocol/forks/bg_sync.go:85-108 | Succeeds if and only if the answer has a digest that is not blank; then exactly that answer is applied, else nothing changes |
| `Forks.Service.LoadFromHub` | pkg/protocol/forks/bg_sync.go:110-137 | Succeeds if and only if the answer's last fork has eight characters once sanitized; then exactly that fork is applied, else nothing changes |
| `Forks.Service.LoadForkDigest` | pkg/protocol/forks/bg_sync.go:44-57 | Succeeds if and only if the bootstrap answer has a digest or the hub's last fork has eight characters; the bootstrap answer goes first |
| `Forks.Service.LoadInitial` | pkg/protocol/forks/bg_sync.go:24-42 | Succeeds if and only if one of twelve attempts is good, and applies exactly the first good one |
| `Admission.Node.SetPeerState` | pkg/service/mum_p2p/service.go:296-307 | Valid enters all three maps, invalid leaves all three |
| `Admission.Node.MarkHandshakeValid` | pkg/service/mum_p2p/handshake.go:174-179 | Approved peers stay the peers with a capability, every valid peer is approved, and pubsub gets exactly what the handshake granted |
| `Admission.Node.DisconnectPeer` | pkg/service/mum_p2p/handshake.go:191-201 | All three maps and pubsub forget the peer, and the invariants hold |
| `Admission.Node.HandleNewConnection` | pkg/service/mum_p2p/handshake.go:55-104 | A peer with a valid handshake is re-admitted with exactly what its last verified handshake granted; any other needs a handshake now or is disconnected |
| `Admission.Run` | pkg/service/mum_p2p/handshake.go:55-201 | Over every sequence of connections, handshakes, disconnects, expiries and revocations, the approved peers are those with a capability, and whom pubsub lets publish was granted it by a verified handshake with no disconnect and no read-only handshake since |
| `Admission.HandshakeAlone` | pkg/service/mum_p2p/handshake.go:174-179 | A handshake goroutine that nothing interrupts leaves what the whole step leaves: valid, approved, its capability cached, pubsub told just that |
| `Admission.DisconnectAlone` | pkg/service/mum_p2p/handshake.go:191-201 | A disconnect goroutine that nothing interrupts leaves the peer in none of the maps and not admitted |
| `Admission.ReconnectAlone` | pkg/service/mum_p2p/handshake.go:66-77 | An uninterrupted reconnect of a valid peer gives pubsub exactly the cached capability |
| `Admission.PublishOnlyIfGranted` | pkg/service/mum_p2p/handshake.go:66-77 | Under every interleaving of the single map operations and pubsub calls, publish rights are cached, on their way or with pubsub only for peers that some verified handshake granted them |
| `Admission.ReadOnlyNeverPromoted` | pkg/service/mum_p2p/handshake.go:66-77 | However often it reconnects, a peer whose verified handshakes were all read-only is never admitted as a publisher |
| `Admission.AgreementNeedsWholeSteps` | pkg/service/mum_p2p/service.go:296-307 | The agreement of approvals and capabilities does need whole steps: a disconnect inside a handshake leaves a capability without an approval |
| `Admission.AgreementWhenApart` | pkg/service/mum_p2p/handshake.go:174-201 | Under every interleaving in which no handshake of a peer overlaps a disconnect of it, the peer is approved if and only if it has a capability, whenever neither is under way |
| `Dedup.AtMostOnePass` | pkg/service/gossipsub-gateway/messages_proxy.go:178-185 | With the check as one step, until a hash expires it passes exactly once if it is new and arrives, and never otherwise, whatever the paths and their order |
| `Dedup.EachPathAtMostOnce` | pkg/service/gossipsub-gateway/messages_proxy.go:178-185 | With get and put split, each path still passes a hash at most once until it expires |
| `Dedup.TwoPathsMayPass` | pkg/service/gossipsub-gateway/messages_proxy.go:178-185 | Split, two paths may both pass one hash |
| `Dedup.AtMostOnceExactlyWhenUndivided` | pkg/service/gossipsub-gateway/messages_proxy.go:178-185 | Split, over every run in which paths are sequential and finish their puts, at most one of them passes a hash if and only if nobody looks it up between another path's get and put |
| `Dedup.AtMostOneHandedOn` | pkg/service/gossipsub-gateway/messages_proxy.go:39-146 | Over every sequence of calls of the four handlers during which a hash does not run out, at most one thing carrying it is handed on, by whatever path, and none if it was remembered before |
| `Dedup.NothingHandedOnTwice` | pkg/service/gossipsub-gateway/messages_proxy.go:39-146 | Of what a new gateway hands on before a payload's hash runs out no two things carry that payload, to whichever side they go |
| `Dedup.MeshRemembersExactly` | pkg/service/gossipsub-gateway/messages_proxy.go:99-138 | After a message from the mesh its hash is remembered if and only if it was before, or the message is neither an own one nor a block held back |
| `Dedup.MeshEchoExactly` | pkg/service/gossipsub-gateway/messages_proxy.go:99-138 | After a message from the mesh, in every continuation before its hash runs out, nothing carries its payload again, and in particular it is not published back to the mesh, if and only if it was remembered before or is neither an own one nor a block held back |
| `Dedup.CLEchoExactly` | pkg/service/gossipsub-gateway/messages_proxy.go:39-65 | After a block from the consensus layer, in every such continuation, nothing carries its payload again, and it is not published back to the consensus layer, if and only if it was remembered before or is not held back |
| `Dedup.AttestationNeverAgain` | pkg/service/gossipsub-gateway/messages_proxy.go:67-77 | After an attestation from the consensus layer nothing carries it again before its hash runs out |
| `Dedup.EarlyBlockIsEchoed` | pkg/service/gossipsub-gateway/beacon_block_measures.go:54-88 | Whatever the block and its slot from 4 on: arriving when the clock is four slots behind it is held back, and the same payload from the other side one slot later goes to where it first came from, in both directions |
| `Dedup.MeshOnlyToCL` | pkg/service/gossipsub-gateway/messages_proxy.go:99-146 | Whatever comes from the mesh goes to the consensus layer if anywhere, and only if it was not remembered |
| `Dedup.Gateway.Run` | pkg/service/gossipsub-gateway/messages_proxy.go:15-95 | The handlers, called in any sequence, leave exactly the memory and output of the specification, and hand on each remembered payload at most once |
| `Dedup.Gateway.IsDuplicateMessage` | pkg/service/gossipsub-gateway/messages_proxy.go:178-185 | True if and only if the hash was remembered; it is remembered afterwards |
| `Dedup.Gateway.ProcessCLBeaconBlock` | pkg/service/gossipsub-gateway/messages_proxy.go:39-65 | A block from the consensus layer goes to the mesh if and only if it is to be forwarded, there is a node and its hash is not remembered |
| `Dedup.Gateway.ProcessCLAttestation` | pkg/service/gossipsub-gateway/messages_proxy.go:67-77 | Queued if and only if its hash is not remembered and the router lets it |
| `Dedup.Gateway.ProcessMumP2PMessage` | pkg/service/gossipsub-gateway/messages_proxy.go:99-146 | A block goes to the consensus layer if and only if it is not an own one, not held back, not remembered, routed, subscribed to and propagation is on; a new aggregated payload is expanded; nothing else is sent |
| `Dedup.Gateway.EmitAggregatedMessage` | pkg/service/gossipsub-gateway/messages_proxy_aggregated.go:45-71 | With a node a payload whose hash is not remembered goes to the mesh under mump2p_aggregated_messages and is remembered; nothing else happens |
| `Dedup.Gateway.HandleAggregated` | pkg/service/gossipsub-gateway/messages_proxy_aggregated.go:73-118 | Sends an attestation if and only if it is in a bucket that is subscribed to and an attestation topic, not remembered, the first of its hash, routed and readable; all payloads of such buckets are remembered |
| `Dedup.Gateway.ExpandTopic` | pkg/service/gossipsub-gateway/messages_proxy_aggregated.go:87-117 | One bucket: nothing unless it is subscribed to and an attestation topic; then exactly the payloads that are not remembered, first of their hash, routed and readable |
| `Dedup.ExpandedOnlyToCL` | pkg/service/gossipsub-gateway/messages_proxy_aggregated.go:87-117 | What an expanded payload sends is attestations to the consensus layer, none of them remembered before |
| `Dedup.ExpandedSends` | pkg/service/gossipsub-gateway/messages_proxy_aggregated.go:87-117 | An expansion sends an attestation under a topic if and only if it lies in a bucket of that topic, the topic is subscribed to and an attestation topic, and the attestation is not remembered, the first of its hash, routed and readable |
| `Dedup.ExpandedExactly` | pkg/service/gossipsub-gateway/messages_proxy_aggregated.go:87-117 | The same for payloads with pairwise different hashes, where being the first of its hash is no condition |
| `Dedup.ExpandedSeen` | pkg/service/gossipsub-gateway/messages_proxy_aggregated.go:87-117 | After an expansion a hash is remembered if and only if it was before or belongs to a payload of an expanded bucket |
| `ReqResp.UvarintReadsBack` | pkg/protocol/consensus/codec.go:68-85 | Reading a written length gives it back and consumes exactly its bytes, whatever follows |
| `ReqResp.UvarintBytes` | pkg/protocol/consensus/codec.go:68-72 | Byte i of a written length is seven bits of weight 128^i, with the high bit on all but the last |
| `ReqResp.PrefixReadable` | pkg/protocol/consensus/codec.go:81-85 | A prefix is readable if and only if one of the first ten bytes ends it, the tenth with at most one bit, and it consumes exactly the bytes up to that one |
| `ReqResp.LimitNeverCuts` | pkg/protocol/consensus/codec.go:90-98 | The 32+n+n/6 read limit covers the longest frame of n bytes, for every n |
| `ReqResp.ChunkRoundTrip` | pkg/protocol/consensus/codec.go:60-100 | A written chunk decodes to its message, whatever follows it in the stream; writing is refused exactly above 10 MiB |
| `ReqResp.ChunkByNumbers` | pkg/protocol/consensus/codec.go:81-100 | Behind a length n: more than 10485760 is refused, else n bytes are read from the first 32+n+n/6 that follow |
| `ReqResp.Stream.ReadByte` | pkg/protocol/consensus/codec.go:111-121 | Reads exactly one byte |
| `ReqResp.Stream.ReadUvarint` | pkg/protocol/consensus/codec.go:81-85 | The loop over single bytes returns the value and leaves the stream exactly behind the prefix |
| `ReqResp.EncodeWithMaxLength` | pkg/protocol/consensus/codec.go:60-78 | Writes prefix and frame, or nothing when the message is too long |
| `ReqResp.DecodeWithMaxLength` | pkg/protocol/consensus/codec.go:81-100 | Returns exactly the decoding of what the stream holds |
| `Connections.ConnLimiter.Acquire` | pkg/service/stream/transport.go:194-208 | Admits if and only if the live ids leave room under both caps; counts stay exact |
| `Connections.ConnLimiter.Release` | pkg/service/stream/transport.go:210-226 | Frees an id once; a repeated release changes nothing; no zero entry remains |
| `Connections.ConnLimiter.CountsAgree` | pkg/service/stream/transport.go:169-181 | The connection count is the number of live ids and the sum of the values of the per-subject map |
| `Connections.ConnLimiter.ReleasedAll` | pkg/service/stream/transport.go:210-226 | With nothing live the counts are those of a new limiter |
| `Connections.ConnLimiter.OldestStart` | pkg/service/stream/transport.go:230-238 | The earliest start of a live connection, zero when there is none |
| `Connections.Run` | pkg/service/stream/transport.go:194-226 | Over any sequence of acquires and releases, repeated ones included, the invariants hold and every live connection still has its closer |
| `Connections.RunThenCloseAll` | pkg/service/stream/transport.go:194-226 | After any such run, calling every closer, used or not, brings the limiter back to its initial counts |
| `Accelerate.NeverRejectedMidPoll` | pkg/service/message_router/accelerate.go:36-101 | A verdict taken between any two writes of a poll never rejects a slot of the incoming list that lies past the old horizon, and accepts it at the end |
| `Accelerate.VerdictsAcrossPoll` | pkg/service/message_router/accelerate.go:92-101 | A slot on the list stays on it, and a verdict can turn to rejection only with the last write and only for an unlisted slot inside the new horizon |
| `Accelerate.SplitVerdictRejects` | pkg/service/message_router/accelerate.go:36-46 | Taken as two reads, the verdict rejects such a slot if and only if the set was read before the slot was written and the horizon after it moved past it |
| `Accelerate.SplitVerdictCanReject` | pkg/service/message_router/accelerate.go:36-46 | Such a pair of reads exists |
| `Accelerate.NeverRejectedFromPollOn` | pkg/service/message_router/accelerate.go:36-101 | Over any number of polls, a slot that a poll lists and that lies past the horizon when it starts is never rejected from then on, and is on the list once the poll is done |
| `Accelerate.SplitVerdictOverPolls` | pkg/service/message_router/accelerate.go:36-46 | Over any number of polls, the set read after some of their writes and the horizon after more: the verdict rejects a slot if and only if it was not on the list by the first read and the last horizon has reached it; it rejects a slot listed by then if and only if, besides, the slot was written between the reads |
| `Accelerate.PollSoFar` | pkg/service/message_router/accelerate.go:92-101 | Every window seen during a poll is the one after a prefix of its writes |
| `Accelerate.PollAll` | pkg/service/message_router/accelerate.go:60-103 | Polls in sequence, failed ones among them, leave exactly the window of all their writes in order |
| `Accelerate.Router.ShouldAccelerateBlock` | pkg/service/message_router/accelerate.go:36-56 | Refuses a slot if and only if it is not on the list and the horizon has reached it; every slot past the horizon is accepted |
| `Accelerate.Router.RefreshAccelerateSlots` | pkg/service/message_router/accelerate.go:60-103 | A failed or non-positive poll changes nothing; else each write in turn gives the windows the other results speak of |
| `KnownValidators.PlaceByRank` | pkg/service/message_router/bg_sync.go:37-50 | The map knows exactly the given indexes, and each stands in chunk (number of indexes at most it - 1)/64 with that chunk's true size, repeated indexes included |
| `KnownValidators.OrderDoesNotMatter` | pkg/service/message_router/bg_sync.go:37-50 | The map depends on the multiset of indexes alone |
| `KnownValidators.RankOfDistinct` | pkg/service/message_router/bg_sync.go:37-50 | For distinct indexes the chunk id is the number of smaller indexes divided by 64 |
| `KnownValidators.PlaceInNumbers` | pkg/service/message_router/bg_sync.go:37-50 | An index with r smaller ones stands in chunk r / 64, and is told 64 or what is left for the last chunk |
| `KnownValidators.ChunkHasItsSize` | pkg/service/message_router/bg_sync.go:37-50 | For distinct indexes the members of a chunk number exactly the size each of them is told |
| `KnownValidators.Router.SetKnownValidators` | pkg/service/message_router/bg_sync.go:37-50 | Sorts the given indexes in place and swaps in exactly that map |
| `Topics.TopicRoundTrip` | pkg/protocol/topics/eth_topics.go:10-28 | For every eight hex digits in any case and every subnet below 64 the built topic parses back to the lower-cased digest and that subnet |
| `Topics.AttestationTopicExactly` | pkg/protocol/topics/eth_topics.go:10-28 | The built topic in full; it reads back as that subnet below 64 and as unknown from 64 on |
| `Topics.BlockTopicRoundTrip` | pkg/protocol/topics/eth_topics.go:10-28 | The built block topic in full; it reads back as a block topic of its digest |
| `Topics.MetaExactly` | pkg/protocol/topics/topic_meta.go:38-53 | For any topic: a block topic if and only if it contains beacon_block; else an attestation topic of n if and only if it contains beacon_attestation_ and the digits of n, below 64, stand between its last slash and the last underscore before that |
| `Topics.DigestOfTopic` | pkg/protocol/topics/eth_topics.go:10-18 | Every topic of the five parts, with any name and any number behind it, gives its digest lower-cased |
| `Topics.OnlyFromTopics` | pkg/protocol/topics/eth_topics.go:10-18 | A digest comes only from a topic with these parts: prefix, eight hex digits, letters, underscores and digits, suffix |
| `Topics.SubnetsApart` | pkg/protocol/topics/eth_topics.go:26-28 | Whatever the digest, topics of different subnets differ |
| `Topics.ParseTopicMeta` | pkg/protocol/topics/topic_meta.go:38-53 | An attestation topic's subnet is below 64 |
| `Topics.IndexReadsBack` | pkg/utils/topics.go:81-99 | The subnet of a built topic is found between its last underscore and its last slash |
| `Topics.MetaCache.TopicMetaFor` | pkg/protocol/topics/topic_meta.go:55-62 | The cached answer is the parsed one, in every run |
| `Topics.UnpackTopics` | pkg/utils/topics.go:30-46 | Lists a topic if and only if some configured one stands for it, a bare attestation topic for all 64 subnets and every other for itself, and none twice |
| `Topics.AppendSubnets` | pkg/utils/topics.go:38-40 | The inner loop appends all 64 subnet names in order |
| `Topics.UnpackIdempotent` | pkg/utils/topics.go:30-46 | No topic is listed twice, and unpacking again changes nothing |
| `MessageId.PreimageInjective` | pkg/protocol/consensus/message_id.go:21-33 | Two preimages are equal if and only if snappy validity, topic and data are |
| `MessageId.SameIdExactly` | pkg/protocol/consensus/message_id.go:13-19 | Two messages on a topic are hashed from the same bytes if and only if they decompress to the same bytes, or neither does and they are equal |
| `MessageId.MsgId` | pkg/protocol/consensus/message_id.go:13-33 | The first 20 bytes of the digest of 1,0,0,0, topic length, topic and decompressed message, or of 0,0,0,0, topic length, topic and message when it does not decompress within 10485760 bytes |

## Left out

- Nil pointers in SSZ containers: containers are values, so the generated allocation of missing sub-objects has no counterpart.
- Error texts: codecs and services report that they failed, not why.
- SSZ constants are the mainnet preset; BeaconState, the other fork variants, hash tree roots and proof trees would repeat the container law.
- List readers of the SSZ runtime (fixed and dynamic slices) are functions, not loops: their code is not part of this model.
- Status, StatusV2 and MetaData codecs: straight-line fixed layouts.
- Gossip.HeaderOfMarshalledBlock: the header reader is a function on values; the in-place filling of a fresh header is not modelled.
- Enrollment.SafeExactlyWhenUniform: one process per directory, readable files written atomically, no deletion of files or server records, no request served after its attempt returned, and a fresh key's thumbprint unknown upstream. A status 400, 401 or 409 comes from the authority itself. All configurations name the same authority.
- Key generation, thumbprint hashing, JWT assertions and file permissions of enrollment; retry delays and jitter.
- Aggregator.Service.BuildAndEmit: telemetry and timestamps inside payloads are arbitrary; deduplication of emitted payloads is part of the Dedup module.
- SlotGate.EmissionsInWindow: distances from blocks are in whole milliseconds, as the code compares them.
- Admission.Node.HandleNewConnection: stream I/O and deadlines are inputs, and the polling wait of an inbound connection is its result.
- Dedup.Gateway.ProcessMumP2PMessage: router decisions, the forwarding verdict of a block (computed from slot and clock in `Dedup.EarlyBlockIsEchoed` only) and the decoded payload are inputs; a failed publish counts as handed on.
- Connections.ConnLimiter.Acquire: connection ids are unbounded, the 64-bit counter does not wrap.
- Accelerate.Router.RefreshAccelerateSlots: expiry of slots after three epochs is not modelled, nor the HTTP poll.
- KnownValidators.Router.SetKnownValidators: the library sort is replaced by a sorted copy written back in place.
- Text: ASCII letters and blanks; Unicode case folding and Unicode blanks are not modelled.
- libp2p hosts, discovery, bootstrap HTTP, gRPC and WebSocket plumbing, metrics, logging and configuration loading.
