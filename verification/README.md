# Verified model of pouch network provisioning

A client (here the Swift library) provisions a device over a narrow packet link. The project models
that path from the wire up to the device's state machines and proves what each layer promises.

- `Sar`, `SarWire`, `SarNet`, `SarFifo`: segmentation and reassembly of one blob over packets with 8-bit
  sequence numbers. `Sar` holds the two parties and their loops, `SarWire` says what each does with arbitrary
  packets, `SarNet` runs them over channels that lose, duplicate and reorder, `SarFifo` over lossless in-order
  channels.
- `Cbor`: the writer and the recursive-descent reader, with an independent specification of both.
- `Pouch`: entries, blocks, the header, the greedy packer and the parsers.
- `SaeadText`, `Saead`, `SaeadBytes`, `SaeadAccepts`: key derivation text, nonces, the tag-chained encrypted
  pouch, its bytes, and what the opening side accepts.
- `Layout`: the other wire formats byte by byte, which the round trips alone leave open.
- `Transfer`: pouches carried over segmentation and reassembly.
- `AsyncMutexModel`, `PacketQueueModel`: the two lock-protected objects the client's tasks share.
- `WifiConfigModel`, `WifiRuns`: the station state machine with its retry timer, and what it reports over runs.
- `CredStoreModel`, `CredRuns`, `FlowsModel`: the device's credential staging, what it keeps over runs, and
  the client's push of a whole credential set against it.
- `DispatchModel`, `DispatchRuns`: the device's request dispatcher with its replies and the proof-of-possession
  state behind it, and what a client meets on each path.
- `Bytes`: big-endian integers and sequence helpers.

`dafny verify dfyconfig.toml` checks everything.

## How it is modelled

Objects the source updates in place are classes whose methods are proved equal to step functions on
values. A protocol or shared object is then a state with those steps, and a run is an arbitrary sequence
of events; an event that cannot happen leaves the state alone. The results are about all runs.

Cryptography enters as function parameters: key agreement commutes, opening undoes sealing and adds a
16-byte tag, the digest has 32 bytes. Only `SaeadAccepts` also takes that nothing opens but what sealing
makes, only the refusals in `SaeadBytes` that a sealed block opens under one nonce and one additional data, and
only `DispatchRuns.NoReplyIsAProof` that the digest separates the tags "dev" and "cli". Clocks are events. Random nonces, the answers of the Wi-Fi driver,
failing saves and the generated decoder of authorization requests are inputs. Bytes are integers below
256; `& 0xFF`, 16-bit fields, the 32-bit `size_t` and the 8-bit attempt counter are written out. Text is
UTF-8 bytes with a validity predicate.

## Where a promise does not hold as stated

- The delivery promise of `send` fails with exactly 256 fragments, because the opening ack 0xFF then reads
  as the ack of the last fragment. `SarNet.DeliveredIffNot256` gives the exact condition. Above 256
  fragments a transfer never completes.
- docs/protocol.md:159 says finalize persists atomically. The code saves kind by kind: `CredRuns` gives the
  run that saves a certificate without its key (`FinalizeSavesHalf`) and the exact condition
  (`FinalizeAtomicIff`).
- docs/protocol.md:201 says three failed proofs end the session. In the code no proof ends it
  (`DispatchModel.OnlyResetsEnd`). Further proofs are refused by a counter of eight bits, so the limit holds
  exactly below 256 attempts (`ThreeProofsIff`, with a run beyond it in `LimitIsPassed`).
- docs/protocol.md:200 says reordering and truncation break decryption. Of all ways to pick blocks of one pouch,
  in any order, left out or repeated, exactly the fronts are accepted (`SaeadBytes.OnlyFrontsAccepted`). So a cut
  of whole trailing blocks is accepted, because LAST is not checked (`SaeadAccepts.CutAcceptedIff`,
  `CutPouchOpens`).
- src/dispatch.c:76 says all message families share the shape of an error reply. Its encoder takes operations 0 to
  2 only, so a request with a larger one is refused without any reply (`DispatchRuns.ErrorReplyCarriesOp`).
- docs/protocol.md:109 says the client's FIN carries an IDLE flag. The code sends flag FIN with code 0, and
  the model does the same.
- docs/protocol.md:38 names AES-256-GCM. The code derives 16 bytes for AES-GCM, and so does the model.
- The credential given to the application is the staging buffer itself, so staging a new one changes it
  before finalize (`CredRuns.StagingBreaksSync`); `CredRuns.InSyncIff` says exactly when it does not.

## Model

| member | source | states |
|---|---|---|
| `Sar.Fragments` | ios/PouchProv/Sources/PouchProvCore/Sar.swift:66-73 | cutting never yields zero fragments, all but the last have the fragment size, and they concatenate to the data, also for empty data |
| `Sar.FragmentCount` | ios/PouchProv/Sources/PouchProvCore/Sar.swift:66-73 | the data makes at most k fragments exactly when it is at most k times the fragment size long |
| `Sar.DataPacket` | ios/PouchProv/Sources/PouchProvCore/Sar.swift:103-111 | FIRST is set on fragment 0 only, LAST on the last only, FIN never; byte 1 is the fragment number and the rest is the fragment |
| `Sar.WriteBurst` | ios/PouchProv/Sources/PouchProvCore/Sar.swift:103-113 | the inner loop is the fold of the one-fragment write step and stops at the 8-bit target or after LAST |
| `Sar.SendLoop` | ios/PouchProv/Sources/PouchProvCore/Sar.swift:74-114 | for every ack stream the packets written and the outcome are those of the sender state machine |
| `Sar.Send` | ios/PouchProv/Sources/PouchProvCore/Sar.swift:64-115 | for every ack stream each packet written is the next fragment behind the byte 0x01 if it is the first and 0x02 more if it is the last, then its number, with the closing packet 0x04 0x00 last on normal return; up to 256 fragments a normal return has written all of them, above it never returns normally |
| `Sar.SendInOrder` | ios/PouchProv/Sources/PouchProvCore/Sar.swift:74-114 | up to 256 fragments, for every ack stream, what has been written is an initial run of the data packets, with FIN exactly on normal return |
| `Sar.SendNeverLast` | ios/PouchProv/Sources/PouchProvCore/Sar.swift:103-113 | above 256 fragments no ack stream makes the sender write LAST or FIN, because the number wraps first |
| `Sar.Receive` | ios/PouchProv/Sources/PouchProvCore/Sar.swift:142-183 | for every stream of arrivals and expired re-ack intervals the acks written and the outcome are those of the receiver state machine |
| `SarWire.ReceiveTimesOut` | ios/PouchProv/Sources/PouchProvCore/Sar.swift:142-183 | on arrivals none of which ends it the receiver runs into the deadline, having acked, for each arrival and each expired interval, the packets taken so far: those that carry the next 8-bit number |
| `SarWire.ReceiveEnds` | ios/PouchProv/Sources/PouchProvCore/Sar.swift:142-183 | the first arrival that ends it decides the outcome: the joined payloads on FIN after LAST, otherwise the error of that packet; one ack was written for each arrival before, and none later is read |
| `SarWire.GoesOnOrStops` | ios/PouchProv/Sources/PouchProvCore/Sar.swift:142-183 | every stream of arrivals is one of these two cases |
| `SarWire.SendReturnsOnAck` | ios/PouchProv/Sources/PouchProvCore/Sar.swift:77-101 | the sender returns normally only on a plain ack that carries the number of the last fragment, and a NACK or misshapen ack ends it |
| `SarNet.RunInv` | ios/PouchProv/Sources/PouchProvCore/Sar.swift:142-183 | over channels that lose, duplicate and reorder, the receiver always holds a prefix of the fragments and its 8-bit numbers say which |
| `SarNet.ReturnedBlobIsTheData` | ios/PouchProv/Sources/PouchProvCore/Sar.swift:162-168 | in every run over such channels, for data of any length, a blob `receive` returns is the data given to `send` |
| `SarNet.RunStrongInv` | ios/PouchProv/Sources/PouchProvCore/Sar.swift:137-140 | up to 255 fragments every ack on the wire names a fragment the receiver holds, or is an opening ack |
| `SarNet.DeliveredAlways` | ios/PouchProv/Sources/PouchProvCore/Sar.swift:89-101 | unless there are exactly 256 fragments, a normal return of `send` means the receiver holds all of them, and none of the receiver's protocol errors is reachable |
| `SarNet.EarlyReturnAt256` | ios/PouchProv/Sources/PouchProvCore/Sar.swift:89-101 | with 256 fragments a run exists in which `send` returns with one fragment accepted, and the receiver then meets FIN before LAST |
| `SarNet.DuplicateAfterLastAt256` | ios/PouchProv/Sources/PouchProvCore/Sar.swift:170-177 | with 256 fragments a run exists in which a duplicate is taken for a fragment after LAST |
| `SarNet.DeliveredIffNot256` | ios/PouchProv/Sources/PouchProvCore/Sar.swift:64-115 | the delivery promise holds in all runs if and only if the number of fragments is not 256 |
| `SarNet.SendTurnIsARun` | ios/PouchProv/Sources/PouchProvCore/Sar.swift:77-114 | a turn of the loop in `Send` is a run of the small-step system, so the results about runs apply to the loop |
| `SarNet.DrainStops` | ios/PouchProv/Sources/PouchProvCore/Sar.swift:103-113 | where a burst ends: at the target if that lies ahead, otherwise only after LAST |
| `SarFifo.RunInv` | ios/PouchProv/Sources/PouchProvCore/Sar.swift:64-183 | over lossless in-order channels with any re-acks: the relation between acks, counts, 8-bit numbers and packets in flight that every step keeps |
| `SarFifo.WindowRespected` | ios/PouchProv/Sources/PouchProvCore/Sar.swift:103-113 | at most a window of fragments is ever written and not yet accepted |
| `SarFifo.TargetTestIsExact` | ios/PouchProv/Sources/PouchProvCore/Sar.swift:87-103 | the 8-bit test that drives a burst agrees with the same test on unbounded counters, wrap included |
| `SarFifo.RepeatedAckSameCount` | ios/PouchProv/Sources/PouchProvCore/Sar.swift:137-140 | two acks in a row with the same bytes stand for the same number of fragments, although they carry eight bits of it |
| `SarFifo.RepeatedAckWritesNothing` | ios/PouchProv/Sources/PouchProvCore/Sar.swift:103-113 | an ack with the same bytes as the one before leaves the sender as it was |
| `SarFifo.NotStuck` | ios/PouchProv/Sources/PouchProvCore/Sar.swift:77-182 | no reachable unfinished state is stuck without the re-ack timer |
| `SarFifo.MeasureDecreases` | ios/PouchProv/Sources/PouchProvCore/Sar.swift:77-182 | each step other than a re-ack lowers a measure over unsent fragments, packets and acks in flight |
| `SarFifo.RunsAreBounded` | ios/PouchProv/Sources/PouchProvCore/Sar.swift:77-182 | without the re-ack timer every run is over after at most 4n + 5 steps |
| `SarFifo.Completes` | ios/PouchProv/Sources/PouchProvCore/Sar.swift:77-182 | from every reachable state, re-acks included, the transfer can be completed, and a state where only a re-ack is possible is complete |
| `SarFifo.CompletesIffAtMost256` | ios/PouchProv/Sources/PouchProvCore/Sar.swift:64-115 | a transfer can complete if and only if the data fits in 256 fragments |
| `Cbor.WriteHead` | ios/PouchProv/Sources/PouchProvCore/Cbor.swift:132-155 | the head written for a major type and an argument, appended to the output |
| `Cbor.WriteBytes` | ios/PouchProv/Sources/PouchProvCore/Cbor.swift:146-153 | the big-endian loop appends the low k bytes, most significant first |
| `Cbor.WriteValue` | ios/PouchProv/Sources/PouchProvCore/Cbor.swift:100-129 | writing a value of any nesting appends exactly its encoding |
| `Cbor.Encode` | ios/PouchProv/Sources/PouchProvCore/Cbor.swift:94-98 | the public encoder returns the encoding |
| `Cbor.HeadReads` | ios/PouchProv/Sources/PouchProvCore/Cbor.swift:233-242 | a head is read back with its major type, argument and exact length |
| `Layout.InitialBytes` | ios/PouchProv/Sources/PouchProvCore/Cbor.swift:100-155 | every encoding starts with the major type of its value and the value, length or count as argument (section 3 of RFC 8949) |
| `Layout.AnyWidthReads` | ios/PouchProv/Sources/PouchProvCore/Cbor.swift:233-249 | an argument of 1, 2, 4 or 8 bytes is read big-endian, shortest or not |
| `Cbor.ReadEnc` | ios/PouchProv/Sources/PouchProvCore/Cbor.swift:165-260 | wherever the encoding of a value stands in longer data, reading there gives the value back and stops right after it, for the whole 64-bit range and any nesting |
| `Cbor.PrefixFree` | ios/PouchProv/Sources/PouchProvCore/Cbor.swift:94-155 | no encoding is a proper prefix of another, and equal encodings mean equal values |
| `Cbor.HeadShortest` | ios/PouchProv/Sources/PouchProvCore/Cbor.swift:132-155 | an accepted head is never shorter than the one the writer makes for it, and of the same length only if it is the same bytes |
| `Cbor.ReadShortest` | ios/PouchProv/Sources/PouchProvCore/Cbor.swift:179-260 | whatever the reader accepts is valid and no shorter than its re-encoding, with equality only for the same bytes (section 4.1 of RFC 8949) |
| `Cbor.ReencodingIsCanonical` | ios/PouchProv/Sources/PouchProvCore/Cbor.swift:94-260 | re-encoding what was read is no longer, reads back the same, and has the same length exactly when the input was that encoding |
| `Cbor.Reader.U8` | ios/PouchProv/Sources/PouchProvCore/Cbor.swift:250-254 | one byte, or truncated, with the new position |
| `Cbor.Reader.ReadBE` | ios/PouchProv/Sources/PouchProvCore/Cbor.swift:244-248 | the accumulating loop reads a k-byte big-endian integer without leaving the data |
| `Cbor.Reader.ReadArgument` | ios/PouchProv/Sources/PouchProvCore/Cbor.swift:233-242 | the argument for each additional info, or the error the code raises |
| `Cbor.Reader.TakeBytes` | ios/PouchProv/Sources/PouchProvCore/Cbor.swift:256-260 | the next n bytes, or truncated |
| `Cbor.Reader.ReadArray` | ios/PouchProv/Sources/PouchProvCore/Cbor.swift:199-204 | the item loop refines the recursive specification |
| `Cbor.Reader.ReadMap` | ios/PouchProv/Sources/PouchProvCore/Cbor.swift:205-214 | the pair loop refines the recursive specification |
| `Cbor.Reader.ReadValue` | ios/PouchProv/Sources/PouchProvCore/Cbor.swift:179-225 | the recursive-descent reader terminates on every input, stays inside it and equals the specification of reading |
| `Cbor.DecodeWithLength` | ios/PouchProv/Sources/PouchProvCore/Cbor.swift:165-169 | value and consumed length, or the error, from the front of the data |
| `Pouch.ReadEntry` | ios/PouchProv/Sources/PouchProvCore/Pouch.swift:103-121 | one turn of the entry loop, each error case included |
| `Pouch.ParseEntryBlocks` | ios/PouchProv/Sources/PouchProvCore/Pouch.swift:97-123 | the loop over concatenated payloads equals the recursive parse |
| `Pouch.ParseEncoded` | ios/PouchProv/Sources/PouchProvCore/Pouch.swift:188-200 | encoded entries parse back, in order, wherever they stand |
| `Layout.EntryBytes` | ios/PouchProv/Sources/PouchProvCore/Pouch.swift:188-200 | two bytes of data length, two of content type, one of path length, the path, the data |
| `Pouch.ParsedReencodes` | ios/PouchProv/Sources/PouchProvCore/Pouch.swift:97-123 | re-encoding the entries of any accepted bytes gives back those bytes |
| `Pouch.EntriesRoundTripIffFit` | ios/PouchProv/Sources/PouchProvCore/Pouch.swift:188-200 | entries come back from their encoding if and only if data length and content type fit sixteen bits |
| `Pouch.IdByteFields` | ios/PouchProv/Sources/PouchProvCore/Pouch.swift:217-229 | stream number, FIRST and LAST are read back from the id byte |
| `Layout.BlockBytes` | ios/PouchProv/Sources/PouchProvCore/Pouch.swift:217-229 | two bytes of size, id byte included, then the id byte: 0x40 on the first block, 0x80 on the last |
| `Pouch.ReadBlock` | ios/PouchProv/Sources/PouchProvCore/Pouch.swift:148-166 | one turn of the block loop, each error case included |
| `Pouch.SplitBlocks` | ios/PouchProv/Sources/PouchProvCore/Pouch.swift:145-169 | the splitting loop equals the recursive split |
| `Pouch.SplitEncoded` | ios/PouchProv/Sources/PouchProvCore/Pouch.swift:145-169 | encoded blocks split back into the same blocks |
| `Pouch.PackBlocks` | ios/PouchProv/Sources/PouchProvCore/Pouch.swift:76-90 | the packing loop makes the greedy groups as blocks and fails exactly on an oversized entry |
| `Pouch.PackPacks` | ios/PouchProv/Sources/PouchProvCore/Pouch.swift:76-90 | the greedy groups hold all entries, whole and in order, none above the limit if no entry is |
| `Pouch.PackFlattens` | ios/PouchProv/Sources/PouchProvCore/Pouch.swift:76-90 | whatever the block size, the groups hold exactly the entries, in order |
| `Pouch.PackWithin` | ios/PouchProv/Sources/PouchProvCore/Pouch.swift:76-90 | no group exceeds a limit that neither the block size nor an entry exceeds |
| `Pouch.GreedyUsesFewest` | ios/PouchProv/Sources/PouchProvCore/Pouch.swift:76-90 | from any fill level the greedy rule needs no more blocks than any packing that starts there |
| `Pouch.PackIsOptimal` | ios/PouchProv/Sources/PouchProvCore/Pouch.swift:71-94 | among all order-preserving packings into blocks of the given size the packer uses the fewest |
| `Pouch.BuildEntryPouch` | ios/PouchProv/Sources/PouchProvCore/Pouch.swift:71-94 | header and blocks in order, or the oversized-entry error |
| `Pouch.AppendBlocks` | ios/PouchProv/Sources/PouchProvCore/Pouch.swift:91-93 | the loop writes the encoded blocks in order behind the header |
| `Pouch.BlocksOfFramed` | ios/PouchProv/Sources/PouchProvCore/Pouch.swift:83-94 | FIRST stands on the first block only, LAST on the last only, all on stream 0 |
| `Pouch.HeaderRoundTrip` | ios/PouchProv/Sources/PouchProvCore/Pouch.swift:259-308 | a header is read back from the front of any longer data, with its exact length |
| `Layout.PlaintextBytes` | ios/PouchProv/Sources/PouchProvCore/Pouch.swift:259-269 | a plaintext header is version 1, encryption 0 and the device id, byte by byte |
| `Layout.HeadersRead` | ios/PouchProv/Sources/PouchProvCore/Pouch.swift:272-308 | exactly these headers are read: two items, version 1, and an array starting with encryption 0 and one more item or encryption 1, an array and one more; and what is read from them, pouch id 0 if it is no integer |
| `Layout.OnlyPlaintextParses` | ios/PouchProv/Sources/PouchProvCore/Pouch.swift:127-135 | behind an encrypted header nothing is parsed; behind a plaintext one the entries of exactly the blocks written |
| `Layout.OnlyEntryBlocks` | ios/PouchProv/Sources/PouchProvCore/Pouch.swift:133-133 | only blocks of stream 0 contribute entries, in order |
| `Pouch.BuiltBlocks` | ios/PouchProv/Sources/PouchProvCore/Pouch.swift:71-94 | if the blocks made fit their size field, the block section splits into the greedy groups, framed, and its payloads concatenate to the encoded entries |
| `Pouch.BlocksFit` | ios/PouchProv/Sources/PouchProvCore/Pouch.swift:217-229 | the blocks made fit their size field whenever neither the block size nor an entry exceeds 65534 bytes |
| `Pouch.BuiltParses` | ios/PouchProv/Sources/PouchProvCore/Pouch.swift:127-135 | if the blocks made fit, parsing a built pouch is parsing the encoded entries under the header built |
| `Pouch.PouchRoundTrip` | ios/PouchProv/Sources/PouchProvCore/Pouch.swift:71-135 | building fails exactly on an oversized entry; otherwise, if the blocks made fit their size field, parsing gives back the device id and the entries if and only if every content type fits sixteen bits |
| `SaeadText.Base64Injective` | ios/PouchProv/Sources/PouchProvCore/Saead.swift:64-69 | base64 text determines the bytes, whatever their length (section 4 of RFC 4648) |
| `SaeadText.Hex2Injective` | ios/PouchProv/Sources/PouchProvCore/Saead.swift:64-69 | two-digit hexadecimal text determines the integer |
| `SaeadText.InfoInjective` | ios/PouchProv/Sources/PouchProvCore/Saead.swift:64-69 | INFO strings are equal if and only if the session ids of whatever length, the block logs and the letters for initiator and algorithm are |
| `SaeadText.NonceInjective` | ios/PouchProv/Sources/PouchProvCore/Saead.swift:71-79 | nonces are equal if and only if pouch id and block index agree in sixteen bits and the role in eight |
| `SaeadText.NoncesDistinctIff` | ios/PouchProv/Sources/PouchProvCore/Saead.swift:71-79 | the blocks of one pouch have pairwise distinct nonces if and only if there are at most 65536 |
| `SaeadText.NonceBytes` | ios/PouchProv/Sources/PouchProvCore/Saead.swift:71-79 | two bytes of pouch id, two of block index, one of role, seven zeros |
| `Saead.KeysAgree` | ios/PouchProv/Sources/PouchProvCore/Saead.swift:42-62 | both ends derive the same key for the same session parameters, given a commutative key agreement |
| `Saead.ChannelOpens` | ios/PouchProv/Sources/PouchProvCore/Saead.swift:71-123 | with the nonce of its pouch, index and role a direction's opening undoes its sealing, and its block sizes read back |
| `Saead.HeaderCarriesInfo` | ios/PouchProv/Sources/PouchProvCore/Saead.swift:228-257 | session parameters and pouch id are read back from the front of the pouch |
| `Saead.UnchainChain` | ios/PouchProv/Sources/PouchProvCore/Saead.swift:178-198 | a peer with the same key, role and pouch id opens a tag-chained sequence of any length, block for block |
| `Saead.OpenedSealed` | ios/PouchProv/Sources/PouchProvCore/Saead.swift:126-200 | a whole sealed pouch opens to the texts that went in, with mirrored keys |
| `Saead.DownlinkRoundTrip` | cli/src/pouchprov/transport/mock.py:50-67 | if the sealed blocks fit their size field, a device with the mirrored key recovers the entries of a downlink pouch over any number of blocks, if and only if the entries' fields fit |
| `Saead.UplinkRoundTrip` | cli/src/pouchprov/transport/mock.py:69-83 | the server recovers the entries the device sealed, if and only if their fields fit |
| `Saead.SaeadSession.constructor` | ios/PouchProv/Sources/PouchProvCore/Saead.swift:279-293 | a session starts with neither direction set up |
| `Saead.SaeadSession.NewDownlink` | ios/PouchProv/Sources/PouchProvCore/Saead.swift:296-307 | for a session id of sixteen bytes the parameters returned are that id, initiator 1, the algorithm, block log and certificate reference of the session, and the key is derived from them; any other length is refused |
| `Saead.SaeadSession.EncryptDownlinkBlock` | ios/PouchProv/Sources/PouchProvCore/Saead.swift:310-320 | seals under the twelve nonce bytes of pouch id, index and role 1, with the previous tag as additional data except for block 0, and returns the last 16 bytes to chain |
| `Saead.SaeadSession.AdoptUplink` | ios/PouchProv/Sources/PouchProvCore/Saead.swift:323-332 | sets the uplink key, or refuses a session the device did not initiate |
| `Saead.SaeadSession.DecryptUplinkBlock` | ios/PouchProv/Sources/PouchProvCore/Saead.swift:335-345 | opens under the nonce bytes with role 0 and the same additional data, and returns the last 16 bytes to chain; too short or not opening is told apart |
| `Saead.PackPayloads` | ios/PouchProv/Sources/PouchProvCore/Saead.swift:140-150 | the packing loop without a size check makes the same greedy groups |
| `Saead.SealPayloads` | ios/PouchProv/Sources/PouchProvCore/Saead.swift:152-166 | the sealing loop makes the tag chain over all payloads |
| `Saead.ReadSealed` | ios/PouchProv/Sources/PouchProvCore/Saead.swift:178-186 | the size field and the sealed bytes of one block, or truncated |
| `Saead.OpenNext` | ios/PouchProv/Sources/PouchProvCore/Saead.swift:184-194 | one turn of the decryption loop, every refusal included |
| `Saead.BuildDownlinkPouch` | ios/PouchProv/Sources/PouchProvCore/Saead.swift:126-168 | the built pouch is the one the round trip is about |
| `Saead.OpenUplink` | ios/PouchProv/Sources/PouchProvCore/Saead.swift:178-198 | the decryption loop undoes the chain and keeps the payloads of stream 0 |
| `Saead.ParseUplinkPouch` | ios/PouchProv/Sources/PouchProvCore/Saead.swift:171-200 | parsing is the opening the round trip is about, every refusal included |
| `SaeadBytes.DownlinkBytes` | ios/PouchProv/Sources/PouchProvCore/Saead.swift:126-168 | the built pouch is the header, then for each packed block two bytes of size and the block: sealed under its twelve nonce bytes with role 1 and, except for the first, the last 16 bytes of the block before |
| `SaeadBytes.UplinkBytes` | cli/src/pouchprov/transport/mock.py:69-83 | the same of what the device sends, with role 0 and one block whose id byte is 0xC0 |
| `SaeadBytes.AcceptsIff` | ios/PouchProv/Sources/PouchProvCore/Saead.swift:178-198 | framed blocks are accepted if and only if each opens under the nonce of its own index and the last 16 bytes of the block before, and the texts are those |
| `SaeadBytes.ForeignBlockIsRefused` | docs/protocol.md:200-200 | if a sealed block opens under one nonce and one additional data only, a block sealed for its place but behind another tag is refused |
| `SaeadBytes.NextBlockIsRefused` | docs/protocol.md:200-200 | under the same law, replacing a block by one with another tag makes the genuine next block refused |
| `SaeadBytes.MisplacedIsRefused` | docs/protocol.md:200-200 | a block of the pouch does not open at another index |
| `SaeadBytes.OnlyFrontsAccepted` | docs/protocol.md:200-200 | of all ways to pick blocks of a pouch, in any order, left out or repeated, exactly the fronts are accepted |
| `Layout.SaeadBytes` | ios/PouchProv/Sources/PouchProvCore/Pouch.swift:259-269 | an encrypted header is version 1, encryption 1, the session parameters and the pouch id |
| `Layout.SessionInfoBytes` | ios/PouchProv/Sources/PouchProvCore/Saead.swift:228-238 | session parameters are the id in an array of its own, initiator, algorithm, block log and certificate reference, in this order |
| `Layout.OnlyEntryTexts` | ios/PouchProv/Sources/PouchProvCore/Saead.swift:195-197 | only opened blocks of stream 0 contribute entries |
| `Layout.Base64Decodes` | ios/PouchProv/Sources/PouchProvCore/Saead.swift:64-69 | the session id text is base64: a decoder by table 1 of RFC 4648 gives the bytes back |
| `Layout.HexReads` | ios/PouchProv/Sources/PouchProvCore/Saead.swift:64-69 | hexadecimal text reads back as the number, with upper-case digits |
| `Layout.InfoLayout` | ios/PouchProv/Sources/PouchProvCore/Saead.swift:37-69 | the INFO string and the key length, 32 or 16 bytes, by algorithm and initiator, for every session id |
| `SaeadAccepts.UnchainReseals` | ios/PouchProv/Sources/PouchProvCore/Saead.swift:178-198 | whatever bytes the decryption loop accepts, the texts it returns seal, each under its own index and its predecessor's tag, to exactly those bytes |
| `SaeadAccepts.OpensOnce` | ios/PouchProv/Sources/PouchProvCore/Saead.swift:178-198 | two byte strings opened to the same texts are the same |
| `SaeadAccepts.AcceptedPouchReseals` | ios/PouchProv/Sources/PouchProvCore/Saead.swift:171-200 | an accepted pouch is the header read and then the chain of the texts read, under the key and pouch id the header names |
| `SaeadAccepts.CutAcceptedIff` | ios/PouchProv/Sources/PouchProvCore/Saead.swift:178-198 | the first bytes of a sealed chain are accepted if and only if they end between two blocks |
| `SaeadAccepts.CutPouchOpens` | ios/PouchProv/Sources/PouchProvCore/Saead.swift:171-200 | a pouch without its last blocks is a front of the whole one and opens to the entries of the blocks left |
| `Transfer.PouchArrives` | ios/PouchProv/Sources/PouchProvCore/Sar.swift:64-183 | over lossy, duplicating, reordering channels a blob received for a built pouch parses to the device id and entries given to the builder |
| `Transfer.PouchDelivered` | ios/PouchProv/Sources/PouchProvCore/Sar.swift:64-183 | over lossless in-order channels a pouch of at most 256 fragments can be received, and parses to them |
| `Transfer.SealedPouchArrives` | ios/PouchProv/Sources/PouchProvCore/Saead.swift:126-168 | the same over lossy channels for an encrypted downlink pouch and a device with the mirrored keys |
| `AsyncMutexModel.AsyncMutex.Acquire` | ios/PouchProv/Sources/PouchProvCore/AsyncSupport.swift:53-65 | takes a free lock at once, otherwise queues at the end |
| `AsyncMutexModel.AsyncMutex.Release` | ios/PouchProv/Sources/PouchProvCore/AsyncSupport.swift:67-77 | hands the lock to the first waiter without unlocking, or unlocks |
| `AsyncMutexModel.RunInv` | ios/PouchProv/Sources/PouchProvCore/AsyncSupport.swift:46-84 | what every interleaving keeps: arrivals are those granted followed by those waiting, and the lock is held by the last granted |
| `AsyncMutexModel.MutualExclusion` | ios/PouchProv/Sources/PouchProvCore/AsyncSupport.swift:46-84 | in every interleaving at most one task is inside |
| `AsyncMutexModel.NoLostWakeup` | ios/PouchProv/Sources/PouchProvCore/AsyncSupport.swift:67-77 | a queued task means another task owns the lock and has yet to release it |
| `AsyncMutexModel.GrantedInArrivalOrder` | ios/PouchProv/Sources/PouchProvCore/AsyncSupport.swift:53-77 | the lock goes to tasks in the order of their `acquire` sections, one per release, with no barging |
| `AsyncMutexModel.ResumedOnce` | ios/PouchProv/Sources/PouchProvCore/AsyncSupport.swift:53-77 | no task is given the lock or resumed twice |
| `PacketQueueModel.PacketQueue.Feed` | ios/PouchProv/Sources/PouchProvCore/AsyncSupport.swift:98-108 | a packet goes to the waiter if there is one, otherwise to the buffer's end |
| `PacketQueueModel.PacketQueue.Receive` | ios/PouchProv/Sources/PouchProvCore/AsyncSupport.swift:111-129 | takes the oldest packet, or waits under a new id |
| `PacketQueueModel.PacketQueue.Expire` | ios/PouchProv/Sources/PouchProvCore/AsyncSupport.swift:131-140 | ends the wait of that id and no other |
| `PacketQueueModel.RunInv` | ios/PouchProv/Sources/PouchProvCore/AsyncSupport.swift:92-141 | what every interleaving of feeds, calls and timers keeps |
| `PacketQueueModel.FedIsDeliveredPlusBuffer` | ios/PouchProv/Sources/PouchProvCore/AsyncSupport.swift:92-141 | packets delivered followed by the buffer are the packets fed |
| `PacketQueueModel.WaiterMeansEmpty` | ios/PouchProv/Sources/PouchProvCore/AsyncSupport.swift:98-129 | a wait and a buffered packet never coexist |
| `PacketQueueModel.ResumedOnceInOrder` | ios/PouchProv/Sources/PouchProvCore/AsyncSupport.swift:98-140 | each call is resumed exactly once, in call order, except the one still waiting |
| `PacketQueueModel.TimerEndsOnlyItsOwnWait` | ios/PouchProv/Sources/PouchProvCore/AsyncSupport.swift:120-140 | a timer ends the wait of the call that armed it, and a stale one changes nothing |
| `WifiConfigModel.WifiConfig.constructor` | src/handlers/wifi_config.c:174-187 | the state after initialisation |
| `WifiConfigModel.WifiConfig.ConnectFromInflight` | src/handlers/wifi_config.c:79-104 | one connect request from the in-flight parameters, or none without an interface |
| `WifiConfigModel.WifiConfig.DoFinalFailure` | src/handlers/wifi_config.c:106-125 | failed, with its reason, the network removed from the store and nothing in flight |
| `WifiConfigModel.WifiConfig.RetryWork` | src/handlers/wifi_config.c:127-136 | the timer's retry, or nothing when no attempt is in flight |
| `WifiConfigModel.WifiConfig.OnConnectResult` | src/handlers/wifi_config.c:138-164 | success, retry or final failure, by the attempt counter |
| `WifiConfigModel.WifiConfig.DoReset` | src/handlers/wifi_config.c:189-202 | everything but the stored networks is cleared |
| `WifiConfigModel.WifiConfig.DoReprovision` | src/handlers/wifi_config.c:214-219 | the stored networks are cleared too |
| `WifiConfigModel.WifiConfig.DoSet` | src/handlers/wifi_config.c:221-250 | stages checked parameters, or refuses and changes nothing |
| `WifiConfigModel.WifiConfig.DoApply` | src/handlers/wifi_config.c:252-302 | stores and starts an attempt with the staged parameters, each refusal included |
| `WifiConfigModel.RunInv` | src/handlers/wifi_config.c:69-302 | what every sequence of requests, driver results and timer events keeps |
| `WifiConfigModel.ConnectingIffInFlight` | src/handlers/wifi_config.c:69-164 | the station is connecting if and only if the in-flight SSID is non-empty |
| `WifiConfigModel.RequestsBounded` | src/handlers/wifi_config.c:138-164 | one apply leads to at most max(1, attempts_max) connect requests |
| `WifiConfigModel.FailedIsNotStored` | src/handlers/wifi_config.c:106-125 | a failed station has left its network out of the store |
| `WifiConfigModel.SettledStays` | src/handlers/wifi_config.c:127-164 | a settled state changes only by apply or reset |
| `WifiConfigModel.RequestsCarryWhatWasApplied` | src/handlers/wifi_config.c:252-302 | until the next apply every request carries what was staged when apply was accepted, whatever is staged later |
| `WifiConfigModel.GivesUpAfterAllAttempts` | src/handlers/wifi_config.c:138-164 | whatever the failure statuses, if every attempt fails the station gives up after exactly max(1, attempts_max) requests, and the last status alone decides the reason |
| `WifiRuns.ConnectedExactlyWhenJoined` | src/handlers/wifi_config.c:138-164 | in every run the station is connected if and only if the last of an effective apply, a reset and a result that found an attempt in flight was a successful result |
| `WifiRuns.SuccessConnects` | src/handlers/wifi_config.c:138-164 | after an accepted apply and any number of failed rounds short of the limit, a successful result leaves the station connected, nothing in flight, and the staged network in the store |
| `WifiRuns.AppliedIsStored` | src/handlers/wifi_config.c:252-302 | from an effective apply to the next apply, while connecting or connected, the store holds what was staged at that apply |
| `WifiRuns.ConnectingIsPending` | src/handlers/wifi_config.c:127-164 | a connecting station has its retry scheduled or an accepted request unanswered: it is never left hanging |
| `WifiRuns.RefusedFails` | src/handlers/wifi_config.c:106-136 | a refused request fails the station at once, with the reason of the apply or of the last failure, and drops the network |
| `WifiRuns.SetAccepts` | src/handlers/wifi_config.c:221-250 | a configuration is taken if and only if the SSID has 1 to 32 bytes and the passphrase at most 63; a refusal changes nothing |
| `WifiRuns.ApplyAnswers` | src/handlers/wifi_config.c:252-302 | apply is answered ok if and only if it takes effect; what each refusal leaves |
| `WifiRuns.RequestsAskForConfig` | src/handlers/wifi_config.c:79-104 | set, then apply: every connect request until the next apply asks the driver for exactly that configuration, by key, security, channel and BSSID |
| `WifiRuns.FreshIsIdle` | src/handlers/wifi_config.c:174-187 | until a network is first staged the station stays disconnected, asks for nothing and stores nothing, whatever arrives |
| `WifiRuns.ResetForgets` | src/handlers/wifi_config.c:189-219 | after a reset and until the next set, whatever arrives, the station stays disconnected, asks for nothing and refuses apply; stored networks survive a reset and not a reprovision |
| `CredStoreModel.DerSequenceLenOk` | src/cred_store.c:60-82 | the accumulating loop in 32-bit arithmetic accepts exactly a SEQUENCE whose definite length spans the bytes |
| `CredStoreModel.NoWrap` | src/cred_store.c:81-81 | 32-bit wrap-around never makes a wrong length match |
| `CredStoreModel.DerSpansOnlyWhole` | src/cred_store.c:60-82 | of a certificate and its truncations or extensions only one passes |
| `CredStoreModel.DerEncodingSpans` | src/cred_store.c:60-82 | a correctly encoded SEQUENCE passes if and only if it has at least two content bytes (section 8.1.3 of X.690) |
| `CredStoreModel.Cell.constructor` | src/cred_store.c:28-44 | an empty buffer of the kind's capacity |
| `CredStoreModel.Cell.Write` | src/cred_store.c:112-134 | staging one chunk in place, each refusal included |
| `CredStoreModel.Cell.Copy` | src/cred_store.c:131-132 | the chunk replaces exactly the bytes from the staged length on |
| `CredStoreModel.CredStore.constructor` | src/cred_store.c:36-44 | three empty buffers, none shared |
| `CredStoreModel.CredStore.StageChunk` | src/cred_store.c:112-134 | only the addressed kind changes, or nothing for an unknown kind |
| `CredStoreModel.CredStore.SaveKind` | src/cred_store.c:166-172 | the staged bytes of one kind are persisted |
| `CredStoreModel.CredStore.FinalizeAll` | src/cred_store.c:136-177 | validation, then the save loop, equal to the specification of finalize |
| `CredStoreModel.CredStore.Clear` | src/cred_store.c:202-211 | settings, lengths and staging of all kinds are cleared |
| `CredStoreModel.StagedIsWhatWasAccepted` | src/cred_store.c:112-134 | after any run the staged prefix is the concatenation of the chunks accepted since the last chunk at offset 0, and staged <= expected <= capacity |
| `CredRuns.StageAnswers` | src/cred_store.c:112-134 | the answer to every chunk: the bytes then held if it starts or continues the transfer within its total, too large exactly above 512 bytes for a key and 2048 otherwise, else invalid |
| `CredStoreModel.SaveFromSaves` | src/cred_store.c:166-176 | the save loop persists the complete kinds up to the first failing save and touches nothing else |
| `CredStoreModel.FinalizeExactly` | src/cred_store.c:136-177 | finalize succeeds if and only if key and certificate are complete, the certificate's length spans it and every save works; a refused validation changes nothing, a failing save leaves the kinds before it saved |
| `CredRuns.FinalizePersistsWhatArrived` | src/cred_store.c:112-177 | after any run, with working saves, finalize succeeds if and only if certificate and key have arrived whole and not empty and the certificate's length spans it; then every kind that arrived is persisted as it came, and no other changes |
| `CredRuns.FinalizeAtomicIff` | src/cred_store.c:136-177 | finalize is all or nothing if and only if it refuses before saving, or every complete kind is saved, or every complete kind before the first failing save was persisted as staged already |
| `CredRuns.FinalizeSavesHalf` | src/cred_store.c:159-173 | from any fresh store without a certificate and key: stage both, let the key's save fail, and the certificate is persisted without the key |
| `CredRuns.FinalizeIsNotAtomic` | src/cred_store.c:159-173 | such a run exists |
| `CredRuns.PersistedStep` | src/cred_store.c:112-211 | what is persisted for a kind, and its length, change only by a finalize that saves the kind and by a delete |
| `CredRuns.PersistedIsLastSaved` | src/cred_store.c:136-211 | after any run from boot what is persisted is the chunks accepted before the last saving finalize, or nothing after a delete |
| `CredRuns.BufferIs` | src/cred_store.c:131-200 | within the persisted length a buffer holds the persisted bytes, overwritten by the chunks accepted since |
| `CredStoreModel.StagingKeepsSyncIff` | src/cred_store.c:131-200 | one accepted chunk leaves the loaded credential equal to the persisted one if and only if it rewrites the same bytes within the persisted length |
| `CredRuns.InSyncIff` | src/cred_store.c:131-200 | after any run from boot the application reads the persisted credential if and only if every chunk accepted since the last save wrote, within its length, the persisted bytes |
| `CredRuns.StagingBreaksSync` | src/cred_store.c:131-200 | after staging and finalizing any certificate and key, staging one byte that differs from the key's first makes the application read a key that is not the persisted one |
| `FlowsModel.CredWriteRoundTrip` | ios/PouchProv/Sources/PouchProvCore/Messages.swift:187-195 | the device reads back the chunk the client encoded, or refuses one outside the message's ranges |
| `FlowsModel.CredWriteSize` | ios/PouchProv/Sources/PouchProvCore/Messages.swift:187-195 | a write message for a chunk of at most 256 bytes is at most 289 bytes |
| `FlowsModel.ResponseRoundTrip` | ios/PouchProv/Sources/PouchProvCore/Messages.swift:206-264 | the client reads the received count or the error status the device answered |
| `FlowsModel.FinalizeExchanged` | ios/PouchProv/Sources/PouchProvCore/Messages.swift:197-216 | the finalize request is read by the device and the client reads its status |
| `Layout.CredWriteBytes` | ios/PouchProv/Sources/PouchProvCore/Messages.swift:187-195 | a write is operation 0 and the map of kind, off, total and data, in this order, byte by byte |
| `Layout.CredResponseBytes` | src/handlers/cred.c:49-76 | the bytes of the finalize request and of each answer to a write or finalize |
| `Layout.CredResponsesRead` | ios/PouchProv/Sources/PouchProvCore/Messages.swift:206-264 | a count is read only from an ok answer to a write, a refusal only from one of the six error statuses, each if and only if |
| `FlowsModel.ExchangeStages` | src/handlers/cred.c:49-66 | one exchange stages the chunk and reports its result |
| `FlowsModel.NextExchange` | ios/PouchProv/Sources/PouchProvCore/Flows.swift:108-124 | with the prefix held, the next chunk is accepted, the count matches and no other kind changes |
| `FlowsModel.TooLargeIsRefused` | ios/PouchProv/Sources/PouchProvCore/Flows.swift:108-124 | a credential over its kind's capacity is refused on the first chunk and changes nothing |
| `FlowsModel.PushDelivers` | ios/PouchProv/Sources/PouchProvCore/Flows.swift:103-125 | whatever was staged before and for every chunk size, the push succeeds if and only if the credential fits; then the device holds exactly it, complete |
| `FlowsModel.SentArePieces` | ios/PouchProv/Sources/PouchProvCore/Flows.swift:112-124 | whatever the device answers, what is sent is an initial run of the write requests for the pieces, and all of them on success |
| `FlowsModel.MessagesAreSmall` | ios/PouchProv/Sources/PouchProvCore/Messages.swift:187-195 | every write request for a credential that fits its kind is at most 289 bytes |
| `FlowsModel.PushSends` | ios/PouchProv/Sources/PouchProvCore/Flows.swift:103-125 | a push of a credential that fits sends exactly one request for each piece, in order, none larger than 289 bytes, so the dispatcher never overflows |
| `FlowsModel.Answer` | src/handlers/cred.c:39-66 | the device's side of one exchange, on its real buffers |
| `FlowsModel.AnswerFinalize` | src/handlers/cred.c:67-76 | the device's side of the finalize exchange, on its real buffers |
| `FlowsModel.PushCredential` | ios/PouchProv/Sources/PouchProvCore/Flows.swift:103-125 | the device's state, the result and the list of requests sent are those of the specification, for every device state and chunk size |
| `FlowsModel.PushesOffer` | ios/PouchProv/Sources/PouchProvCore/Flows.swift:128-138 | the two or three pushes succeed if and only if each credential fits; each kind then has complete what was pushed, or for an empty credential what it had before |
| `FlowsModel.BootstrapPersists` | ios/PouchProv/Sources/PouchProvCore/Flows.swift:128-142 | bootstrap succeeds if and only if everything fits 2048, 512 and 2048 bytes, what is then complete has a certificate whose length spans it and a key, and the saves work; exactly that is then persisted. Otherwise the status is internal error if only a save failed, else invalid argument with nothing persisted |
| `FlowsModel.BootstrapCredentials` | ios/PouchProv/Sources/PouchProvCore/Flows.swift:128-142 | the method equals the specification that result is about |
| `DispatchModel.Dispatcher.constructor` | src/dispatch.c:47-54 | no entry, nothing authorized |
| `DispatchModel.Dispatcher.Reset` | src/dispatch.c:66-73 | drops the entry, the authorization and the challenge |
| `DispatchModel.Dispatcher.DownlinkStart` | src/dispatch.c:103-126 | an entry is taken for a known path on stream 0 with CBOR content, otherwise ignored |
| `DispatchModel.Dispatcher.Append` | src/dispatch.c:136-141 | the fragment is copied behind the accumulated bytes of the 384-byte buffer |
| `DispatchModel.Dispatcher.Finish` | src/dispatch.c:147-183 | overflow, refusal or the handler on the accumulated message, with the reply each sends |
| `DispatchModel.Dispatcher.DownlinkData` | src/dispatch.c:128-183 | accumulates one fragment and completes the entry on the last |
| `DispatchModel.Dispatcher.RequestAuth` | src/handlers/auth.c:96-173 | challenge and proof handling with the 8-bit attempt counter and the response, each outcome included |
| `DispatchModel.SameProof` | src/handlers/auth.c:157-168 | the constant-time loop decides equality of the two proofs |
| `DispatchModel.DispatchSeesConcatenation` | src/dispatch.c:128-183 | however an entry is cut, dispatch does what it does for the whole message at once; it overflows exactly above 384 bytes, and otherwise the handler gets exactly the whole message if the session allows it |
| `DispatchModel.RunInv` | src/handlers/auth.c:35-173 | what every run keeps between the state and the history of handled messages |
| `DispatchModel.AuthorizedExactlyWhenProved` | src/handlers/auth.c:138-172 | in every run the session is authorized if and only if, since the last reset, a counted proof equalled the HMAC over the nonces of the challenge then in force |
| `DispatchModel.ProtectedHandlersAreGated` | src/dispatch.c:155-159 | no run reaches a protected handler without such a proof, unless no secret is configured |
| `DispatchModel.ProtectedHandlerFollowsProof` | src/dispatch.c:54-73 | the position of that proof in the history, with no reset after it |
| `DispatchModel.ThreeProofsIff` | src/handlers/auth.c:146-149 | at most three proofs per session pass the counter if and only if fewer than 256 attempts are made |
| `DispatchModel.RightProofAfterWrong` | src/handlers/auth.c:146-172 | after a challenge and k wrong proofs the session is still there, and the right proof authorizes it if and only if k + 1 modulo 256 is at most three |
| `DispatchModel.LimitIsPassed` | src/handlers/auth.c:146-172 | a run with k wrong proofs, for k = 255 and every k above with k + 1 at most three modulo 256, then the right one: authorized, no reset, and more than three proofs past the counter |
| `DispatchModel.OnlyResetsEnd` | src/handlers/auth.c:138-172 | no proof ends a session, failed or not: only an explicit reset or a ctrl request does |
| `DispatchRuns.OwnEndpoints` | src/dispatch.c:29-45 | each of the six paths has its own handler, and exactly ctrl, config, scan and cred are protected |
| `DispatchRuns.ProtectedPathsFollowProof` | src/dispatch.c:147-183 | in every run with a secret, a request handled on .prov/ctrl, .prov/config, .prov/scan or .prov/cred comes after a challenge on .prov/auth and a proof equal to the "cli" digest over its nonces, with no other challenge between them and no reset since |
| `DispatchRuns.DroppedEntry` | src/dispatch.c:66-147 | a reset, and the last fragment of an entry, drop the entry in progress: until another starts, no data is looked at |
| `DispatchRuns.EntryOutcome` | src/dispatch.c:103-183 | what every entry comes to, however it is cut: ignored unless on stream 0 with CBOR content and one of the six paths; refused above 384 bytes; handled by the endpoint of its path if that is .prov/ver or .prov/auth or the session is authorized, else answered unauthorized |
| `DispatchRuns.OtherStreamsIgnored` | src/dispatch.c:128-134 | data of another stream changes nothing |
| `DispatchRuns.EveryReplyFits` | src/handlers/auth.c:106-173 | every reply in every run: a challenge is answered with the nonce then in force and a digest that passes the client's check, a proof with ok only if it authorizes, a refusal with the operation and status of its cause |
| `DispatchRuns.NoReplyIsAProof` | src/handlers/auth.c:119-155 | if the digest separates the tags, nothing the device has replied in a run is a proof that would authorize |
| `DispatchRuns.ClientChecksDevice` | ios/PouchProv/Sources/PouchProvCore/Auth.swift:43-57 | after any run, the answer to the client's challenge passes its check if and only if its secret gives the device's digest, and the nonces of both are then in force |
| `DispatchRuns.RightProofAuthorizes` | ios/PouchProv/Sources/PouchProvCore/Auth.swift:58-65 | after any run with a challenge in force, the client's proof authorizes if and only if the attempt passes the counter |
| `DispatchRuns.ErrorReplyCarriesOp` | src/dispatch.c:79-101 | the error reply to an encoded request carries its operation, and there is none for an operation above 2 |

## Left out

- BLE and GATT transports, advertising, pairing, the user interfaces: platform callbacks.
- The Python and Kotlin ports of the same layers: the same algorithms again.
- The generated zcbor codecs: only message shapes and ranges are used; a decoder of authorization requests is a parameter.
- Cryptographic primitives, X.509, device identity and the cloud client: foreign libraries.
- Session polling, back-off and wall-clock deadlines: timers are events that may come at any time.
- Wi-Fi scanning and its paging, the version handler, the manager and the samples: single-branch facts.
- The response queue: a reply is what the dispatcher puts there; that the queue may be full is not modelled.
- The answers of the version, config, scan, ctrl and cred handlers enter the dispatcher as inputs.
- Memory reserved for announced CBOR counts, and the depth of the native stack.
- Loading of persisted credentials at boot.
- Races between a cancelled retry timer and its handler: each event is atomic.
- An authorization request while no secret is configured reads a null pointer in the source; the model answers with the I/O error.
- WifiConfigModel.WifiConfig.DoSet: the fixed buffers are byte sequences, so update in place inside them is not modelled.
- CredStoreModel.CredStore.Clear: a failing delete in the settings backend, which the source ignores, is not modelled.
- Pouch.PouchRoundTrip: says nothing about pouches with a block that overflows its sixteen-bit size field.
- Saead.DownlinkRoundTrip: asks that each sealed block made fits the sixteen-bit size field, which the builder does not check.
- WifiConfigModel.WifiConfig.ConnectFromInflight: the constant request fields (band, management frame protection, timeout) are left out.
- Layout.InfoLayout: with the block log the client uses; other block logs are covered by Layout.HexReads.
- CredStoreModel.StagingKeepsSyncIff: one step only; runs are in CredRuns.InSyncIff.
- Saead.KeysAgree: follows from the assumed law of key agreement.
- SarNet.RunStrongInv: asks for at most 255 fragments; the cases of 256 and more are separate results.
