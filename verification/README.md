# A verified model of the post-quantum bridge and its harness

This project models, in Dafny, the algorithms and protocols of a Cosmos chain bridged to Ethereum over IBC v2, and of the
measuring harness around it, and proves properties of them for all inputs and all runs.
`dafny verify dfyconfig.toml` checks all of it.

| file | models |
|---|---|
| `Bridge.dfy` | the packet protocol between the two chains, as steps: mint, send (escrow or burn), block, finality, client update, receive, acknowledge, replay |
| `Merkle.dfy`, `SyncCommittee.dfy` | SSZ Merkleization, branch folding by generalized index, the sync committee check |
| `ConvertBits.dfy`, `Bech32Checksum.dfy`, `Bech32Word.dfy`, `Bech32.dfy`, `Bech32Collision.dfy` | Bech32: bit regrouping with a 32-bit accumulator, the checksum register in groups and as a number, encoding, decoding, single errors |
| `Protobuf.dfy`, `Packet.dfy`, `Ics24.dfy` | the protobuf reader, the packet decoder, the ICS-24 commitments and store keys |
| `Chunking.dfy`, `RelayPool.dfy` | the pooled relay: chunks, a shared queue of them, concurrent workers, attribution of results |
| `Shares.dfy`, `Resume.dfy` | a group run with checkpoints under crashes and resumes, and the acknowledgement windows |
| `RoundRobin.dfy` | the load generator's pool and its round-robin pump |
| `Pairing.dfy` | pairing two clients over interrupted runs, and the rewriting of `deploy.env` |
| `EmptyValueDb.dfy` | the database wrapper that tells an empty value from a missing key |
| `RecvBatch.dfy`, `ProofSlot.dfy` | how many messages go in a transaction, and which consensus state a batch or a wave is proved against |
| `Bisection.dfy` | the two searches for the largest batch that fits |
| `StorageSim.dfy` | the storage simulator |
| `Radix.dfy`, `Hashing.dfy`, `Wrappers.dfy` | digits and powers of two, byte strings and hashes, optional values and other small things shared |

A hash function is any total table from byte strings to 32-byte strings. Where a result needs collision resistance it asks
for it on the finitely many strings hashed. Protocols and threads are step systems, and results about them hold for every
interleaving and every length. Code that updates things in place is a method or a class, proved against a function.

Some promises of the source turn out to need a condition, which is proved exactly:

- A single wrong character in the data part of a Bech32 string is always caught, unless it is the separator `1`, the
  prefix this makes leaves the register where the old symbols did, and the rest still makes whole bytes
  (`Bech32.SubstitutionAccepted`). Without a separator, any change within six characters is caught
  (`Bech32.BurstRejected`). `Bech32Collision.SeparatorSlipsThrough` has two strings that are both accepted.
- Acknowledgements in a checkpoint survive once a run has loaded it (`Resume.LoadedAckSurvives`). One that was only
  saved can be overwritten by an older snapshot of another worker, since the snapshots are taken outside the lock
  (`Resume.UnloadedAckCanBeLost`). It survives every continuation exactly when the run is past its submission and no
  worker holds such a snapshot (`Resume.SavedAckSurvivesIff`), and so with one acknowledgement key always
  (`Resume.OneKeyLosesNothing`).
- Running the client pairing again succeeds if its reads are answered, unless `ETH_CLIENT_ID` is pinned to another
  client, which goes before `deploy.env`. It changes nothing exactly when it sees the configured client in place, or
  sees the counterparty, or its deployment fails (`Pairing.RerunAfterSuccess`, `Pairing.PinnedRerunThrows`). The script
  takes a failed read for absence; with both reads failed it can record a client that no later run can register
  (`Pairing.UnreadRerunSpoils`).
- A pairing that was stopped can be run again from every point but those in `Pairing.StopRecovers`: without a pin,
  all but the one between adding the client and recording it, when Cosmos names that client already
  (`Pairing.StopRecoversUnpinned`, `Pairing.UnrecoverableStop`).
- The comment on `chunkSize` says its result was re-measured. For up to fourteen messages the result fits or is one
  message, whatever their sizes, and for no greater number (`RecvBatch.FitsUpToFourteen`): after six failed probes the
  last candidate is returned unmeasured. A result of one out of several messages was never measured
  (`RecvBatch.OneIsNotMeasured`).
- A comment in the relay pool has exactly as many chunks in flight as workers at all times. While chunks are left that
  is so exactly when no worker is between two chunks, and none has stopped by then (`RelayPool.PoolStaysFull`).

A wave's one prepared slot covers every flow, as promised (`ProofSlot.PrepareWave`): each flow's send file has the n
records it submitted, and the batch of n takes all that committed. With a smaller count it would cover every flow exactly
when the lead flow's newest packet is in the batch (`ProofSlot.WaveCoveredIff`).

## Model

| member | source | states |
|---|---|---|
| `Bridge.RunSafe` | docs/architecture.md:131-179 | after any number of packets, blocks, client updates and replays: credits only for packets covered by a held consensus state, one receipt, credit and acknowledgement each, and all the money accounted for |
| `Bridge.HandleKeepsProtocol` | docs/architecture.md:131-146 | every handler keeps: commitments are of packets sent, each packet is committed or acknowledged and not both, receipts are covered by trusted finalized blocks, acknowledged implies received |
| `Bridge.SendKeepsProtocol` | devnet/step-native-send.js:44-92 | a send commits a new packet under a fresh sequence number and disturbs no other |
| `Bridge.AdvanceKeepsProtocol` | docs/architecture.md:134-139 | a new block shows only commitments and acknowledgements that are there |
| `Bridge.QuietKeepsProtocol` | docs/architecture.md:137-139 | minting, finality and client updates keep the protocol's invariant |
| `Bridge.ReceiveKeepsProtocol` | devnet/step-native-recv.js:42-73 | a receive credits, receipts and acknowledges exactly one packet, and only one proved at a trusted height |
| `Bridge.AcknowledgeKeepsProtocol` | devnet/step-native-ack.js:63-69 | an acknowledgement clears a commitment once, and only of a packet received |
| `Bridge.AcknowledgeSucceedsIff` | devnet/step-native-ack.js:63-69 | exactly when an acknowledgement clears a commitment, is a no-op, or is rejected; every other commitment stays |
| `Bridge.FinalitySucceedsIff` | docs/architecture.md:134-139 | finality and client updates go through exactly for blocks there are and for finalized ones |
| `Bridge.MintKeepsBacking` | devnet/step-native-send.js:33-40 | minting keeps escrow backed and adds to the supply |
| `Bridge.MintSucceedsIff` | devnet/step-native-send.js:33-40 | minting goes through exactly on the token's own chain and adds to one holding |
| `Bridge.SendKeepsBacking` | devnet/step-redeem-send.js:25-70 | escrow on one chain equals vouchers on the other plus what is under way, after a send that escrows and after one that burns |
| `Bridge.SendSucceedsIff` | devnet/step-redeem-send.js:25-70 | a send goes through exactly when the sender has the amount, of a native token or of a voucher: the sender pays, escrow rises for a native token only, the packet is committed under the next sequence number, and nothing else moves |
| `Bridge.ReceiveKeepsBacking` | devnet/step-redeem-recv.js:43-65 | the same after a receive that mints a voucher and after one that pays out of escrow |
| `Bridge.ReceiveSucceedsIff` | devnet/step-redeem-recv.js:43-65 | exactly when a receive is paid out, is a no-op, or is rejected, and what it moves |
| `Bridge.HandleKeepsBacking` | docs/architecture.md:131-171 | every handler keeps escrow equal to vouchers outstanding plus amounts under way in both directions, for every asset of either chain |
| `Bridge.HandleKeepsAccounts` | docs/architecture.md:131-171 | every balance stays what was issued and credited to its holder less what they sent |
| `Bridge.EscrowNeverShort` | devnet/step-redeem-recv.js:43-65 | in every reachable state a proved packet not received yet is received: its amount is in escrow |
| `Bridge.ReplayIsNoOp` | docs/architecture.md:173-179 | a packet once received can be submitted again at any later time, with any proof and contents: nothing changes and it is no error |
| `Bridge.Deliverable` | docs/architecture.md:131-143 | from every reachable state every packet sent and not received can be delivered in four steps, which pay its receiver its amount, out of escrow or in vouchers, and nobody else anything |
| `Bridge.Acknowledgeable` | docs/architecture.md:144-146 | every packet received and not acknowledged can be acknowledged, which clears its commitment |
| `Bridge.CommittedUntilAcknowledged` | devnet/step-native-ack.js:63-69 | a packet's commitment stays until its acknowledgement is processed |
| `Bridge.Crosses` | docs/architecture.md:131-160 | from every reachable state, whoever has an amount of a native token or of a voucher can send it across and have it delivered |
| `Bridge.ThereAndBack` | docs/architecture.md:131-171 | and then its receiver can send it back, after which every balance and every escrow account of both chains is as it was |
| `Merkle.Merkleize` | devnet/light-client/pubkeys_hash.py:20-30 | the layer-by-layer loops compute the root of the recursive binary tree over the chunks padded to the least power of two |
| `Merkle.Collapse` | devnet/light-client/pubkeys_hash.py:28-30 | halving layers down to one chunk gives the recursive tree's root |
| `Merkle.LayerKeepsRoots` | devnet/light-client/pubkeys_hash.py:29-29 | hashing a layer in pairs turns each subtree one level deeper into the node above it |
| `Merkle.Depth` | devnet/light-client/pubkeys_hash.py:24-26 | the width loop's result: the least power of two that holds the chunks |
| `Merkle.PaddingInvisible` | devnet/light-client/pubkeys_hash.py:27-27 | explicit zero padding up to that width does not change the root |
| `Merkle.MerkleRootInjective` | devnet/light-client/pubkeys_hash.py:20-30 | without collisions, equal roots of chunk lists of equal length mean equal lists |
| `Merkle.BranchComplete` | devnet/light-client/verify_pubkeys_hash.py:36-48 | for every depth and position, the true siblings fold to the root at generalized index 2^depth + position |
| `Merkle.BranchSound` | devnet/light-client/verify_pubkeys_hash.py:36-48 | without collisions, a leaf and branch that fold to the root at an index are the tree's leaf and siblings there |
| `Merkle.FoldSound` | devnet/light-client/verify_pubkeys_hash.py:42-44 | the same for any perfect tree and any index, by following the index down |
| `SyncCommittee.ComputePubkeyRoot` | devnet/light-client/pubkeys_hash.py:33-37 | accepts exactly 48-byte keys and gives the hash of the key with sixteen zeros after it |
| `SyncCommittee.ComputeTreeRoot` | devnet/light-client/verify_pubkeys_hash.py:27-29 | the hash of the keys' tree root followed by the aggregate key's hash, unless some key has the wrong length |
| `SyncCommittee.TreeRootIs` | devnet/light-client/verify_pubkeys_hash.py:27-29 | for a committee of any size: first the root of the perfect tree whose leaf i is the hash of key i and sixteen zeros, with zero chunks after the keys, then the hash of the aggregate key |
| `SyncCommittee.RootOfTwo` | devnet/light-client/pubkeys_hash.py:28-30 | the root of two chunks is the hash of the first and then the second |
| `SyncCommittee.Verify` | devnet/light-client/verify_pubkeys_hash.py:36-51 | a match is the first index at this depth whose fold is the state root, and no match means there is none |
| `SyncCommittee.KeyDetermined` | devnet/light-client/pubkeys_hash.py:33-37 | without collisions the root determines all 48 bytes of a key |
| `SyncCommittee.CommitteeDetermined` | devnet/light-client/verify_pubkeys_hash.py:27-29 | without collisions the committee's root determines every key and the aggregate key |
| `SyncCommittee.MatchIdentifiesCommittee` | devnet/light-client/verify_pubkeys_hash.py:36-48 | a match at an index means that this committee is the one in the state tree there |
| `SyncCommittee.TrueBranchMatches` | devnet/light-client/verify_pubkeys_hash.py:36-48 | the committee that is in the tree, with its true branch, does match |
| `ConvertBits.Convert` | experiments/migration_cost/bech32.js:30-43 | the loop with its wrapping 32-bit accumulator regroups the number its digits spell, and rejects exactly bad digits and bad padding, for all widths whose pending bits fit |
| `ConvertBits.Drain` | experiments/migration_cost/bech32.js:38-38 | the inner loop emits whole digits and leaves the rest pending |
| `ConvertBits.ToInt32Mod` | experiments/migration_cost/bech32.js:36-36 | wrapping at 32 bits never reaches a bit that is still to be emitted |
| `ConvertBits.RegroupRoundTrip` | experiments/migration_cost/bech32.js:30-43 | widening with padding and narrowing without gives the data back, and the padding check never fires |
| `ConvertBits.NarrowingIsCanonical` | experiments/migration_cost/bech32.js:40-41 | what narrowing accepts widens back to itself |
| `Bech32Checksum.Generators` | experiments/migration_cost/bech32.js:14-14 | the grouped generator words are the five 30-bit constants |
| `Bech32Checksum.StepLinear` | experiments/migration_cost/bech32.js:16-20 | the step is linear over GF(2) in register and input together |
| `Bech32Checksum.FoldLinear` | experiments/migration_cost/bech32.js:13-22 | so is the whole register |
| `Bech32Checksum.StepInjective` | experiments/migration_cost/bech32.js:16-20 | different register states stay different after a step |
| `Bech32Checksum.StepOnto` | experiments/migration_cost/bech32.js:16-20 | and every state is reached, so the step is a bijection for each input |
| `Bech32Checksum.FoldInjective` | experiments/migration_cost/bech32.js:13-22 | and after any number of steps |
| `Bech32Checksum.SubstitutionShows` | experiments/migration_cost/bech32.js:13-22 | one changed value changes the final register, at any length |
| `Bech32Checksum.BurstShows` | experiments/migration_cost/bech32.js:13-22 | changes within six consecutive symbols change the final register, at any length |
| `Bech32Checksum.ChecksumIsTheOne` | experiments/migration_cost/bech32.js:45-51 | from every state the appended six symbols drive the register to 1, and no other six do |
| `Bech32Word.ComputePolymod` | experiments/migration_cost/bech32.js:13-22 | the loop over values and generator bits, with its shifts and masks on one number, computes the fold of the numeric step |
| `Bech32Word.StepIsNumber` | experiments/migration_cost/bech32.js:16-20 | the step in groups of five bits is that numeric step: shift by 25, mask, shift by 5, exclusive or, five taps |
| `Bech32Word.FoldIsNumber` | experiments/migration_cost/bech32.js:13-22 | and so is the whole register, on any values |
| `Bech32Word.NumberXor` | experiments/migration_cost/bech32.js:18-19 | exclusive or of registers is exclusive or of their numbers |
| `Bech32Word.RegisterOf` | experiments/migration_cost/bech32.js:13-22 | the loop on the values' numbers ends with the number of the grouped register |
| `Bech32Word.GroupOfNumber` | experiments/migration_cost/bech32.js:49-49 | shifting by 5 (5 - i) and masking with 31 gives group i |
| `Bech32Word.SixGroups` | experiments/migration_cost/bech32.js:48-49 | the loop takes the six groups out of the number, most significant first |
| `Bech32.ComputeEncode` | experiments/migration_cost/bech32.js:45-51 | computes the encoding: prefix, separator, data and the checksum of both |
| `Bech32.ComputeChecksum` | experiments/migration_cost/bech32.js:47-49 | the register after six zeros, exclusive or 1, taken apart, is the checksum that leads to 1 |
| `Bech32.ValuesFed` | experiments/migration_cost/bech32.js:24-28 | the register is fed upper bits and lower five bits of the prefix's character codes, and the symbols |
| `Bech32.CharCodeIs` | experiments/migration_cost/bech32.js:24-28 | a character's code is its UTF-16 code or its leading surrogate |
| `Bech32.ComputeDecode` | experiments/migration_cost/bech32.js:53-63 | computes the decoding, with its three errors in the order they are raised |
| `Bech32.LastIndexOf` | experiments/migration_cost/bech32.js:54-54 | the last separator: the character is there and not after |
| `Bech32.Parts` | experiments/migration_cost/bech32.js:54-60 | an address comes apart at the right separator, whatever the prefix contains |
| `Bech32.RoundTrip` | experiments/migration_cost/bech32.js:45-63 | decoding an encoding gives back prefix and bytes, for every input |
| `Bech32.AcceptedIsCanonical` | experiments/migration_cost/bech32.js:53-63 | what is accepted re-encodes to itself, exactly when it has a separator and six symbols after it |
| `Bech32.AcceptedWithoutSeparator` | experiments/migration_cost/bech32.js:54-62 | without a separator the prefix is all but the last character and the whole string is data |
| `Bech32.ShortData` | experiments/migration_cost/bech32.js:62-62 | data shorter than a checksum gives no bytes |
| `Bech32.SubstitutionAccepted` | experiments/migration_cost/bech32.js:53-63 | a valid address with one data character changed is accepted exactly when that is the separator, two registers coincide, and the rest narrows to whole bytes |
| `Bech32.SubstitutionDetected` | experiments/migration_cost/bech32.js:59-60 | its checksum holds exactly when the character is the separator and the two registers coincide |
| `Bech32.BurstRejected` | experiments/migration_cost/bech32.js:56-61 | the decoder rejects every change within six consecutive characters of the data part that brings in no separator, as a bad character or a bad checksum |
| `Bech32.SubstitutionRejected` | experiments/migration_cost/bech32.js:56-61 | in particular every single changed character but the separator |
| `Bech32Collision.SeparatorSlipsThrough` | experiments/migration_cost/bech32.js:53-63 | two strings that differ in one character of the data part, both accepted by the decoder |
| `Protobuf.Reader.Varint` | devnet/lib/packet.js:7-16 | reads a base-128 number and strictly advances, also past the end |
| `Protobuf.Reader.Key` | devnet/lib/packet.js:20-23 | splits a tag into field number and wire type |
| `Protobuf.Reader.Bytes` | devnet/lib/packet.js:24-29 | a length-delimited slice, short at the end of the buffer, with the cursor past the stated length |
| `Protobuf.Reader.Skip` | devnet/lib/packet.js:30-36 | advances over a field of any of the four wire types and fails on any other |
| `Protobuf.VarintRead` | devnet/lib/packet.js:7-16 | reading inverts the varint encoding of every number, wherever it stands |
| `Protobuf.VarintBytes` | devnet/lib/packet.js:7-16 | seven bits a byte, the lowest first |
| `Protobuf.VarintPastEnd` | devnet/lib/packet.js:7-16 | past the end of the buffer there are zeros |
| `Protobuf.SliceIs` | devnet/lib/packet.js:24-29 | a slice is what there is of the buffer between its ends |
| `Protobuf.TokenOfEncoding` | devnet/lib/packet.js:17-37 | one encoded field reads back as itself |
| `Protobuf.TokensOfEncoding` | devnet/lib/packet.js:17-37 | a list of well-formed fields reads back as itself |
| `Packet.DecodePayload` | devnet/lib/packet.js:40-54 | ends on every byte string, with what the fields in it mean, or fails on an unsupported wire type |
| `Packet.DecodePayloadField` | devnet/lib/packet.js:44-51 | one turn of that loop reads one field |
| `Packet.DecodePacket` | devnet/lib/packet.js:57-71 | the same for a packet with its payloads |
| `Packet.DecodeField` | devnet/lib/packet.js:62-68 | one turn of that loop reads one field |
| `Packet.UnknownIgnoredInPayload` | devnet/lib/packet.js:43-52 | fields a payload does not know have no effect, wherever they stand |
| `Packet.UnknownIgnoredInPacket` | devnet/lib/packet.js:61-69 | fields a packet does not know have no effect, wherever they stand |
| `Packet.DecodesEncoding` | devnet/lib/packet.js:57-71 | decoding inverts the canonical encoding of every packet, with unknown fields interleaved in it and in its payloads |
| `Packet.PacketTags` | devnet/lib/packet.js:62-68 | which tag byte introduces which field of a packet |
| `Packet.PayloadTags` | devnet/lib/packet.js:44-51 | and of a payload |
| `Ics24.ComputePacketCommitment` | devnet/lib/packet.js:76-98 | computes the nested-hash commitment, failing on a timeout of 64 bits or more |
| `Ics24.ComputeAckCommitment` | devnet/lib/packet.js:103-107 | computes the commitment to a list of acknowledgements |
| `Ics24.PacketCommitmentIs` | devnet/lib/packet.js:76-98 | a packet's commitment in bytes, with the order of its parts and of each payload's |
| `Ics24.AckCommitmentIs` | devnet/lib/packet.js:103-107 | an acknowledgement commitment in bytes |
| `Ics24.StoreKeyIs` | devnet/lib/packet.js:110-113 | a store key in bytes: client id, 1 or 3, and the sequence number in eight bytes |
| `Ics24.BigEndian` | devnet/lib/packet.js:91-91 | eight bytes that spell the number, most significant first, exactly for numbers below 2^64 |
| `Ics24.BigEndianInjective` | devnet/lib/packet.js:91-91 | different numbers have different bytes |
| `Ics24.DigestsInjective` | devnet/lib/packet.js:103-107 | without collisions a concatenation of digests can be read one way only |
| `Ics24.PacketCommitmentBinds` | devnet/lib/packet.js:76-98 | without collisions equal commitments mean equal destination client, timeout and payload list |
| `Ics24.AckCommitmentBinds` | devnet/lib/packet.js:103-107 | without collisions equal commitments mean equal acknowledgement lists |
| `Ics24.StoreKeyInjective` | devnet/lib/packet.js:110-113 | equal store keys mean equal client, kind and sequence number, whatever the client id's length |
| `Ics24.KeysApart` | devnet/lib/packet.js:110-113 | a packet key is never an acknowledgement key |
| `Chunking.ChunksPartition` | experiments/batch_scaling/relay_pool.py:154-155 | the chunks concatenate back to the list, none empty or longer than the chunk size |
| `Chunking.ChunkOf` | experiments/batch_scaling/relay_pool.py:154-155 | element j is in chunk j / k |
| `RelayPool.ChunkHashes` | experiments/batch_scaling/relay_pool.py:154-155 | fails exactly on size zero, gives no chunk for a negative one, and otherwise chunks that concatenate back to the hashes |
| `RelayPool.Workers` | experiments/batch_scaling/relay_pool.py:205-208 | the least of the request, the accounts and the chunks when all are positive, and one otherwise |
| `RelayPool.RunKeepsInv` | experiments/batch_scaling/relay_pool.py:264-299 | over every interleaving a chunk taken is held by exactly one worker or has ended, never both |
| `RelayPool.StepKeepsInv` | experiments/batch_scaling/relay_pool.py:267-284 | each step keeps that, and no chunk ends twice |
| `RelayPool.Terminates` | experiments/batch_scaling/relay_pool.py:264-306 | every interleaving is done after exactly 2n + w steps and can go on before that; then every chunk was taken once, in order, and ended |
| `RelayPool.InFlight` | experiments/batch_scaling/relay_pool.py:259-263 | the chunks taken and not ended are those being run, at most one per worker |
| `RelayPool.InFlightApart` | experiments/batch_scaling/relay_pool.py:201-208 | two chunks in flight are different and on different accounts |
| `RelayPool.PoolStaysFull` | experiments/batch_scaling/relay_pool.py:259-263 | while chunks are left no worker has stopped, and as many chunks are in flight as there are workers exactly when no worker is about to take one |
| `RelayPool.NobodyWaits` | experiments/batch_scaling/relay_pool.py:267-284 | whatever the others do, a ready worker can take the next chunk and a running one can end its own |
| `RelayPool.Attribute` | experiments/batch_scaling/relay_pool.py:308-335 | the two loops give each packet its status and report total gas, updates, receives and failed chunks |
| `RelayPool.CreditedIffNamed` | experiments/batch_scaling/relay_pool.py:317-335 | for any results, a packet is credited exactly when the last result naming its hash gives a sequence number |
| `RelayPool.RelayGroup` | experiments/batch_scaling/relay_pool.py:177-335 | from committed packets to packets returned, for every chunk size but the zero that fails, number of workers and complete interleaving: a packet is credited exactly when some relayed chunk has its hash, and has failed otherwise; with distinct hashes exactly when chunk j / k was relayed, with its sequence number and that chunk's finishing time; gas, updates and receives reported are those of the relayed chunks |
| `RelayPool.CreditedIffSomeRelayed` | experiments/batch_scaling/relay_pool.py:317-335 | whatever hashes agree, credited exactly when some relayed chunk has the hash |
| `RelayPool.GasIsSum` | experiments/batch_scaling/relay_pool.py:309-318 | the gas added up in chunk order is the sum over the set of relayed chunks |
| `RelayPool.ReceivesIsSum` | experiments/batch_scaling/relay_pool.py:313-320 | the same for the packets received |
| `RelayPool.UpdatesIsCount` | experiments/batch_scaling/relay_pool.py:313-320 | the updates reported count the relayed chunks that had one |
| `RelayPool.ChunkIndexIs` | experiments/batch_scaling/relay_pool.py:190-190 | the chunk whose finishing time a packet gets is the last that has its hash |
| `RelayPool.UpperIs` | experiments/batch_scaling/relay_pool.py:322-323 | hashes are looked up in upper case |
| `RelayPool.HashInChunk` | experiments/batch_scaling/relay_pool.py:190-190 | chunk q has a hash exactly when some packet at a position l with l / k = q has it, up to letter case |
| `RelayPool.FailedChunksExact` | experiments/batch_scaling/relay_pool.py:313-316 | the report names exactly the chunks that were not relayed |
| `Shares.OneOwner` | experiments/batch_scaling/ack_pool.py:99-101 | the shares cover the list, each position in exactly one worker's share |
| `Shares.StartEnd` | experiments/batch_scaling/loadgen.py:291-293 | the shares add up to the whole |
| `Shares.Even` | experiments/batch_scaling/ack_pool.py:99-101 | the shares differ by one at most, the longer ones first |
| `Resume.RunKeepsInv` | experiments/batch_scaling/loadgen.py:395-534 | over every run with crashes and resumes: checkpoints are behind their run and of its configuration, none before the relay holds an acknowledgement, results are right |
| `Resume.ForwardOnly` | experiments/batch_scaling/loadgen.py:465-502 | packet statuses only move forward |
| `Resume.ResumesOnlyItsOwn` | experiments/batch_scaling/loadgen.py:434-453 | a new run starts from a checkpoint exactly when that has its own configuration, in the phase it had reached, and from nothing otherwise |
| `Resume.CheckpointBehind` | experiments/batch_scaling/loadgen.py:455-463 | at every moment the checkpoint is of this configuration and behind the run |
| `Resume.LoadedAckSurvives` | experiments/batch_scaling/loadgen.py:434-446 | an acknowledgement in a loaded checkpoint survives every later crash, resume and checkpoint, and is in the final result |
| `Resume.OkIffAllAcked` | experiments/batch_scaling/loadgen.py:491-512 | a result is "ok" exactly when there are packets and all are acknowledged |
| `Resume.AckedByTryOnly` | experiments/batch_scaling/ack_pool.py:109-131 | at every step of every run a packet becomes acknowledged exactly when the step is a successful try of it |
| `Resume.ResultEarned` | experiments/batch_scaling/loadgen.py:491-512 | every packet a result has as acknowledged was acknowledged by a successful try, in that process or in one whose checkpoint it goes back to |
| `Resume.OkMeansTried` | experiments/batch_scaling/loadgen.py:504-512 | so "ok" means a successful try of every packet |
| `Resume.SubmitGives` | experiments/batch_scaling/loadgen.py:275-320 | a submission is one packet for each of the group, submitted or failed |
| `Resume.CommitKeeps` | experiments/batch_scaling/loadgen.py:337-353 | exactly the packets committed in time are kept, the other submitted ones have failed |
| `Resume.RelayGives` | experiments/batch_scaling/loadgen.py:476-489 | a relay changes committed packets only, and one without failure leaves none as it was |
| `Resume.SavedAtPhaseEnds` | experiments/batch_scaling/loadgen.py:465-489 | submission, relay and every window end with a checkpoint of what there is then |
| `Resume.OpensIff` | experiments/batch_scaling/ack_pool.py:90-101 | a window opens exactly when packets are still credited and fewer than six were opened, for exactly those packets; otherwise whatever is not acknowledged has failed |
| `Resume.AtMostSixWindows` | experiments/batch_scaling/ack_pool.py:90-95 | never more than six windows in a run |
| `Resume.NoAckCloses` | experiments/batch_scaling/ack_pool.py:81-84 | without an acknowledgement command every packet not acknowledged has failed |
| `Resume.WindowChangesOnly` | experiments/batch_scaling/ack_pool.py:109-131 | in a window nothing changes but the packet a successful try acknowledges; a failed try leaves it for the next window |
| `Resume.CountedStep` | experiments/batch_scaling/ack_pool.py:139-150 | a checkpoint is due at every twentieth of the window's packets |
| `Resume.CheckpointsPerWindow` | experiments/batch_scaling/ack_pool.py:102-102 | which makes between 20 and 39 checkpoints, or one a packet in a window of fewer than twenty |
| `Resume.ReadAndSave` | experiments/batch_scaling/loadgen.py:455-463 | a checkpoint takes the packets one by one as they are at that moment, and saves that |
| `Resume.ClosesIff` | experiments/batch_scaling/ack_pool.py:153-163 | a window closes exactly when every worker is at the end of its share |
| `Resume.FinishGives` | experiments/batch_scaling/loadgen.py:504-535 | a run ends with its packets as the result and removes its checkpoint |
| `Resume.TryKeepsWindow` | experiments/batch_scaling/ack_pool.py:109-153 | a worker's try is of a packet not tried in this window and still credited |
| `Resume.WindowTriesEachOnce` | experiments/batch_scaling/ack_pool.py:89-163 | a window tries each outstanding packet exactly once, and its last checkpoint has everything |
| `Resume.UnloadedAckCanBeLost` | experiments/batch_scaling/ack_pool.py:142-152 | a reachable state where an older snapshot overwrites an acknowledgement on disk |
| `Resume.SavedAckSurvivesIff` | experiments/batch_scaling/ack_pool.py:142-152 | in every reachable state an acknowledgement on disk survives every continuation exactly when the process is past its submission and no worker has an older reading of that packet |
| `Resume.StaleLoses` | experiments/batch_scaling/ack_pool.py:142-152 | a worker with an older reading reads on, saves, and the acknowledgement is gone |
| `Resume.OneKeyLosesNothing` | experiments/batch_scaling/ack_pool.py:99-152 | with one acknowledgement key nothing saved is ever lost |
| `Resume.Outstanding` | experiments/batch_scaling/ack_pool.py:91-91 | the credited packets, each once and in order |
| `RoundRobin.LoadPool` | tools/loadgen/main.go:369-399 | loads exactly when every line decodes and is in range; each queue is the sender's transactions sorted by sequence; the first bad line decides the error |
| `RoundRobin.SortSorts` | tools/loadgen/main.go:395-397 | the sort gives a sorted permutation |
| `RoundRobin.Pump.Scan` | tools/loadgen/main.go:252-260 | finds the first sender in turn with something left, and none only when all are drained |
| `RoundRobin.Pump.Tick` | tools/loadgen/main.go:244-273 | hands on that sender's next transaction, keeps the closed form, and reports exhaustion only when every queue is drained |
| `RoundRobin.TickKeepsRounds` | tools/loadgen/main.go:252-269 | after every tick there is a round r with each cursor at min(length, r + 1) before the next sender and min(length, r) from it on |
| `RoundRobin.Fair` | tools/loadgen/main.go:252-269 | two senders with something left differ by at most one |
| `RoundRobin.JobsExtended` | tools/loadgen/main.go:267-270 | each sender's jobs are a prefix of its queue |
| `RoundRobin.ExhaustedMeansAll` | tools/loadgen/main.go:261-266 | with every queue drained, every transaction was handed on, each sender's in order |
| `RoundRobin.Pump.Drive` | tools/loadgen/main.go:242-273 | a whole run of the pacing loop: exhaustion is reported exactly when there are more ticks than transactions left, and until then each tick hands one on |
| `RoundRobin.Broadcast` | tools/loadgen/main.go:242-399 | loading and pumping together: with t ticks and a pool of n, min(t, n) transactions go out, each sender's in sequence order; exhausted exactly when t > n; from t = n on exactly the transactions loaded, each once |
| `Pairing.SetOnce` | devnet/create-eth-client.js:98-236 | over every history a Cosmos counterparty is set at most once, and clients keep contract, counterparty and verifier |
| `Pairing.RunKeeps` | devnet/create-eth-client.js:98-236 | over runs stopped anywhere and others adding clients, the client at hand is live, paired and bound as requested |
| `Pairing.SuccessPairs` | devnet/create-eth-client.js:98-236 | after every history that ends in success, and ever after: the router has the client, which names the job's Cosmos client and has live code with the requested verifier, and Cosmos names the client |
| `Pairing.RerunAfterSuccess` | devnet/create-eth-client.js:98-236 | running again at once, with reads that may fail: exactly when it changes nothing, and exactly when it succeeds with the same client |
| `Pairing.RerunChangesNothing` | devnet/create-eth-client.js:98-141 | the same from any state with the pair in place, which stays in any case |
| `Pairing.UnreadRerunSpoils` | devnet/create-eth-client.js:86-141 | a rerun that sees neither the client nor the counterparty, and whose deployment goes through, records another client; every later run of that job throws, whatever it reads |
| `Pairing.SpoiltForGood` | devnet/create-eth-client.js:98-236 | once deploy.env names a client that is not the paired one, no number of runs without a pin succeeds |
| `Pairing.FirstRun` | devnet/create-eth-client.js:98-236 | on fresh chains every job succeeds |
| `Pairing.PinnedRerunThrows` | devnet/create-eth-client.js:98-141 | a history that ends in success for a job pinned to a client that is not there, whose rerun throws |
| `Pairing.StopRecovers` | devnet/create-eth-client.js:98-236 | a run stopped after any number of its steps: running again succeeds exactly when there was no client yet, or the configuration names it, or Cosmos names nobody |
| `Pairing.StopRecoversUnpinned` | devnet/create-eth-client.js:98-236 | without a pin the one exception is between adding the client and recording it, when Cosmos names it already |
| `Pairing.UnrecoverableStop` | devnet/create-eth-client.js:126-200 | that exception does occur |
| `Pairing.AloneHappens` | devnet/create-eth-client.js:98-236 | an undisturbed run is one of the histories |
| `Pairing.SucceedsIff` | devnet/create-eth-client.js:98-236 | exactly when an undisturbed run succeeds |
| `Pairing.ReusesIff` | devnet/create-eth-client.js:98-200 | an undisturbed run that succeeds reuses the configured client exactly when the router has it, its address has code and it names the job's Cosmos client, and otherwise adds and records the router's next one |
| `Pairing.RegisterAlone` | devnet/create-eth-client.js:203-236 | registering sets the counterparty if unset, accepts it if equal, and throws otherwise |
| `Pairing.CreateAlone` | devnet/create-eth-client.js:126-200 | creating succeeds exactly when the predicted id can be paired and the deployment is as ordered |
| `Pairing.UpsertDeployEnv` | devnet/create-eth-client.js:58-66 | updated keys have their new values and every other key its old one |
| `EmptyValueDb.OnlyKeyInRange` | app/emptyvaluedb.go:59-63 | between a key and the key with a zero byte after it lies the key alone |
| `EmptyValueDb.Wrapper.Get` | app/emptyvaluedb.go:53-72 | nil exactly for a missing key, the stored value otherwise, errors passed on |
| `EmptyValueDb.Wrapper.Has` | app/emptyvaluedb.go:74-81 | true exactly for a key that is there |
| `EmptyValueDb.ReadBack` | app/emptyvaluedb.go:53-81 | after any history of writes and deletes reads are a plain map's; the bare store differs exactly on empty values |
| `RecvBatch.ComputeChunkSize` | experiments/migration_cost/relay-recv-batch.js:123-152 | computes the choice, and measures exactly the batches listed by Measured |
| `RecvBatch.ShrunkSmaller` | experiments/migration_cost/relay-recv-batch.js:149-149 | a failed probe takes away two messages at least, down to one |
| `RecvBatch.AllWhenTheyFit` | experiments/migration_cost/relay-recv-batch.js:124-139 | more than one message all go in one transaction exactly when they fit or the JSON and room for a signature do, and then unmeasured |
| `RecvBatch.OneWhenOne` | experiments/migration_cost/relay-recv-batch.js:123-152 | one message or none is never split |
| `RecvBatch.NearLargest` | experiments/migration_cost/relay-recv-batch.js:140-151 | with sizes a + b k the result is at most one message short of the most that fit |
| `RecvBatch.Measured` | experiments/migration_cost/relay-recv-batch.js:140-151 | all the messages once and then the candidates, seven measurements at most |
| `RecvBatch.Shrink` | experiments/migration_cost/relay-recv-batch.js:142-151 | the loop's result and the candidates it measures |
| `RecvBatch.FitsUpToFourteen` | experiments/migration_cost/relay-recv-batch.js:123-152 | for n messages the result fits or is one message, for all strictly increasing sizes and all targets, exactly when n is at most 14 |
| `RecvBatch.FewFit` | experiments/migration_cost/relay-recv-batch.js:123-152 | up to fourteen messages, for any sizes |
| `RecvBatch.FlatUnfit` | experiments/migration_cost/relay-recv-batch.js:142-151 | for every n from 15 on, increasing sizes and a target for which the result is n - 13 messages and does not fit |
| `RecvBatch.OneIsNotMeasured` | experiments/migration_cost/relay-recv-batch.js:142-151 | a batch of one message is never measured, unless it is all there is |
| `RecvBatch.TwoProbes` | experiments/migration_cost/relay-recv-batch.js:140-151 | with size a + b k and a² at most b times the target, the result fits or is one message, and at most two candidates were measured |
| `RecvBatch.Split` | experiments/migration_cost/relay-recv-batch.js:408-409 | the chunks concatenate back to the messages, all but the last of the chosen size |
| `ProofSlot.AwaitFinality` | experiments/migration_cost/relay-recv-batch.js:212-225 | the first header seen that covers the block, or none seen does |
| `ProofSlot.ChooseSlot` | experiments/migration_cost/relay-recv-batch.js:278-304 | the newest usable state held, by phase, or an error exactly when there is none |
| `ProofSlot.ChooseNearest` | devnet/step-native-recv.js:67-73 | the least state held at or after the header's slot, or an error exactly when there is none |
| `ProofSlot.BatchCovered` | experiments/migration_cost/relay-recv-batch.js:200-304 | given blocks that grow with slots, the slot chosen covers every packet of its batch |
| `ProofSlot.CommittedAt` | experiments/migration_cost/relay-recv-batch.js:182-184 | the packets to choose from are those that committed, in the order sent |
| `ProofSlot.OnlyCommitted` | experiments/migration_cost/relay-recv-batch.js:182-184 | and no others |
| `ProofSlot.Lead` | experiments/migration_cost/measure_data.py:407-412 | a flow with the highest newest send block, or an error exactly when some flow has no committed packet |
| `ProofSlot.PrepareWave` | experiments/migration_cost/measure_data.py:407-431 | the lead flow, its batch, the wait and the choice together: a slot whenever nothing is missing, and with n records in every send file it covers every committed packet of every flow |
| `ProofSlot.WaveCoveredIff` | experiments/migration_cost/measure_data.py:407-431 | for any count, whatever is finalized and held, the slot prepared covers every flow exactly when the lead batch has the lead flow's newest packet |
| `ProofSlot.WaveCovered` | experiments/migration_cost/measure_data.py:407-431 | a slot selected for the lead flow's newest block covers every committed packet of every flow |
| `Bisection.Base64Fits` | experiments/migration_cost/find_recv_ceiling.py:60-72 | three quarters of the body is exactly what fits it in base64 |
| `Bisection.Base64Is` | experiments/migration_cost/find_recv_ceiling.py:70-72 | four characters for each three bytes, padded at the end |
| `Bisection.Probes.SizeAt` | experiments/migration_cost/find_recv_ceiling.py:170-178 | the measured size, with no batch measured twice |
| `Bisection.BisectCeiling` | experiments/migration_cost/find_recv_ceiling.py:165-191 | for any sizes the result fits and the next one up does not, both measured; with sizes that do not shrink it is the largest that fits |
| `Bisection.LargestFitting` | experiments/migration_cost/find_recv_ceiling.py:165-191 | with sizes that do not shrink, exactly the sizes up to a fitting one whose successor does not fit are the ones that fit |
| `Bisection.StepDown` | experiments/migration_cost/find_recv_ceiling.py:260-261 | the loop passes over exactly the measured sizes that are too long in base64 |
| `Bisection.BroadcastCeiling` | experiments/migration_cost/find_recv_ceiling.py:255-263 | the loop leaves the ceiling as it is, so it reads no unmeasured size; with sizes that do not shrink it is the largest whose base64 form fits |
| `Bisection.RelayCeiling` | experiments/batch_scaling/find_relay_ceiling.py:110-124 | for any sizes the best and the first over are next to each other when both exist; with sizes that do not shrink the best is the largest that fits |
| `StorageSim.Simulator.Step` | tools/storage_sim/main.go:265-291 | one step of each counter |
| `StorageSim.StateBytes` | tools/storage_sim/main.go:265-291 | after any messages the state is the accounts' overhead plus a key for each user account and the relayer |
| `StorageSim.EveryAccountSigned` | tools/storage_sim/main.go:293-295 | had every account signed, it would be a key for each account |
| `StorageSim.SchemesDiffer` | tools/storage_sim/main.go:265-291 | two schemes on the same messages differ by the key difference per account that holds one; just one for migrations alone |
| `StorageSim.PostQuantumCost` | tools/storage_sim/main.go:265-291 | the post-quantum keys cost 1919 bytes of state for each account that holds one |
| `StorageSim.TransactionBytes` | tools/storage_sim/main.go:265-270 | the transaction bytes in closed form: envelope, key and signature for each message, and its body |
| `StorageSim.UserAccounts` | tools/storage_sim/main.go:281-290 | the user accounts are the growth curve's highest value so far |
| `StorageSim.SampleIs` | tools/storage_sim/main.go:297-306 | every field of a sample in closed form |
| `StorageSim.LogSamplePoints` | tools/storage_sim/main.go:166-199 | the checkpoints are increasing, between 1 and the maximum, and end with it |
| `StorageSim.Simulator.Run` | tools/storage_sim/main.go:307-320 | one sample at the origin and one at each checkpoint in order, of the state after that many messages |

## Left out

- Subprocesses, HTTP, RPC, JSON files, keyrings and clocks: their results are inputs, or steps that may go either way. In the pairing a read whose failure the script passes on is a stop.
- Cryptography: hashes are any table, signatures and proofs are what a held consensus state shows.
- The chains' own handlers (ibc-go, the light clients, ICS26Router, ICS20Transfer) are not part of this model beyond the guards in docs/architecture.md and the step scripts.
- Timeouts, failed acknowledgements, client freezing and misbehaviour: the step scripts do not have them.
- Packet.DecodePacket: takes bytes and keeps strings as UTF-8 bytes; the hex parsing, the lossy decoding of invalid UTF-8, and the rounding of numbers above 2^53 by Number are not modelled.
- Bech32.ComputeDecode: strings are sequences of Unicode scalar values, so a lone surrogate cannot occur.
- RelayPool.RelayGroup: a summary that cannot be parsed, which would raise out of the worker and abort the call, is not an ending; the other endings are all there. The premise on summaries is what relay-chunk.js writes.
- Resume.RunKeepsInv: saving is atomic, one process runs at a time, and what a submission or a forward relay gives back is any outcome its code allows.
- RecvBatch.ComputeChunkSize: divisions are exact, where the source's are floating point.
- RoundRobin.LoadPool: the library sort is an insertion sort; the order of equal sequence numbers is not specified by the source's.
- ProofSlot.PrepareWave: the beacon chain's blocks grow with their slots, and headers are of blocks it has.
- ConvertBits.Convert: widths are 31 bits at most and together 33, since up to `to - 1` bits are pending when `from` more come in and 32 are kept; the callers use 8 and 5.
- StorageSim.Simulator.Run: the message of each step and the account growth curve are inputs, and so are the rounded powers that space the checkpoints.
- Latency statistics, plots, confidence intervals and fits: floating-point summaries.
- Application wiring, command lines, configuration tables, the block packing tool and the set-up scripts: straight-line code with nothing hard to prove.
- Slot coverage in measure_delivery.py and measure_throughput.py: they pin a slot after waiting for the packet listed last, and the list's order is not tied to the blocks.
