# NRXP transport core: a verified model

NRXP carries multiplexed frames between a client and a node over two legs: a TCP leg that looks like a
TLS 1.3 connection, and a UDP leg with its own ratcheting keys. This project models both legs, the
handshake that gives them their keys, and every byte-level codec in between, and proves what the
protocol promises over whole runs.

How the parts fit together:

- `Bytes`, `Bits`, `Wrappers`: bytes, big-endian fields, the growable buffer, bit operations on numbers.
- `Crypto`: idealised cryptography (below).
- UDP leg: `Counter` (truncated counters), `ReplayWindow` (circular bitmap), `KeyRatchet` (the key chain),
  `Datagram` (seal and open), `DatagramRuns` (a sender, a receiver and a network that may lose, duplicate,
  reorder, replay and forge), `Schedule` (when it rekeys), `Refusal` (what it answers), `KeySeparation` (which
  secrets lead to which).
- TCP leg: `Frame`, `TlsRecord`, `ChaChaStream`, `PadShaper`, `Codec` (greedy packing, incremental
  decoding), `CodecRuns` (any byte stream against an honest sender), `Forgery` (what is answered to other bytes),
  `Packing` (optimality, encode then decode).
- Handshake: `Extension`, `Shuffle`, `HelloBuilder`, `HelloSize`, `HelloContents`, `Hello`,
  `HelloGrammar`, `Session`, `Authentication`, `Handshake`.
- `MlKem`: the 12-bit packing and the sampled key share.
- `Traffic`: what the handshake hands over to the two legs.

State that the original updates in place is kept in classes (`ReplayWindow` over an array of words,
`DatagramTx`, `DatagramRx`, `TxCodec`, `RxCodec`, `ChaChaStream`, `SessionKeys`, `ExtensionBuilder`,
`BytesMut`). Each of their methods is proved equal to a function on values, and the theorems about runs
are proved about these functions.

## Idealisation

- AEAD: a log of sealed tuples (key, nonce, associated data, plaintext, ciphertext). Opening succeeds
  exactly on tuples in the log. Others may add tuples of their own under other keys.
- HKDF: free terms. Two derivations agree exactly when salt, input and labels agree.
- Diffie-Hellman: two functions of which only commutativity is used. HMAC: any function of key and message.
- Time, salts, ephemeral keys and the twelve bytes of a derived nonce salt are parameters.
- Randomness (padding, gaps between boundaries, GREASE, shuffle, ballast): callers of the drawing methods
  know the range or length of what is drawn and nothing else.
- `REPLAY_WINDOW_SIZE` (a positive multiple of 64) and `REKEY_AFTER_DATAGRAMS` are parameters.

## Where code and comments disagree

- `expand_counter` centres its window on `highest`, while its comment and Appendix A.3 of RFC 9000 use
  `highest + 1`. `Counter.ExpandVersusRfc9000` says exactly for which single residue the results differ.
- `expand_counter` does not go below zero, so it also inverts truncation for counters below one full
  window that lie further ahead than half of it: the second alternative of `Counter.ExpandInvertsTruncate`.
- The comment in `make_client_hello` promises a record payload of at least the padding target. The strict
  comparison in `padding` leaves the last four bytes short: `Handshakes.TargetIsReachedIff` gives the exact
  condition and `Handshakes.PaddingCanMissTarget` a profile and host that miss it.
- A payload longer than 65535 bytes is cut by `as u16` in the frame header, and one longer than 65494 bytes
  by `as u16` in the record header: `Frames.FrameRoundTrip`, `TlsRecords.RecordRoundTrip`,
  `CodecRuns.StreamRoundTrip` and `Packing.EncodeDecodeRoundTrip` are if-and-only-if.
- `ClientHello::can_parse` does not look at the parity of the cipher list's length, and the loop after it asks
  for a byte that is not there: `Hellos.AbortsIff` says exactly when, `Hellos.OddListAborts` gives an input.

## Model

| member | source | states |
|---|---|---|
| Counter.ExpandIsNearest | engine/src/nrxp/datagram.rs:70-90 | the expanded counter is the non-negative number congruent to the wire bits that is nearest to the highest one seen; every other candidate is farther away, or as far and below |
| Counter.ExpandInvertsTruncate | engine/src/nrxp/datagram.rs:70-98 | expanding a truncated counter gives the counter back if and only if it lies within half a window around the highest one, or near the start of the range |
| Counter.ExpandFitsU64 | engine/src/nrxp/datagram.rs:70-90 | no step of the computation leaves 64 bits while two windows of room are left above the highest counter |
| Counter.ExpandVersusRfc9000 | engine/src/nrxp/datagram.rs:60-90 | agrees with the packet number decoding of RFC 9000 except exactly for one residue |
| Counter.TruncateIsMod | engine/src/nrxp/datagram.rs:92-98 | the bit mask keeps the counter modulo the power of two |
| Crypto.NonceInjective | engine/src/nrxp/datagram.rs:194-206 | for one salt, nonces of two counters are equal if and only if the counters are |
| Crypto.NonceBit | engine/src/nrxp/datagram.rs:194-206 | bit by bit: four bytes of the salt unchanged, then each bit flipped exactly where the counter, most significant byte first, has a one |
| Crypto.BuildNonce | engine/src/nrxp/datagram.rs:194-206 | the loop XORs the big-endian counter into the last eight bytes of the salt |
| ReplayWindows.AcceptRefines | engine/src/nrxp/datagram.rs:106-192 | the bitmap refines the plain set of accepted counters: a counter is accepted if and only if it is new and not a whole window old, a refusal changes nothing |
| ReplayWindows.ClearsExactlyWhatEnters | engine/src/nrxp/datagram.rs:152-167 | advancing clears the slots of the counters that enter the window and no other |
| ReplayWindows.EmptyRefines | engine/src/nrxp/datagram.rs:113-124 | the fresh bitmap stands for the empty set |
| ReplayWindows.ReplayWindow.SetBit | engine/src/nrxp/datagram.rs:135-139 | sets the bit of one slot in the word array and leaves the rest |
| ReplayWindows.ReplayWindow.TestAndSetBit | engine/src/nrxp/datagram.rs:141-147 | reports the old bit of the slot and sets it |
| ReplayWindows.ReplayWindow.Advance | engine/src/nrxp/datagram.rs:152-167 | the word-wise loop equals the clearing of slots on the bitmap |
| ReplayWindows.ReplayWindow.Accept | engine/src/nrxp/datagram.rs:169-191 | the in-place window moves as the specification that refines the set |
| KeyRatchets.AdvanceIsNextStep | engine/src/crypto/datagram_keys.rs:64-112 | advancing from step n is step n + 1, and what `peek_next` shows at step n are the keys of step n + 1 |
| KeyRatchets.EpochKeysNeverRepeat | engine/src/crypto/datagram_keys.rs:76-112 | two steps of a chain share a key only if they are the same step, while their ids repeat modulo 256 |
| KeyRatchets.NeighbouringIdsDiffer | engine/src/nrxp/datagram.rs:411-448 | previous, current and next epoch ids are pairwise distinct for every step |
| KeyRatchets.RolesMirror | engine/src/crypto/datagram_keys.rs:131-181 | two sides with one root and opposite roles hold mirror-image ratchets and header keys and one token, and the directions never share a key at any two steps |
| KeyRatchets.DifferentChainsNeverMeet | engine/src/crypto/datagram_keys.rs:102-112 | chains that start apart stay apart at all pairs of steps |
| KeyRatchets.KeyRatchet.PeekNext | engine/src/crypto/datagram_keys.rs:76-82 | the keys of the next step, the ratchet unchanged; which secrets they are is what `KeySeparations` is about |
| KeyRatchets.KeyRatchet.Advance | engine/src/crypto/datagram_keys.rs:84-89 | the ratchet moves one step and its keys are those that were to be seen before |
| KeyRatchets.DatagramKeyMaterial.DeriveFromRoot | engine/src/crypto/datagram_keys.rs:147-181 | all derived material for one role, two separate ratchets |
| KeySeparations.EpochSecretsAreLeaves | engine/src/crypto/datagram_keys.rs:91-112 | key and salt of a step neither are nor lead to any chain value of either direction, nor to any other key or salt |
| KeySeparations.RatchetIsOneWay | engine/src/crypto/datagram_keys.rs:76-112 | a chain value leads to the keys and chain values of its own direction from its own step on, and to no earlier ones and none of the other direction |
| KeySeparations.HandshakeSecretsApart | engine/src/crypto/session.rs:446-524 | the ten secrets a side expands from its root are pairwise different, none leads to another or back to the root, and only the chain values lead to datagram keys |
| Datagrams.RefusalChangesNothing | engine/src/nrxp/datagram.rs:341-361 | an `open` refused for authentication, replay or an unknown epoch leaves the receiver exactly as it was |
| Datagrams.RejectionKeepsSlot | engine/src/nrxp/datagram.rs:341-361 | the same for one epoch slot |
| Datagrams.DatagramTx.PeekNextEpochAndCounter | engine/src/nrxp/datagram.rs:270-281 | shows the very epoch id and counter the next seal uses |
| Datagrams.DatagramTx.Seal | engine/src/nrxp/datagram.rs:283-319 | seals under the counter shown before, ratcheting first when the threshold is reached, and adds one entry that binds the caller's associated data; what becomes of that binding over runs is `DatagramRuns.HonestDatagramOpens` and `DatagramRuns.OtherAadIsRefused` |
| Datagrams.EpochSlot.TryOpen | engine/src/nrxp/datagram.rs:341-361 | authenticates first and only then marks the counter |
| Datagrams.DatagramRx.Open | engine/src/nrxp/datagram.rs:411-456 | routes to current, previous or candidate epoch and commits the ratchet only after authentication |
| DatagramRuns.RunInv | engine/src/nrxp/datagram.rs:226-456 | every reachable state of sender, receiver and network keeps the protocol invariant, and no counter gets near 2^64 |
| DatagramRuns.OnlyHonestOpens | engine/src/nrxp/datagram.rs:341-361 | what opens at a step under a counter was sealed by the peer at that step with that counter |
| DatagramRuns.ExactlyOnce | engine/src/nrxp/datagram.rs:283-456 | over all runs with loss, duplication, reordering, replay and forgery, a delivered frame is the frame of a sealed datagram and none is delivered twice, across any number of wraps of the epoch id |
| DatagramRuns.DeliveredItemIntact | engine/src/nrxp/frame.rs:116-128 | the delivered frame carries the sealed payload if and only if its length fits 16 bits |
| DatagramRuns.NoncesNeverRepeat | engine/src/nrxp/datagram.rs:194-319 | over all runs the pair of step and counter strictly grows, the counter stays below the threshold, and no pair of key and nonce is used twice |
| DatagramRuns.NoDesync | engine/src/nrxp/datagram.rs:411-448 | no datagram moves the receiver by more than one step or past the sender; a commit needs the next epoch's id; without a delivery nothing changes |
| DatagramRuns.HonestDatagramOpens | engine/src/nrxp/datagram.rs:341-456 | for every threshold and width, an honest datagram is delivered with its own frame if and only if its step is previous, current or next, its counter not accepted yet, not a whole window old, within reach of the truncated form, and it comes with exactly the associated data given to `seal` |
| DatagramRuns.OtherAadIsRefused | engine/src/nrxp/datagram.rs:308-361 | with any other associated data it is refused and the receiver stays as it was |
| DatagramRuns.ShortEpochsLoseNothing | engine/src/nrxp/datagram.rs:341-456 | with an epoch no longer than half the wire range every counter is in reach, so that last condition falls away |
| Schedules.SealingFollowsSchedule | engine/src/nrxp/datagram.rs:283-300 | over all runs the datagram sealed after k others is number k modulo the threshold of step k divided by it: rekeying is neither early nor late |
| Schedules.HeaderNamesStep | engine/src/nrxp/datagram.rs:270-319 | the header of the next datagram is what can be peeked at before, and names the step it is sealed at |
| Refusals.RefusalsNameTheirEpoch | engine/src/nrxp/datagram.rs:411-456 | in every reachable state a datagram is refused if and only if it changes nothing, and the error tells which epoch it was tried against |
| Frames.TypeCodes | engine/src/nrxp/frame.rs:20-58 | type bytes and frame types correspond one to one |
| Frames.HeaderRoundTrip | engine/src/nrxp/frame.rs:155-247 | a written header parses back, whatever follows |
| Frames.FrameParses | engine/src/nrxp/frame.rs:155-287 | what any written frame parses to, including payloads whose length was cut |
| Frames.FrameRoundTrip | engine/src/nrxp/frame.rs:155-287 | a frame parses back with its padding invisible and the rest untouched if and only if its payload is shorter than 65536 bytes |
| Frames.ParseFrameIsLocal | engine/src/nrxp/frame.rs:250-287 | a parsed frame does not depend on the bytes behind it |
| Frames.RawFrameParses | engine/src/nrxp/frame.rs:188-287 | what a whole frame with any type byte parses to: itself with its own lengths, or the complaint about that byte |
| Frames.WaitsIff | engine/src/nrxp/frame.rs:250-287 | the parser waits if and only if the buffer does not begin with a whole frame |
| Frames.IntoBytes | engine/src/nrxp/frame.rs:155-183 | writes header, payload and padding of the declared length |
| Frames.ParseFrom | engine/src/nrxp/frame.rs:254-287 | incomplete and unknown frames leave the buffer alone, a complete one is consumed |
| TlsRecords.RecordRoundTrip | engine/src/tlseng/tls_record.rs:41-131 | serialising and parsing undo each other if and only if the payload fits 16 bits and application data holds more than a tag |
| TlsRecords.PrefixIsPending | engine/src/tlseng/tls_record.rs:85-131 | any proper prefix of a record leaves the buffer alone |
| TlsRecords.RawParses | engine/src/tlseng/tls_record.rs:82-131 | what a whole record with any version field parses to |
| TlsRecords.PendingIff | engine/src/tlseng/tls_record.rs:85-131 | the parser waits if and only if the buffer does not begin with a whole record |
| TlsRecords.RecordCodes | engine/src/tlseng/types.rs:28-69 | codes stand for one content type or version each |
| TlsRecords.ParseRecordFrom | engine/src/tlseng/tls_record.rs:109-131 | the buffer after every outcome, an unknown version included |
| TlsRecords.UnpackAppDataFrom | engine/src/bridge.rs:145-196 | takes application data only, consuming a record of another type |
| TlsRecords.BuildChangeCipherSpec | engine/src/tlseng/tls_record.rs:68-79 | the six constant bytes, which parse back |
| ChaChaStreams.ChaChaStream.Encrypt | engine/src/crypto/chacha.rs:91-120 | seals in place under the current counter, the nonce serving as associated data too, and moves the counter by one |
| ChaChaStreams.ChaChaStream.Decrypt | engine/src/crypto/chacha.rs:122-162 | a failure rolls the counter back and keeps the data, a success moves it by one |
| PadShapers.NewBoundaries | engine/src/nrxp/codec.rs:130-151 | for any draws the loop ends with strictly increasing boundaries ending in 16401, each gap but the last between a twentieth and a quarter of the boundary, except for the minimum and the cap |
| PadShapers.BinarySearch | engine/src/nrxp/codec.rs:153-168 | finds the element or the place where it belongs |
| PadShapers.ComputeTargetRecordLen | engine/src/nrxp/codec.rs:153-168 | the least boundary at or above the record's length |
| PadShapers.TargetIsQuantised | engine/src/nrxp/codec.rs:130-168 | the target is the least boundary that holds the record, monotone, idempotent, and fewer than 320 bytes away |
| PadShapers.PaddedRecordHitsTarget | engine/src/nrxp/codec.rs:283-296 | with the padding computed the record has exactly its target length: neither the saturation nor the minimum ever bites |
| Codecs.PackFromFits | engine/src/nrxp/codec.rs:212-254 | no batch is empty, and a batch is shaped if and only if it fits one record |
| Codecs.RecordLengths | engine/src/nrxp/codec.rs:283-336 | the length on the wire of each record whose frames fit is its target and never above 16401; only an oversized frame travels unpadded |
| Codecs.TxCodec.FlushRecord | engine/src/nrxp/codec.rs:304-336 | one record, one nonce, all frames in order, the padding in the tail of the last frame |
| Codecs.TxCodec.EncodeBatch | engine/src/nrxp/codec.rs:212-254 | the loop seals exactly the greedy batches in order under consecutive counters and writes exactly their records |
| Codecs.TxCodec.EncodeCover | engine/src/nrxp/codec.rs:263-281 | one cover frame in a record of exactly the clamped length |
| Codecs.RxCodec.TryParseFrame | engine/src/nrxp/codec.rs:423-444 | takes one staged frame; one that does not parse empties the staging |
| Codecs.RxCodec.DecodeInbound | engine/src/nrxp/codec.rs:362-421 | staged frame first, then record after record until a frame is complete; what it answers to which input is `Forgeries.AnswersExactly` |
| CodecRuns.TakesFirst | engine/src/nrxp/codec.rs:423-444 | from staged frames exactly the first comes out, with the tag of its record, the padding going with the last |
| CodecRuns.OnlyNextRecordOpens | engine/src/crypto/chacha.rs:122-162 | at counter n the only ciphertext that opens is the peer's record n |
| CodecRuns.DecodeKeepsInv | engine/src/nrxp/codec.rs:362-444 | one decoding step on any input at all keeps the relation between what was sent, what is staged and what was returned |
| CodecRuns.RunInv | engine/src/nrxp/codec.rs:362-444 | the invariant holds after every run of sending, receiving arbitrary bytes and decoding |
| CodecRuns.PrefixSafety | engine/src/nrxp/codec.rs:362-444 | whatever bytes arrive, and whatever the payload sizes, the frames returned are a prefix of the frames encoded; with nothing staged they are exactly the frames of the records consumed |
| CodecRuns.DrainHonest | engine/src/nrxp/codec.rs:362-421 | with any bytes behind the sender's records, all complete records come out and draining stops at an incomplete one or goes on with what is behind |
| CodecRuns.StreamRoundTrip | engine/src/nrxp/codec.rs:304-421 | however the wire is cut into reads, draining yields exactly the items sent, in order, if and only if every record fits its 16-bit length; then staging and input are empty and the counter is the number of records |
| Forgeries.AnswersExactly | engine/src/nrxp/codec.rs:362-421 | for any input: nothing yet if and only if nothing is staged and no whole record is there; an authentication error if and only if the whole record in front is not the peer's next; a record error if and only if its type or version is wrong |
| Forgeries.DepartureEndsConnection | engine/src/nrxp/codec.rs:362-421 | a stream that departs from the sender's by any whole record ends with an error, however it is cut, exactly the items before that place having come out |
| Forgeries.ErrorsClearStaging | engine/src/nrxp/codec.rs:362-444 | for any peer, an error leaves nothing staged and a call that waits has taken all whole records |
| Forgeries.Reassembles | engine/src/nrxp/codec.rs:362-444 | for any peer, a frame spread over any number of records is put together and returned, a bad type byte is an error |
| CodecRuns.TooLongIsNeverPassed | engine/src/tlseng/tls_record.rs:41-52 | once a record too long for its header has been sealed, no bytes at all, honest or not, bring out anything from it on |
| Packing.PackFromKeepsItems | engine/src/nrxp/codec.rs:212-254 | the batches put together are the items in order |
| Packing.FullerIsWorseByOne | engine/src/nrxp/codec.rs:212-254 | a fuller open batch never needs fewer records and at most one more |
| Packing.GreedyIsOptimal | engine/src/nrxp/codec.rs:197-254 | no order-preserving split into records needs fewer records than the greedy one |
| Packing.GreedyIsASplit | engine/src/nrxp/codec.rs:212-254 | the greedy batches are themselves such a split |
| Packing.EncodeDecodeRoundTrip | engine/src/nrxp/codec.rs:212-421 | any sequence of `encode_batch` and `encode_cover` calls, cut into reads in any way, decodes to the items of all calls in order if and only if no payload is longer than 65494 bytes |
| MlKem.PackedIsByteEncode | engine/src/tlseng/mlkem.rs:64-76 | the packing equals the bit-level ByteEncode with d = 12 of FIPS 203, section 4.2.1 |
| MlKem.UnpackInvertsPack | engine/src/tlseng/mlkem.rs:64-76 | unpacking recovers every coefficient modulo 4096 |
| MlKem.PackInvertsUnpack | engine/src/tlseng/mlkem.rs:64-76 | every byte string of whole triples is the packing of what it unpacks to |
| MlKem.ByteEncode12 | engine/src/tlseng/mlkem.rs:64-76 | the loop over the output slice writes that packing and nothing else |
| MlKem.SampleCoefficient | engine/src/tlseng/mlkem.rs:82-91 | returns the first acceptable candidate of the entropy, below the modulus |
| MlKem.SampleCoefficients | engine/src/tlseng/mlkem.rs:101-118 | fills the array with the first 768 acceptable candidates in order |
| MlKem.SampleShare | engine/src/tlseng/mlkem.rs:101-125 | a share of 1216 bytes that decodes to exactly those coefficients, all below 3329 |
| Extensions.ParseStackExactly | engine/src/tlseng/extension.rs:103-133 | for every block: extensions if nothing is left over, trailing data for one to three bytes, incomplete if a declared length overruns |
| Extensions.ParseStackIff | engine/src/tlseng/extension.rs:103-133 | extensions come out if and only if the block is exactly their concatenation |
| Extensions.Decompose | engine/src/tlseng/extension.rs:103-133 | every block is a run of extensions and a tail that is not one, so the cases above are all |
| Extensions.ParseStackFrom | engine/src/tlseng/extension.rs:103-133 | after the idle pass the extraction loop never reads out of range and empties the buffer; an incomplete or trailing block leaves it alone |
| Extensions.ServerNameRoundTrip | engine/src/tlseng/extension.rs:68-85 | the written name is read back |
| Extensions.HostFoundIff | engine/src/tlseng/extension.rs:68-85 | a host is found if and only if the data is a list that begins with it as an entry of the host name type |
| Extensions.KeyFoundByStructure | engine/src/crypto/session.rs:347-389 | whatever bytes other entries hold, and whatever broken rest follows, the key found is that of the first whole X25519 entry of the right length, or none |
| Extensions.KeyListDecomposes | engine/src/crypto/session.rs:366-389 | any bytes are some whole entries and a rest that is none, so this covers all lists |
| Extensions.ScanKeys | engine/src/crypto/session.rs:366-389 | the loop over the key list finds what hopping over whole entries finds |
| Extensions.ExtractPeerPublic | engine/src/crypto/session.rs:316-419 | an accepted key has 32 bytes and is not zero; every malformed share is refused with its own error |
| Extensions.FindsFirst | engine/src/tlseng/extension.rs:49-58 | finds the first extension of the type, and none if and only if there is none |
| Extensions.PeerPublicIff | engine/src/crypto/session.rs:316-419 | a key is accepted if and only if it is what the first key share extension holds in the form that side expects, and is not zero |
| Shuffles.ShuffleMiddle | engine/src/tlseng/extension.rs:432-444 | the in-place loop is Fisher-Yates on everything but both ends |
| Shuffles.ShuffledKeepsEnds | engine/src/tlseng/extension.rs:432-444 | the result is a permutation with both ends in place; orders shorter than four are untouched |
| Shuffles.ShuffleReaches | engine/src/tlseng/extension.rs:424-444 | the results over all draws are exactly the permutations that keep both ends |
| HelloBuilders.GreaseExactly | engine/src/tlseng/types.rs:242-248 | the predicate holds for the sixteen values of the table and for no other id |
| HelloBuilders.ExtensionBuilder.KeyShare | engine/src/tlseng/extension.rs:262-287 | GREASE entry, ballast and own key in this order, counted lengths included |
| HelloBuilders.ExtensionBuilder.Padding | engine/src/tlseng/extension.rs:414-422 | zeros up to the target if at least five bytes are missing, nothing otherwise |
| HelloBuilders.ExtensionBuilder.ApplySlot | engine/src/tlseng/extension.rs:465-523 | what each id of the order adds |
| HelloBuilders.ExtensionBuilder.ApplyProfile | engine/src/tlseng/extension.rs:453-524 | the block is built slot by slot along an order the profile allows |
| HelloSizes.Found | engine/src/tlseng/extension.rs:49-58 | in any built block a type of its own is found if and only if the order has its slot, with the contents of the first such slot |
| HelloSizes.ShareHoldsKey | engine/src/tlseng/extension.rs:262-287 | for any GREASE draw and any ballast, scanning the list finds the client's key |
| HelloSizes.KeyRecovered | engine/src/crypto/session.rs:316-419 | from any built block the server extracts exactly the client's key, or reports the zero key or the missing slot |
| HelloSizes.HostRecovered | engine/src/tlseng/extension.rs:68-85 | the host is read back if and only if the order has a slot for it |
| HelloSizes.SharesAreOffered | engine/src/tlseng/extension.rs:248-287 | every group of the key share is on the list of supported groups if and only if X25519 is |
| HelloSizes.SharesAre | engine/src/tlseng/extension.rs:262-287 | which shares there are and in which order: GREASE first, hybrid if and only if the profile lists it, the own key last |
| HelloContents.BlockSaysProfile | engine/src/tlseng/extension.rs:178-524 | for any shuffle and draws, groups, signatures, versions, protocols and every other extension parse to what the profile lists, and types not asked for are absent |
| HelloContents.GreaseAtTheEnds | engine/src/tlseng/extension.rs:471-486 | the two GREASE extensions stand at the ends, one empty and one with a zero byte |
| HelloContents.NoGreaseWithout | engine/src/tlseng/extension.rs:471-523 | a profile without GREASE sends no extension of such a type |
| HelloSizes.BlockSize | engine/src/tlseng/extension.rs:414-524 | with padding last the block ends at the target if more than four bytes were missing and is unpadded otherwise, for every shuffle and draw |
| HelloSizes.BlockSizeUnpadded | engine/src/tlseng/extension.rs:453-524 | without padding the size does not depend on shuffle or draws |
| Hellos.SerializeClientHello | engine/src/tlseng/handshake.rs:90-119 | writes the fields in order and fills the 24-bit length in last |
| Hellos.SerializeServerHello | engine/src/tlseng/handshake.rs:381-415 | the same for the server's hello, an empty block included |
| Hellos.ParseClientHelloFrom | engine/src/tlseng/handshake.rs:207-289 | the cursor reads what the offsets of the idle pass say, with the buffer it leaves behind for every outcome but an abort |
| Hellos.AbortsIff | engine/src/tlseng/handshake.rs:207-289 | the reader runs past the end of the cipher list exactly when all fields are there, the version is known and the declared length is odd |
| Hellos.OddListAborts | engine/src/tlseng/handshake.rs:265-270 | a record of 43 bytes that does so |
| Hellos.ParseServerHelloFrom | engine/src/tlseng/handshake.rs:418-488 | the same for the server's hello, which is taken off the buffer whole or not at all |
| Hellos.ClientHelloRoundTrip | engine/src/tlseng/handshake.rs:90-289 | a written client's hello parses back to itself |
| Hellos.ServerHelloRoundTrip | engine/src/tlseng/handshake.rs:381-488 | a written server's hello parses back to itself |
| HelloGrammars.RawClientReads | engine/src/tlseng/handshake.rs:207-289 | what any whole client's hello reads as, with any version, session id, compression methods and ending |
| HelloGrammars.ClientIncompleteIff | engine/src/tlseng/handshake.rs:210-250 | a client's hello is found incomplete if and only if it does not have all its fields |
| HelloGrammars.RawServerReads | engine/src/tlseng/handshake.rs:418-488 | what any whole server's hello reads as |
| HelloGrammars.ServerIncompleteIff | engine/src/tlseng/handshake.rs:421-457 | a server's hello is found incomplete if and only if it does not have all its fields |
| HelloGrammars.ClientBodyIs | engine/src/tlseng/handshake.rs:90-119 | what a client writes, field by field, with the null compression method only |
| HelloGrammars.ServerBodyIs | engine/src/tlseng/handshake.rs:381-415 | what a server writes, field by field |
| HelloGrammars.ClientMessageIff | engine/src/bridge.rs:90-142 | a client's message comes out if and only if the record is of the handshake type with type byte 1, its hello reads, and its block is exactly the extensions returned |
| HelloGrammars.ServerMessageIff | engine/src/bridge.rs:90-142 | the same for the server's |
| HelloGrammars.MessageErrors | engine/src/bridge.rs:90-142 | every refusal has its own cause |
| Hellos.HandleRecord | engine/src/bridge.rs:90-142 | which message or error a record yields, case by case, an abort included |
| Hellos.ClientPipeline | engine/src/bridge.rs:76-142 | record, header, hello and extension block undo one another on the client's side |
| Hellos.ServerPipeline | engine/src/bridge.rs:76-142 | and on the server's side |
| Hellos.HelloHeader | engine/src/tlseng/handshake.rs:34-70 | type byte, 24-bit length of the body, body |
| Sessions.VerifyTag | engine/src/crypto/session.rs:692-764 | accepts if and only if the tag belongs to a step of the clipped window, selects the least such step, and takes the same number of rounds for every tag |
| Sessions.SessionKeys.GenerateKeys | engine/src/crypto/session.rs:446-524 | derives both directions, the authentication key and the root, and burns the ephemeral key; what goes into the derivation is `Sessions.TamperingIsNoticed` |
| Sessions.SessionKeys.UpdateKeys | engine/src/crypto/session.rs:284-301 | takes the peer's salt and key and derives |
| Sessions.SessionKeys.VerifyHandshakeTag | engine/src/crypto/session.rs:226-242 | keyed tag for a version 3 peer, refusal or keyless tag for an anonymous one |
| Sessions.SessionKeys.WrapServerHello | engine/src/bridge.rs:213-266 | version, then key share, then tag, and only then keys; who is let in is `Authentications.AnsweredIff` |
| Sessions.HandshakeAgreement | engine/src/crypto/session.rs:446-524 | matching credentials, any salts and ephemerals and clocks within the window give mirrored keys, one authentication key and one root |
| Sessions.SameMaterial | engine/src/crypto/session.rs:92-103 | both sides feed the same salt and the same key material into the extraction |
| Sessions.MaterialAgreesIff | engine/src/crypto/session.rs:446-480 | two sides arrive at the same key material if and only if both or neither add the static exchange and each exchange has one result |
| Sessions.SecondDerivationFails | engine/src/crypto/session.rs:446-480 | a second derivation on the same state fails and leaves the first keys in place |
| Sessions.TamperingIsNoticed | engine/src/crypto/session.rs:284-524 | whatever hellos the sides accepted, their keys mirror each other if and only if both salts arrived unchanged, both or neither authenticate the node, the ephemeral exchange has the same result on both sides, and with authentication the static one as well |
| Authentications.AnsweredIff | engine/src/bridge.rs:213-285 | a hello is answered if and only if the session id has 32 bytes, the key share is good, no keys were derived before, and the tag is the HMAC under the node's secret of label, step, random and key for a step at most two away, or the keyless one where the node lets that pass; every refusal derives nothing |
| Authentications.MessageBinds | engine/src/crypto/session.rs:658-674 | a handshake tag covers step, random and key, and never the message of a keyless tag |
| Authentications.DomainsAreLabels | engine/src/crypto/session.rs:40-40 | the domain label of the static exchange and that of the handshake tag are the texts documented |
| Authentications.WindowIsNear | engine/src/crypto/session.rs:692-700 | the window is the steps at most two away, clipped |
| Authentications.ClientDerivesIff | engine/src/crypto/session.rs:284-301 | a client derives its keys if and only if the answer holds a good key share and it has not done so before |
| Sessions.DatagramLegsMirror | engine/src/crypto/datagram_keys.rs:147-181 | after a handshake both sides' datagram material is mirrored |
| Handshakes.MakeClientHello | engine/src/tlseng/handshake.rs:130-200 | the record sent is the one of some possible draw, and with padding last its length is fixed by profile and host |
| Handshakes.ClientHelloSize | engine/src/tlseng/handshake.rs:130-200 | the record's payload has the target size or the plain size, decided by profile and host alone |
| Handshakes.TargetIsReachedIff | engine/src/tlseng/extension.rs:414-422 | the promised minimum is met if and only if the plain size meets it or lies more than four bytes below it |
| Handshakes.PaddingCanMissTarget | engine/src/tlseng/profile.rs:79-99 | one of the padding profiles with a name of 322 bytes (longer than DNS allows, but not refused) gives a payload of 508 bytes |
| Handshakes.TagInHello | engine/src/tlseng/handshake.rs:130-151 | the session id holds the claimed version, 3 with credentials and 2 without, and the tag over step, random and key |
| Handshakes.ClientHelloRecovered | engine/src/tlseng/handshake.rs:90-289 | from the wire the server recovers record version, random, session id, cipher list, host and key for every profile, shuffle and draw |
| Handshakes.FirstOfferedIsBest | engine/src/tlseng/handshake.rs:340-352 | the suite selected is the most preferred common one, and the fallback when there is none |
| Handshakes.SuiteIsPreferred | engine/src/tlseng/handshake.rs:340-352 | the order that counts is the server's if its profile says so and else the client's |
| Handshakes.AnswerSays | engine/src/tlseng/handshake.rs:354-377 | session id echoed, salt as random, the two extensions byte by byte with the highest version of the profile |
| Handshakes.FromClientHello | engine/src/tlseng/handshake.rs:332-378 | the answer carries the client's session id, the server's salt and the two extensions |
| Handshakes.AnswerKeyRecovered | engine/src/crypto/session.rs:390-419 | the client extracts the server's key from the answer |
| Handshakes.ServerHelloRecovered | engine/src/tlseng/handshake.rs:306-488 | from the wire the client recovers the answer and the server's key |
| Handshakes.WrapServerHello | engine/src/bridge.rs:213-285 | answers a client's hello only, with the wire bytes and the claimed version, or the exact error |
| Handshakes.WholeHandshake | engine/src/bridge.rs:192-285 | over the wire: the server reads the hello and answers, the client reads the answer, and both hold mirrored keys |
| Traffic.StreamAfterHandshake | engine/src/crypto/chacha.rs:187-212 | after a handshake all that one side encodes, cover records included, comes out at the other, with both directions in one log, if and only if no payload is too long |
| Traffic.DatagramsAfterHandshake | engine/src/nrxp/datagram.rs:378-386 | both directions of the UDP leg start from what the two sides derive and never share a key |

## Left out

- Internals of ChaCha20-Poly1305, X25519, HKDF and HMAC, including the AEAD's limit on message length: idealised as described.
- Zeroisation, `Drop` and timing at machine level; of the constant-time loops only the number of rounds is stated.
- Statistical claims (boundaries differ between connections, no recoverable step, bias of a draw modulo a small number): only the sets of possible results are proved.
- The gap ratio is a real number in its range; floating-point rounding is not modelled, and the gap is clamped afterwards in any case.
- The frame's authentication tag is not checked while data is received, so it is only shown to round-trip.
- Sessions.VerifyTag: one loop models both tag loops, with the rule that makes tags as a parameter.
- MlKem.SampleShare: the entropy is a finite tape; the random source of the original never ends, so running out of tape has no counterpart there.
- Hellos.ParseClientHelloFrom: the buffer after an abort is not stated, because the original does not return from it.
- Extensions.ServerNameRoundTrip: whether a received name is valid UTF-8 is not modelled; names are bytes.
- Handshakes.ClientHelloRecovered: asks that the message fit one record, whose length field has 16 bits.
- Sequence counters are assumed to stay clear of 2^64, where the original would overflow; for the UDP leg this is proved of every run.
- Record and hello errors keep their kind but not their text or the bytes handed to the fallback.
- The record and decoy fallback for probes, logging, and parsing of identities from the environment.
- The constant tables of browser profiles: a profile is a parameter, except for the one used as an example.
- The hook that forces a rekey on demand, and the debug fingerprint of a key.
- The multiplexer, flow control, sockets and scheduling around the two legs.
